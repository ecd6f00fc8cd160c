/** `Vessel` and its `Builder`. A vessel is only ever obtained from `build`,
    which checks the mandatory fields and defaults the visibility. */
module Vessels {
  import opened Wrappers
  import opened Errors
  import opened Uuids
  import opened References
  import opened Departures

  /** `VisibilityType`: who may list a vessel. */
  datatype Visibility = ALL_CENTERS | CREATION_CENTER_ONLY

  /** A built vessel. Java's `equals` compares these six fields, which is
      exactly Dafny's equality on this datatype. */
  datatype Vessel = Vessel(
    uuid: string,
    name: string,
    category: VesselCategoryReference,
    visibility: Visibility,
    creationCenter: CenterReference,
    lastDeparture: Option<VesselDeparture>)

  /** The vessel under construction inside a `Builder`; an unset field is None. */
  datatype Builder = Builder(
    uuid: string,
    name: Option<string>,
    category: Option<VesselCategoryReference>,
    visibility: Option<Visibility>,
    creationCenter: Option<CenterReference>,
    lastDeparture: Option<VesselDeparture>)

  /** One call of a `with*` method; the `...Uuid` steps are the overloads
      taking a text identifier, which first build the reference. */
  datatype Step =
    | WithName(name: Option<string>)
    | WithCategory(category: Option<VesselCategoryReference>)
    | WithCategoryUuid(categoryUuid: Option<string>)
    | WithVisibility(visibility: Option<Visibility>)
    | WithCreationCenter(creationCenter: Option<CenterReference>)
    | WithCreationCenterUuid(creationCenterUuid: Option<string>)
    | WithDeparture(port: Option<PortReference>, time: Option<Time>)
    | WithDeparturePortUuid(portUuid: Option<string>, time: Option<Time>)

  predicate SetsDeparture(step: Step) {
    step.WithDeparture? || step.WithDeparturePortUuid?
  }

  /** The steps that throw: a reference factory or `VesselDeparture.of` given null. */
  predicate RejectsNull(step: Step) {
    || (step.WithCategoryUuid? && step.categoryUuid.None?)
    || (step.WithCreationCenterUuid? && step.creationCenterUuid.None?)
    || (step.WithDeparture? && (step.port.None? || step.time.None?))
    || (step.WithDeparturePortUuid? && (step.portUuid.None? || step.time.None?))
  }

  /** `Vessel.fromUuid`: a builder holding the given identifier and nothing else. */
  function FromUuid(uuid: string): (b: Builder)
    ensures b.uuid == uuid
    ensures b.name.None? && b.category.None? && b.visibility.None?
    ensures b.creationCenter.None? && b.lastDeparture.None?
  {
    Builder(uuid, None, None, None, None, None)
  }

  /** `Vessel.newInstance`; the random identifier is a parameter. */
  function NewInstance(generated: Uuid): (b: Builder)
    ensures b.uuid == generated
    ensures b.name.None? && b.category.None? && b.creationCenter.None?
    ensures b.lastDeparture.None? && b.visibility.None?
  {
    FromUuid(generated)
  }

  /** One `with*` call. */
  function Apply(b: Builder, step: Step): (r: Result<Builder, Error>)
    ensures r.Failure? <==> RejectsNull(step)
    ensures r.Failure? ==> (r.error ==
              if step.WithDeparture? && step.port.None? then DeparturePortMandatory
              else if step.WithDeparture? || (step.WithDeparturePortUuid? && step.portUuid.Some?) then DepartureTimeMandatory
              else UuidMandatory)
    ensures r.Success? ==> r.value.uuid == b.uuid
    ensures r.Success? && !SetsDeparture(step) ==> r.value.lastDeparture == b.lastDeparture
    ensures r.Success? && SetsDeparture(step) ==> r.value.lastDeparture.Some?
    ensures r.Success? && !step.WithVisibility? ==> r.value.visibility == b.visibility
    ensures r.Success? && step.WithVisibility? ==> r.value.visibility == step.visibility
    ensures r.Success? && step.WithName? ==> r.value == b.(name := step.name)
    ensures r.Success? && step.WithCategory? ==> r.value == b.(category := step.category)
    ensures r.Success? && step.WithCategoryUuid? ==>
              r.value == b.(category := Some(VesselCategoryReference(step.categoryUuid.value)))
    ensures r.Success? && step.WithVisibility? ==> r.value == b.(visibility := step.visibility)
    ensures r.Success? && step.WithCreationCenter? ==> r.value == b.(creationCenter := step.creationCenter)
    ensures r.Success? && step.WithCreationCenterUuid? ==>
              r.value == b.(creationCenter := Some(CenterReference(step.creationCenterUuid.value)))
    ensures r.Success? && step.WithDeparture? ==>
              r.value == b.(lastDeparture := Some(VesselDeparture(step.port.value, step.time.value)))
    ensures r.Success? && step.WithDeparturePortUuid? ==>
              r.value == b.(lastDeparture := Some(VesselDeparture(PortReference(step.portUuid.value), step.time.value)))
  {
    match step
    case WithName(n) => Success(b.(name := n))
    case WithCategory(c) => Success(b.(category := c))
    case WithCategoryUuid(u) =>
      var c :- CategoryOf(u);
      Success(b.(category := Some(c)))
    case WithVisibility(v) => Success(b.(visibility := v))
    case WithCreationCenter(c) => Success(b.(creationCenter := c))
    case WithCreationCenterUuid(u) =>
      var c :- CenterOf(u);
      Success(b.(creationCenter := Some(c)))
    case WithDeparture(p, t) =>
      var d :- Departures.Of(p, t);
      Success(b.(lastDeparture := Some(d)))
    case WithDeparturePortUuid(u, t) =>
      var p :- PortOf(u);
      var d :- Departures.Of(Some(p), t);
      Success(b.(lastDeparture := Some(d)))
  }

  /** A chain of `with*` calls; the first that throws ends the chain. */
  function ApplyAll(b: Builder, steps: seq<Step>): Result<Builder, Error>
    decreases |steps|
  {
    if steps == [] then Success(b)
    else
      var b' :- Apply(b, steps[0]);
      ApplyAll(b', steps[1..])
  }

  /** `Builder.build`: name, category and creation center are checked in
      that order; an unset visibility becomes CREATION_CENTER_ONLY. */
  function Build(b: Builder): (r: Result<Vessel, Error>)
    ensures b.name.None? ==> r == Failure(NameMandatory)
    ensures b.name.Some? && b.category.None? ==> r == Failure(CategoryMandatory)
    ensures b.name.Some? && b.category.Some? && b.creationCenter.None? ==> r == Failure(CreationCenterMandatory)
    ensures r.Success? <==> b.name.Some? && b.category.Some? && b.creationCenter.Some?
    ensures r.Success? && b.visibility.Some? ==> r.value.visibility == b.visibility.value
    ensures r.Success? && b.visibility.None? ==> r.value.visibility == CREATION_CENTER_ONLY
    ensures r.Success? ==> Seed(r.value) == b.(visibility := Some(r.value.visibility))
  {
    var name :- b.name.ToResult(NameMandatory);
    var category :- b.category.ToResult(CategoryMandatory);
    var creationCenter :- b.creationCenter.ToResult(CreationCenterMandatory);
    var visibility := if b.visibility.None? then CREATION_CENTER_ONLY else b.visibility.value;
    Success(Vessel(b.uuid, name, category, visibility, creationCenter, b.lastDeparture))
  }

  /** The builder state that holds every field of `v`. */
  function Seed(v: Vessel): Builder {
    Builder(v.uuid, Some(v.name), Some(v.category), Some(v.visibility), Some(v.creationCenter), v.lastDeparture)
  }

  /** The visibility a chain leaves set: the argument of its last `withVisibility`. */
  function VisibilitySetBy(steps: seq<Step>, initial: Option<Visibility>): Option<Visibility>
  {
    if steps == [] then initial
    else VisibilitySetBy(steps[1..], if steps[0].WithVisibility? then steps[0].visibility else initial)
  }

  /** No `with*` call changes the identifier the builder was created with. */
  lemma {:induction false} ChainKeepsUuid(b: Builder, steps: seq<Step>)
    requires ApplyAll(b, steps).Success?
    ensures ApplyAll(b, steps).value.uuid == b.uuid
    decreases |steps|
  {
    if steps != [] {
      ChainKeepsUuid(Apply(b, steps[0]).value, steps[1..]);
    }
  }

  /** `fromUuid(u)` followed by any successful chain and `build` gives a vessel whose identifier is `u`. */
  lemma FromUuidKeepsUuid(u: string, steps: seq<Step>)
    requires ApplyAll(FromUuid(u), steps).Success?
    requires Build(ApplyAll(FromUuid(u), steps).value).Success?
    ensures Build(ApplyAll(FromUuid(u), steps).value).value.uuid == u
  {
    ChainKeepsUuid(FromUuid(u), steps);
  }

  /** A chain leaves a last departure exactly when it started with one or
      called `withDeparture`; the departure is then complete by construction. */
  lemma {:induction false} DepartureOnlyFromWithDeparture(b: Builder, steps: seq<Step>)
    requires ApplyAll(b, steps).Success?
    ensures ApplyAll(b, steps).value.lastDeparture.Some? <==>
              b.lastDeparture.Some? || exists i :: 0 <= i < |steps| && SetsDeparture(steps[i])
    decreases |steps|
  {
    if steps != [] {
      var b' := Apply(b, steps[0]).value;
      DepartureOnlyFromWithDeparture(b', steps[1..]);
      if exists i :: 0 <= i < |steps| && SetsDeparture(steps[i]) {
        var i :| 0 <= i < |steps| && SetsDeparture(steps[i]);
        if i > 0 { assert SetsDeparture(steps[1..][i - 1]); }
      }
      if exists i :: 0 <= i < |steps[1..]| && SetsDeparture(steps[1..][i]) {
        var i :| 0 <= i < |steps[1..]| && SetsDeparture(steps[1..][i]);
        assert SetsDeparture(steps[i + 1]);
      }
    }
  }

  /** The last `withVisibility` wins, and `build` keeps it or, when it left
      the visibility null, defaults to CREATION_CENTER_ONLY. */
  lemma {:induction false} LastVisibilityWins(b: Builder, steps: seq<Step>)
    requires ApplyAll(b, steps).Success?
    ensures ApplyAll(b, steps).value.visibility == VisibilitySetBy(steps, b.visibility)
    ensures Build(ApplyAll(b, steps).value).Success? ==>
              Build(ApplyAll(b, steps).value).value.visibility
                == VisibilitySetBy(steps, b.visibility).GetOr(CREATION_CENTER_ONLY)
    decreases |steps|
  {
    if steps != [] {
      LastVisibilityWins(Apply(b, steps[0]).value, steps[1..]);
    }
  }

  /** Building the seed of a vessel gives the vessel back. */
  lemma BuildSeed(v: Vessel)
    ensures Build(Seed(v)) == Success(v)
  {
  }
}

/** `VesselUdt`: the vessel as the user-defined type embedded in every table
    row. It holds identifiers as text and the departure as two nullable
    columns. */
module Udt {
  import opened Wrappers
  import opened Errors
  import opened References
  import opened Departures
  import opened Vessels

  /** Java's `equals` compares these six fields: Dafny's datatype equality. */
  datatype VesselUdt = VesselUdt(
    name: Option<string>,
    category: Option<string>,
    visibility: Option<Visibility>,
    creationCenter: Option<string>,
    lastDeparturePort: Option<string>,
    lastDepartureTime: Option<Time>)

  /** The values `toDomainModel` accepts: name, category and creation center
      present, departure port and time both present or both absent. */
  predicate Complete(u: VesselUdt) {
    && u.name.Some? && u.category.Some? && u.creationCenter.Some?
    && (u.lastDeparturePort.Some? <==> u.lastDepartureTime.Some?)
  }

  /** `VesselUdt.from`. */
  function From(v: Vessel): (u: VesselUdt)
    ensures u.name == Some(v.name)
    ensures u.category == Some(v.category.uuid)
    ensures u.visibility == Some(v.visibility)
    ensures u.creationCenter == Some(v.creationCenter.uuid)
    ensures u.lastDeparturePort.Some? <==> v.lastDeparture.Some?
    ensures u.lastDepartureTime.Some? <==> v.lastDeparture.Some?
    ensures v.lastDeparture.Some? ==>
              && u.lastDeparturePort == Some(v.lastDeparture.value.departurePort.uuid)
              && u.lastDepartureTime == Some(v.lastDeparture.value.departureTime)
    ensures Complete(u)
  {
    VesselUdt(
      Some(v.name),
      Some(v.category.uuid),
      Some(v.visibility),
      Some(v.creationCenter.uuid),
      if v.lastDeparture.Some? then Some(v.lastDeparture.value.departurePort.uuid) else None,
      if v.lastDeparture.Some? then Some(v.lastDeparture.value.departureTime) else None)
  }

  /** `VesselUdt.toDomainModel`: replays the builder chain Java runs. The
      category and creation-center references are built (and may throw)
      before the departure; a null time throws when it is converted, before
      the port is looked at; `build` then checks the name. */
  function ToDomainModel(u: VesselUdt, uuid: string): (r: Result<Vessel, Error>)
    ensures u.category.None? ==> r == Failure(UuidMandatory)
    ensures u.category.Some? && u.creationCenter.None? ==> r == Failure(UuidMandatory)
    ensures (u.category.Some? && u.creationCenter.Some? && u.lastDeparturePort.Some? && u.lastDepartureTime.None?)
            ==> r == Failure(NullDepartureTime)
    ensures (u.category.Some? && u.creationCenter.Some? && u.lastDeparturePort.None? && u.lastDepartureTime.Some?)
            ==> r == Failure(UuidMandatory)
    ensures (u.category.Some? && u.creationCenter.Some? && (u.lastDeparturePort.Some? <==> u.lastDepartureTime.Some?)
             && u.name.None?)
            ==> r == Failure(NameMandatory)
    ensures r.Success? <==> Complete(u)
    ensures r.Success? ==> From(r.value) == u.(visibility := Some(u.visibility.GetOr(CREATION_CENTER_ONLY)))
    ensures r.Success? ==> r.value.uuid == uuid
  {
    var b := Apply(FromUuid(uuid), WithName(u.name)).value;
    var b :- Apply(b, WithCategoryUuid(u.category));
    var b := Apply(b, WithVisibility(u.visibility)).value;
    var b :- Apply(b, WithCreationCenterUuid(u.creationCenter));
    var b :-
      if u.lastDeparturePort.Some? || u.lastDepartureTime.Some? then
        if u.lastDepartureTime.None? then Failure(NullDepartureTime)
        else Apply(b, WithDeparturePortUuid(u.lastDeparturePort, u.lastDepartureTime))
      else Success(b);
    Build(b)
  }

  /** Converting a vessel to the UDT and back gives the vessel, under the
      identifier supplied at conversion time. */
  lemma RoundTrip(v: Vessel, uuid: string)
    ensures ToDomainModel(From(v), uuid) == Success(v.(uuid := uuid))
  {
  }

  /** The UDT does not carry the vessel's identifier. */
  lemma FromIgnoresUuid(v: Vessel, uuid: string)
    ensures From(v.(uuid := uuid)) == From(v)
  {
  }
}

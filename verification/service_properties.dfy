/** Properties of the service that relate several calls: `add` and `update`
    against `find`, `remove` and its repetition, the row a visibility change
    leaves behind, the center whose identifier is the global partition key,
    and the departure-port table that no call writes. */
module ServiceProperties {
  import opened Wrappers
  import opened Uuids
  import opened References
  import opened Vessels
  import opened Tables
  import opened Store
  import opened VesselTableType
  import opened VesselService
  import Udt
  import VesselsTable
  import VesselsByUuidTable

  /** `add` stores the same rows whatever identifier the vessel carries. */
  lemma AddIgnoresVesselUuid(s: Store, generated: Uuid, v: Vessel, other: string)
    ensures Add(s, generated, v.(uuid := other)) == Add(s, generated, v)
  {
    BatchOfRegistry(generated, v, false);
    BatchOfRegistry(generated, v.(uuid := other), false);
    VesselsTable.FromIgnoresVesselUuid(generated, v, other);
    Udt.FromIgnoresUuid(v, other);
  }

  /** Saving a vessel whose identifier has no row yet leaves exactly one row
      for it in `vessels` and exactly one in `vessels_by_uuid`, and nothing in
      `vessels_by_departure_port` changes. */
  lemma SaveWritesOneRowEach(s: Store, uuid: Uuid, v: Vessel)
    requires Valid(s)
    requires forall r | r in s.vessels :: r.uuid != uuid
    requires StoredRow(s, uuid).None?
    ensures var s' := Save(s, uuid, v);
      && (exists i :: 0 <= i < |s'.vessels| && s'.vessels[i] == VesselsTable.From(uuid, v)
            && forall j :: 0 <= j < |s'.vessels| && s'.vessels[j].uuid == uuid ==> j == i)
      && (exists i :: 0 <= i < |s'.vesselsByUuid| && s'.vesselsByUuid[i] == VesselsByUuidTable.From(uuid, v)
            && forall j :: 0 <= j < |s'.vesselsByUuid| && s'.vesselsByUuid[j].uuid == uuid ==> j == i)
      && s'.vesselsByDeparturePort == s.vesselsByDeparturePort
  {
    var s' := Save(s, uuid, v);
    var sameUuid := (r: VesselsTable.VesselsRow) => r.uuid == uuid;
    UpsertOnlyRow(s.vessels, VesselsTable.Key, VesselsTable.From(uuid, v), sameUuid);
    var i :| 0 <= i < |s'.vessels| && s'.vessels[i] == VesselsTable.From(uuid, v)
             && forall j :: 0 <= j < |s'.vessels| && sameUuid(s'.vessels[j]) ==> j == i;
    assert forall j :: 0 <= j < |s'.vessels| && s'.vessels[j].uuid == uuid ==> j == i by {
      forall j | 0 <= j < |s'.vessels| && s'.vessels[j].uuid == uuid ensures j == i {
        assert sameUuid(s'.vessels[j]);
      }
    }
    SaveWritesOneByUuidRow(s, uuid, v);
  }

  /** The `vessels_by_uuid` half of `SaveWritesOneRowEach`. */
  lemma SaveWritesOneByUuidRow(s: Store, uuid: Uuid, v: Vessel)
    requires Valid(s)
    requires StoredRow(s, uuid).None?
    ensures var s' := Save(s, uuid, v);
      exists i :: 0 <= i < |s'.vesselsByUuid| && s'.vesselsByUuid[i] == VesselsByUuidTable.From(uuid, v)
        && forall j :: 0 <= j < |s'.vesselsByUuid| && s'.vesselsByUuid[j].uuid == uuid ==> j == i
  {
    var s' := Save(s, uuid, v);
    assert forall r | r in s.vesselsByUuid :: VesselsByUuidTable.Key(r) != uuid;
    UpsertOnlyRow(s.vesselsByUuid, VesselsByUuidTable.Key, VesselsByUuidTable.From(uuid, v),
                  (r: VesselsByUuidTable.ByUuidRow) => VesselsByUuidTable.Key(r) == uuid);
  }

  /** A visibility change moves the vessel to another partition and leaves its
      former row where it was: the center then lists the vessel twice, once
      per visibility, while `find` sees only the new state. */
  lemma OrphanAfterVisibilityChange(s: Store, uuid: Uuid, v: Vessel)
    requires Valid(s)
    requires v.visibility == CREATION_CENTER_ONLY
    requires v.creationCenter.uuid != VesselsTable.GLOBAL_VISIBILITY_KEY
    ensures var global := v.(visibility := ALL_CENTERS);
            var s2 := Save(Save(s, uuid, v), uuid, global);
      && VesselsTable.From(uuid, v) in s2.vessels
      && VesselsTable.From(uuid, global) in s2.vessels
      && Find(s2, uuid) == Success(Some(global.(uuid := uuid)))
      && FindAll(s2, v.creationCenter).Success?
      && v.(uuid := uuid) in FindAll(s2, v.creationCenter).value
      && global.(uuid := uuid) in FindAll(s2, v.creationCenter).value
  {
    var global := v.(visibility := ALL_CENTERS);
    var s2 := Save(Save(s, uuid, v), uuid, global);
    OrphanRows(s, uuid, v);
    VesselsByUuidTable.RoundTrip(uuid, global);
    VesselsTable.RoundTrip(uuid, v);
    VesselsTable.RoundTrip(uuid, global);
    ListedRowIsFound(s2, VesselsTable.From(uuid, v), v.creationCenter);
    ListedRowIsFound(s2, VesselsTable.From(uuid, global), v.creationCenter);
  }

  /** The two saves of `OrphanAfterVisibilityChange` leave both `vessels` rows,
      in a valid store. */
  lemma OrphanRows(s: Store, uuid: Uuid, v: Vessel)
    requires Valid(s)
    requires v.visibility == CREATION_CENTER_ONLY
    requires v.creationCenter.uuid != VesselsTable.GLOBAL_VISIBILITY_KEY
    ensures var global := v.(visibility := ALL_CENTERS);
            var s2 := Save(Save(s, uuid, v), uuid, global);
      && VesselsTable.From(uuid, v) in s2.vessels
      && VesselsTable.From(uuid, global) in s2.vessels
      && Valid(s2)
  {
    var global := v.(visibility := ALL_CENTERS);
    var s2 := Save(Save(s, uuid, v), uuid, global);
    assert VesselsTable.Key(VesselsTable.From(uuid, v)) != VesselsKeyOf(uuid, global);
  }

  /** A row the center may list, in a valid store, shows up in `findAll`. */
  lemma ListedRowIsFound(s: Store, row: VesselsTable.VesselsRow, center: CenterReference)
    requires Valid(s)
    requires row in s.vessels && Listed(row, center)
    ensures FindAll(s, center).Success?
    ensures VesselsTable.ToDomainModel(row).Success?
    ensures VesselsTable.ToDomainModel(row).value in FindAll(s, center).value
  {
    assert VesselsTable.Consistent(row);
  }

  /** Removing the vessel after that visibility change deletes the rows of its
      stored state only: `find` answers None, yet the center still lists the
      vessel from its former row. */
  lemma RemoveLeavesOrphan(s: Store, uuid: Uuid, v: Vessel)
    requires Valid(s)
    requires v.visibility == CREATION_CENTER_ONLY
    requires v.creationCenter.uuid != VesselsTable.GLOBAL_VISIBILITY_KEY
    ensures var s2 := Save(Save(s, uuid, v), uuid, v.(visibility := ALL_CENTERS));
            var s3 := Remove(s2, uuid);
      && s3.Success?
      && Find(s3.value, uuid) == Success(None)
      && VesselsTable.From(uuid, v) in s3.value.vessels
      && FindAll(s3.value, v.creationCenter).Success?
      && v.(uuid := uuid) in FindAll(s3.value, v.creationCenter).value
  {
    var s2 := Save(Save(s, uuid, v), uuid, v.(visibility := ALL_CENTERS));
    RemoveKeepsOrphanRow(s, uuid, v);
    var s3 := Remove(s2, uuid).value;
    VesselsTable.RoundTrip(uuid, v);
    ListedRowIsFound(s3, VesselsTable.From(uuid, v), v.creationCenter);
  }

  /** The store side of `RemoveLeavesOrphan`: `remove` succeeds, `find` then
      answers None, and the local row survives in a valid store. */
  lemma RemoveKeepsOrphanRow(s: Store, uuid: Uuid, v: Vessel)
    requires Valid(s)
    requires v.visibility == CREATION_CENTER_ONLY
    requires v.creationCenter.uuid != VesselsTable.GLOBAL_VISIBILITY_KEY
    ensures var s2 := Save(Save(s, uuid, v), uuid, v.(visibility := ALL_CENTERS));
            var s3 := Remove(s2, uuid);
      && s3.Success?
      && Find(s3.value, uuid) == Success(None)
      && VesselsTable.From(uuid, v) in s3.value.vessels
      && Valid(s3.value)
  {
    var global := v.(visibility := ALL_CENTERS);
    var s2 := Save(Save(s, uuid, v), uuid, global);
    OrphanRows(s, uuid, v);
    VesselsByUuidTable.RoundTrip(uuid, global);
    assert Find(s2, uuid) == Success(Some(global.(uuid := uuid)));
    var s3 := VesselService.Delete(s2, uuid, global.(uuid := uuid));
    var orphan := VesselsTable.From(uuid, v);
    assert VesselsTable.Key(orphan) != VesselsKeyOf(uuid, global.(uuid := uuid));
    assert orphan in s3.vessels;
  }


  /** In a valid store, `findAll(c)` lists a saved vessel exactly when it is
      global, belongs to `c`, or belongs to a center whose identifier is the
      global key; other centers' local vessels stay hidden. */
  lemma FindAllVisibility(s: Store, uuid: Uuid, v: Vessel, c: CenterReference)
    requires Valid(s)
    ensures var r := FindAll(Save(s, uuid, v), c);
      && r.Success?
      && (v.(uuid := uuid) in r.value <==>
            || v.visibility == ALL_CENTERS
            || v.creationCenter.uuid == c.uuid
            || v.creationCenter.uuid == VesselsTable.GLOBAL_VISIBILITY_KEY)
  {
    var s' := Save(s, uuid, v);
    var w := v.(uuid := uuid);
    var key := VesselsTable.PartitionKey(v.visibility, v.creationCenter);
    VesselsTable.RoundTrip(uuid, v);
    VesselsTable.FromIgnoresVesselUuid(uuid, v, uuid);
    if w in FindAll(s', c).value {
      var row :| row in s'.vessels && Listed(row, c) && VesselsTable.ToDomainModel(row) == Success(w);
      assert VesselsTable.Consistent(row);
      assert row == VesselsTable.From(uuid, v);
      assert row.visibility == key;
    }
    if v.visibility == ALL_CENTERS || v.creationCenter.uuid == c.uuid
       || v.creationCenter.uuid == VesselsTable.GLOBAL_VISIBILITY_KEY {
      assert Listed(VesselsTable.From(uuid, v), c);
    }
  }

  /** A center whose identifier is `_ALL` writes its local vessels into the
      global partition, so every center lists them. */
  lemma AllNamedCenterSharesGlobalPartition(s: Store, uuid: Uuid, v: Vessel, c: CenterReference)
    requires Valid(s)
    requires v.visibility == CREATION_CENTER_ONLY
    requires v.creationCenter.uuid == VesselsTable.GLOBAL_VISIBILITY_KEY
    ensures FindAll(Save(s, uuid, v), c).Success?
    ensures v.(uuid := uuid) in FindAll(Save(s, uuid, v), c).value
  {
    FindAllVisibility(s, uuid, v, c);
  }

  /** For a center whose identifier is `_ALL`, `findAll` reads the global
      partition once but `findByNameFragment` queries it twice: its answer is
      one list of matches repeated. */
  lemma NameFragmentTwiceForAllNamedCenter(s: Store, c: CenterReference, fragment: string)
    requires c.uuid == VesselsTable.GLOBAL_VISIBILITY_KEY
    ensures var r := FindByNameFragment(s, c, fragment);
            var n := |NameFragmentRows(s, VesselsTable.GLOBAL_VISIBILITY_KEY, fragment)|;
      r.Success? ==> |r.value| == 2 * n && r.value[..n] == r.value[n..]
    ensures FindAll(s, c).Success? ==>
              |FindAll(s, c).value| == |Partition(s, VesselsTable.GLOBAL_VISIBILITY_KEY)|
  {
    var rows := NameFragmentRows(s, VesselsTable.GLOBAL_VISIBILITY_KEY, fragment);
    var r := FindByNameFragment(s, c, fragment);
    if r.Success? {
      var m := Seqs.MapResult(rows, VesselsTable.ToDomainModel);
      assert r == Seqs.MapResult(rows + rows, VesselsTable.ToDomainModel);
      assert m.Success? by {
        forall i | 0 <= i < |rows| ensures VesselsTable.ToDomainModel(rows[i]).Success? {
          assert (rows + rows)[i] == rows[i];
        }
      }
      Seqs.MapResultAppend(rows, rows, VesselsTable.ToDomainModel);
      assert r.value == m.value + m.value;
    }
  }

  /** A second `remove` of the same identifier succeeds and changes nothing. */
  lemma RemoveTwice(s: Store, uuid: string)
    ensures Remove(s, uuid).Success? ==> Remove(Remove(s, uuid).value, uuid) == Remove(s, uuid)
  {
  }

  /** `remove` after `update(v)` deletes the rows derived from `v`: the
      identifier is gone from `vessels_by_uuid` and `v`'s `vessels` row is gone. */
  lemma RemoveAfterUpdate(s: Store, v: Vessel)
    requires Valid(s)
    requires IsUuidText(v.uuid)
    ensures Update(s, v).Success?
    ensures var r := Remove(Update(s, v).value, v.uuid);
      && r.Success?
      && StoredRow(r.value, v.uuid).None?
      && VesselsTable.From(v.uuid, v) !in r.value.vessels
      && Valid(r.value)
  {
    var s1 := Update(s, v).value;
    assert Find(s1, v.uuid) == Success(Some(v));
    var row := VesselsTable.From(v.uuid, v);
    assert VesselsTable.Key(row) == VesselsKeyOf(v.uuid, v);
  }

  /** The public calls of the service. */
  datatype Call =
    | AddCall(generated: Uuid, vessel: Vessel)
    | UpdateCall(vessel: Vessel)
    | RemoveCall(uuid: string)

  /** The store after one call; a call that throws leaves the store as it was. */
  function Perform(s: Store, call: Call): (s': Store)
    ensures s'.vesselsByDeparturePort == s.vesselsByDeparturePort
    ensures Valid(s) ==> Valid(s')
  {
    match call
    case AddCall(generated, v) => Add(s, generated, v)
    case UpdateCall(v) =>
      var r := Update(s, v);
      if r.Success? then r.value else s
    case RemoveCall(uuid) =>
      var r := Remove(s, uuid);
      if r.Success? then r.value else s
  }

  /** The store after a sequence of calls. */
  function PerformAll(s: Store, calls: seq<Call>): Store
    decreases |calls|
  {
    if calls == [] then s else PerformAll(Perform(s, calls[0]), calls[1..])
  }

  /** Every call keeps a store valid and leaves `vessels_by_departure_port` as
      it was. */
  lemma {:induction false} PerformAllKeepsDeparturePortTable(s: Store, calls: seq<Call>)
    ensures PerformAll(s, calls).vesselsByDeparturePort == s.vesselsByDeparturePort
    ensures Valid(s) ==> Valid(PerformAll(s, calls))
    decreases |calls|
  {
    if calls != [] {
      PerformAllKeepsDeparturePortTable(Perform(s, calls[0]), calls[1..]);
    }
  }

  /** From an empty store, no sequence of calls ever gives a vessel a
      departure: `findByDeparturePort` answers an empty list for every port
      and every instant. */
  lemma NoDeparturesEverFound(calls: seq<Call>, port: PortReference, now: int)
    ensures Valid(PerformAll(Empty, calls))
    ensures FindByDeparturePort(PerformAll(Empty, calls), port, now) == Success([])
  {
    PerformAllKeepsDeparturePortTable(Empty, calls);
  }
}

/** `VesselService`: writes and deletes a vessel as one batch over the
    registry's tables, and answers queries by choosing partitions. The store
    is a parameter and the updated store a result; the random UUID of `add`
    and the clock of `findByDeparturePort` are parameters too. */
module VesselService {
  import opened Wrappers
  import opened Errors
  import opened Uuids
  import opened References
  import opened Departures
  import opened Vessels
  import opened Tables
  import opened Seqs
  import opened Store
  import opened VesselTableType
  import VesselsTable
  import VesselsByUuidTable
  import VesselsByDeparturePortTable

  /** `DEPARTURE_RANGE`: twenty hours, in milliseconds. */
  const DEPARTURE_RANGE: int := 20 * 60 * 60 * 1000

  /** The primary key of the `vessels` row derived from `(uuid, v)`. */
  function VesselsKeyOf(uuid: Uuid, v: Vessel): VesselsTable.VesselsKey {
    VesselsTable.VesselsKey(VesselsTable.PartitionKey(v.visibility, v.creationCenter), uuid)
  }

  /** A `vessels` row that a center lists: one in the global partition or in its own. */
  predicate Listed(row: VesselsTable.VesselsRow, center: CenterReference) {
    row.visibility == VesselsTable.GLOBAL_VISIBILITY_KEY || row.visibility == center.uuid
  }

  /** `save`: one batch of save queries, one per registry entry. Only the rows
      under the keys derived from `(uuid, v)` change; a row the vessel had
      under another partition stays. */
  function Save(s: Store, uuid: Uuid, v: Vessel): (s': Store)
    ensures s'.vessels == Upsert(s.vessels, VesselsTable.Key, VesselsTable.From(uuid, v))
    ensures s'.vesselsByUuid == Upsert(s.vesselsByUuid, VesselsByUuidTable.Key, VesselsByUuidTable.From(uuid, v))
    ensures Get(s'.vessels, VesselsTable.Key, VesselsKeyOf(uuid, v)) == Some(VesselsTable.From(uuid, v))
    ensures forall k :: k != VesselsKeyOf(uuid, v) ==>
              Get(s'.vessels, VesselsTable.Key, k) == Get(s.vessels, VesselsTable.Key, k)
    ensures forall r :: r in s'.vessels <==>
              r == VesselsTable.From(uuid, v) || (r in s.vessels && VesselsTable.Key(r) != VesselsKeyOf(uuid, v))
    ensures Get(s'.vesselsByUuid, VesselsByUuidTable.Key, uuid) == Some(VesselsByUuidTable.From(uuid, v))
    ensures forall k :: k != uuid ==>
              Get(s'.vesselsByUuid, VesselsByUuidTable.Key, k) == Get(s.vesselsByUuid, VesselsByUuidTable.Key, k)
    ensures forall r :: r in s'.vesselsByUuid <==>
              r == VesselsByUuidTable.From(uuid, v) || (r in s.vesselsByUuid && r.uuid != uuid)
    ensures s'.vesselsByDeparturePort == s.vesselsByDeparturePort
    ensures Valid(s) ==> Valid(s')
  {
    SaveBatchEffect(s, uuid, v);
    ExecuteBatch(s, Batch(Values, uuid, v, false))
  }

  /** `delete`: one batch of delete queries for the rows derived from `(uuid, v)`. */
  function Delete(s: Store, uuid: Uuid, v: Vessel): (s': Store)
    ensures s'.vessels == Tables.Delete(s.vessels, VesselsTable.Key, VesselsKeyOf(uuid, v))
    ensures s'.vesselsByUuid == Tables.Delete(s.vesselsByUuid, VesselsByUuidTable.Key, uuid)
    ensures Get(s'.vessels, VesselsTable.Key, VesselsKeyOf(uuid, v)) == None
    ensures forall k :: k != VesselsKeyOf(uuid, v) ==>
              Get(s'.vessels, VesselsTable.Key, k) == Get(s.vessels, VesselsTable.Key, k)
    ensures forall r :: r in s'.vessels <==> r in s.vessels && VesselsTable.Key(r) != VesselsKeyOf(uuid, v)
    ensures Get(s'.vesselsByUuid, VesselsByUuidTable.Key, uuid) == None
    ensures forall k :: k != uuid ==>
              Get(s'.vesselsByUuid, VesselsByUuidTable.Key, k) == Get(s.vesselsByUuid, VesselsByUuidTable.Key, k)
    ensures forall r :: r in s'.vesselsByUuid <==> r in s.vesselsByUuid && r.uuid != uuid
    ensures s'.vesselsByDeparturePort == s.vesselsByDeparturePort
    ensures Valid(s) ==> Valid(s')
  {
    DeleteBatchEffect(s, uuid, v);
    ExecuteBatch(s, Batch(Values, uuid, v, true))
  }

  /** The save batch over the registry amounts to an upsert of the `vessels`
      row and one of the `vessels_by_uuid` row, and keeps the store valid. */
  lemma SaveBatchEffect(s: Store, uuid: Uuid, v: Vessel)
    ensures var s' := ExecuteBatch(s, Batch(Values, uuid, v, false));
      && s'.vessels == Upsert(s.vessels, VesselsTable.Key, VesselsTable.From(uuid, v))
      && s'.vesselsByUuid == Upsert(s.vesselsByUuid, VesselsByUuidTable.Key, VesselsByUuidTable.From(uuid, v))
      && s'.vesselsByDeparturePort == s.vesselsByDeparturePort
      && (Valid(s) ==> Valid(s'))
  {
    var batch := Batch(Values, uuid, v, false);
    BatchOfRegistry(uuid, v, false);
    VesselsTable.FromIsConsistent(uuid, v);
    VesselsByUuidTable.FromIsConsistent(uuid, v);
    ExecuteBatchPreservesValid(s, batch);
    ExecuteBatchOfTwo(s, batch[0], batch[1]);
  }

  /** The delete batch over the registry amounts to a delete of the `vessels`
      key and one of the `vessels_by_uuid` key, and keeps the store valid. */
  lemma DeleteBatchEffect(s: Store, uuid: Uuid, v: Vessel)
    ensures var s' := ExecuteBatch(s, Batch(Values, uuid, v, true));
      && s'.vessels == Tables.Delete(s.vessels, VesselsTable.Key, VesselsKeyOf(uuid, v))
      && s'.vesselsByUuid == Tables.Delete(s.vesselsByUuid, VesselsByUuidTable.Key, uuid)
      && s'.vesselsByDeparturePort == s.vesselsByDeparturePort
      && (Valid(s) ==> Valid(s'))
  {
    var batch := Batch(Values, uuid, v, true);
    BatchOfRegistry(uuid, v, true);
    ExecuteBatchPreservesValid(s, batch);
    ExecuteBatchOfTwo(s, batch[0], batch[1]);
  }

  /** `find`: a direct read of `vessels_by_uuid`. A malformed identifier
      throws; an absent one gives None. */
  function Find(s: Store, uuid: string): (r: Result<Option<Vessel>, Error>)
    ensures !IsUuidText(uuid) ==> r == Failure(MalformedUuid)
    ensures IsUuidText(uuid) ==> (r == Success(None) <==> StoredRow(s, uuid).None?)
    ensures r.Success? && r.value.Some? ==>
              && IsUuidText(uuid)
              && StoredRow(s, uuid).Some?
              && VesselsByUuidTable.ToDomainModel(StoredRow(s, uuid).value) == Success(r.value.value)
    ensures r.Failure? && IsUuidText(uuid) ==>
              && StoredRow(s, uuid).Some?
              && VesselsByUuidTable.ToDomainModel(StoredRow(s, uuid).value) == Failure(r.error)
    ensures r.Success? && r.value.Some? ==> r.value.value.uuid == uuid
    ensures Valid(s) && IsUuidText(uuid) ==> r.Success?
  {
    var id :- Uuids.FromString(uuid);
    match StoredRow(s, id)
    case None => Success(None)
    case Some(row) =>
      var v :- VesselsByUuidTable.ToDomainModel(row);
      Success(Some(v))
  }

  /** `add`: stores the vessel under a freshly generated UUID, whatever
      identifier the vessel carries. */
  function Add(s: Store, generated: Uuid, v: Vessel): (s': Store)
    ensures s'.vessels == Upsert(s.vessels, VesselsTable.Key, VesselsTable.From(generated, v))
    ensures s'.vesselsByUuid == Upsert(s.vesselsByUuid, VesselsByUuidTable.Key, VesselsByUuidTable.From(generated, v))
    ensures Find(s', generated) == Success(Some(v.(uuid := generated)))
    ensures forall k :: k != generated ==>
              Get(s'.vesselsByUuid, VesselsByUuidTable.Key, k) == Get(s.vesselsByUuid, VesselsByUuidTable.Key, k)
    ensures s'.vesselsByDeparturePort == s.vesselsByDeparturePort
    ensures Valid(s) ==> Valid(s')
  {
    VesselsByUuidTable.RoundTrip(generated, v);
    Save(s, generated, v)
  }

  /** `update`: stores the vessel under its own identifier, which must parse
      as a UUID; an absent identifier is inserted. */
  function Update(s: Store, v: Vessel): (r: Result<Store, Error>)
    ensures r.Success? <==> IsUuidText(v.uuid)
    ensures r.Failure? ==> r.error == MalformedUuid
    ensures r.Success? ==> r.value.vessels == Upsert(s.vessels, VesselsTable.Key, VesselsTable.From(v.uuid, v))
    ensures r.Success? ==>
              r.value.vesselsByUuid == Upsert(s.vesselsByUuid, VesselsByUuidTable.Key, VesselsByUuidTable.From(v.uuid, v))
    ensures r.Success? ==> Find(r.value, v.uuid) == Success(Some(v))
    ensures r.Success? ==> r.value.vesselsByDeparturePort == s.vesselsByDeparturePort
    ensures r.Success? && Valid(s) ==> Valid(r.value)
  {
    var uuid :- Uuids.FromString(v.uuid);
    VesselsByUuidTable.RoundTrip(uuid, v);
    Success(Save(s, uuid, v))
  }

  /** `remove`: reads the stored vessel and deletes the rows derived from
      that stored state; an absent vessel leaves the store as it is. */
  function Remove(s: Store, uuid: string): (r: Result<Store, Error>)
    ensures !IsUuidText(uuid) ==> r == Failure(MalformedUuid)
    ensures Find(s, uuid).Failure? ==> r == Failure(Find(s, uuid).error)
    ensures Find(s, uuid) == Success(None) ==> r == Success(s)
    ensures Find(s, uuid).Success? && Find(s, uuid).value.Some? ==>
              r == Success(Delete(s, uuid, Find(s, uuid).value.value))
    ensures r.Success? ==> Find(r.value, uuid) == Success(None)
    ensures r.Success? && Valid(s) ==> Valid(r.value)
  {
    var id :- Uuids.FromString(uuid);
    var stored :- Find(s, id);
    match stored
    case None => Success(s)
    case Some(v) => Success(Delete(s, id, v))
  }

  /** Every row drawn from a valid store's `vessels` table decodes. */
  lemma VesselsRowsDecode(s: Store, rows: seq<VesselsTable.VesselsRow>)
    requires forall r | r in rows :: r in s.vessels
    ensures Valid(s) ==> forall i | 0 <= i < |rows| :: VesselsTable.ToDomainModel(rows[i]).Success?
  {
    if Valid(s) {
      forall i | 0 <= i < |rows| ensures VesselsTable.ToDomainModel(rows[i]).Success? {
        assert VesselsTable.Consistent(rows[i]);
      }
    }
  }

  /** The selection of one `vessels` partition. */
  function InPartition(key: string): VesselsTable.VesselsRow -> bool {
    (r: VesselsTable.VesselsRow) => r.visibility == key
  }

  /** The selection of the rows a center lists. */
  function ListedBy(center: CenterReference): VesselsTable.VesselsRow -> bool {
    (r: VesselsTable.VesselsRow) => Listed(r, center)
  }

  /** The rows of one `vessels` partition. */
  function Partition(s: Store, key: string): (rows: seq<VesselsTable.VesselsRow>)
    ensures forall r :: r in rows <==> r in s.vessels && r.visibility == key
    ensures forall r: VesselsTable.VesselsRow :: r.visibility == key ==> multiset(rows)[r] == multiset(s.vessels)[r]
  {
    Filter(s.vessels, InPartition(key))
  }

  /** The rows `findAll` reads: `visibility IN ('_ALL', center)`, a repeated
      partition being read once. */
  function FindAllRows(s: Store, center: CenterReference): (rows: seq<VesselsTable.VesselsRow>)
    ensures forall r :: r in rows <==> r in s.vessels && Listed(r, center)
    ensures multiset(rows) == multiset(Filter(s.vessels, ListedBy(center)))
  {
    var global := Partition(s, VesselsTable.GLOBAL_VISIBILITY_KEY);
    if center.uuid == VesselsTable.GLOBAL_VISIBILITY_KEY then
      FilterSamePredicate(s.vessels, InPartition(VesselsTable.GLOBAL_VISIBILITY_KEY), ListedBy(center));
      global
    else
      FilterDisjointUnion(s.vessels, InPartition(VesselsTable.GLOBAL_VISIBILITY_KEY),
                          InPartition(center.uuid), ListedBy(center));
      global + Partition(s, center.uuid)
  }

  /** `findAll`: every vessel the center may list, one per row read. */
  function FindAll(s: Store, center: CenterReference): (r: Result<seq<Vessel>, Error>)
    ensures r.Success? ==> forall v :: v in r.value <==>
              exists row :: row in s.vessels && Listed(row, center) && VesselsTable.ToDomainModel(row) == Success(v)
    ensures r.Success? ==> |r.value| == |FindAllRows(s, center)|
    ensures Valid(s) ==> r.Success?
  {
    var rows := FindAllRows(s, center);
    VesselsRowsDecode(s, rows);
    MapResult(rows, VesselsTable.ToDomainModel)
  }

  /** The substring test the name index answers. */
  predicate ContainsFragment(name: string, fragment: string)
    decreases |name|
  {
    fragment <= name || (name != [] && ContainsFragment(name[1..], fragment))
  }

  /** The private `findByNameFragment(visibility, fragment)`: one partition,
      rows whose name contains the fragment. */
  function NameFragmentRows(s: Store, key: string, fragment: string): (rows: seq<VesselsTable.VesselsRow>)
    ensures forall r :: r in rows <==> r in s.vessels && r.visibility == key && ContainsFragment(r.name, fragment)
  {
    Filter(Partition(s, key), (r: VesselsTable.VesselsRow) => ContainsFragment(r.name, fragment))
  }

  /** `findByNameFragment`: the global partition's matches, then the center's. */
  function FindByNameFragment(s: Store, center: CenterReference, fragment: string): (r: Result<seq<Vessel>, Error>)
    ensures r.Success? ==> forall v :: v in r.value <==>
              exists row :: row in s.vessels && Listed(row, center) && ContainsFragment(row.name, fragment)
                            && VesselsTable.ToDomainModel(row) == Success(v)
    ensures r.Success? ==>
              |r.value| == |NameFragmentRows(s, VesselsTable.GLOBAL_VISIBILITY_KEY, fragment)|
                           + |NameFragmentRows(s, center.uuid, fragment)|
    ensures r.Success? ==>
              var g := MapResult(NameFragmentRows(s, VesselsTable.GLOBAL_VISIBILITY_KEY, fragment), VesselsTable.ToDomainModel);
              var h := MapResult(NameFragmentRows(s, center.uuid, fragment), VesselsTable.ToDomainModel);
              g.Success? && h.Success? && r.value == g.value + h.value
    ensures Valid(s) ==> r.Success?
  {
    var rows := NameFragmentRows(s, VesselsTable.GLOBAL_VISIBILITY_KEY, fragment)
                + NameFragmentRows(s, center.uuid, fragment);
    assert forall row :: row in rows <==>
             row in s.vessels && Listed(row, center) && ContainsFragment(row.name, fragment);
    VesselsRowsDecode(s, rows);
    MapResultSplit(NameFragmentRows(s, VesselsTable.GLOBAL_VISIBILITY_KEY, fragment),
                   NameFragmentRows(s, center.uuid, fragment), VesselsTable.ToDomainModel);
    MapResult(rows, VesselsTable.ToDomainModel)
  }

  /** The private `findByCategory(visibility, category)`: one partition of the
      category view, rows of that category. */
  function CategoryRows(s: Store, key: string, category: VesselCategoryReference): (rows: seq<VesselsTable.VesselsRow>)
    ensures forall r :: r in rows <==> r in s.vessels && r.visibility == key && r.category == category.uuid
  {
    Filter(Partition(s, key), (r: VesselsTable.VesselsRow) => r.category == category.uuid)
  }

  /** `findByCategory`: the global partition's matches, then the center's. */
  function FindByCategory(s: Store, center: CenterReference, category: VesselCategoryReference): (r: Result<seq<Vessel>, Error>)
    ensures r.Success? ==> forall v :: v in r.value <==>
              exists row :: row in s.vessels && Listed(row, center) && row.category == category.uuid
                            && VesselsTable.ToDomainModel(row) == Success(v)
    ensures r.Success? ==>
              |r.value| == |CategoryRows(s, VesselsTable.GLOBAL_VISIBILITY_KEY, category)|
                           + |CategoryRows(s, center.uuid, category)|
    ensures r.Success? ==>
              var g := MapResult(CategoryRows(s, VesselsTable.GLOBAL_VISIBILITY_KEY, category), VesselsTable.ToDomainModel);
              var h := MapResult(CategoryRows(s, center.uuid, category), VesselsTable.ToDomainModel);
              g.Success? && h.Success? && r.value == g.value + h.value
    ensures Valid(s) ==> r.Success?
    ensures Valid(s) ==> forall v | v in r.value :: v.category == category
  {
    var rows := CategoryRows(s, VesselsTable.GLOBAL_VISIBILITY_KEY, category)
                + CategoryRows(s, center.uuid, category);
    assert forall row :: row in rows <==>
             row in s.vessels && Listed(row, center) && row.category == category.uuid;
    VesselsRowsDecode(s, rows);
    CategoryOfDecodedRow(s, rows, category);
    MapResultSplit(CategoryRows(s, VesselsTable.GLOBAL_VISIBILITY_KEY, category),
                   CategoryRows(s, center.uuid, category), VesselsTable.ToDomainModel);
    MapResult(rows, VesselsTable.ToDomainModel)
  }

  /** In a valid store, a row of the category decodes to a vessel of that category. */
  lemma CategoryOfDecodedRow(s: Store, rows: seq<VesselsTable.VesselsRow>, category: VesselCategoryReference)
    requires forall r | r in rows :: r in s.vessels && r.category == category.uuid
    ensures Valid(s) ==> forall r | r in rows :: VesselsTable.ToDomainModel(r).Success?
                                                 && VesselsTable.ToDomainModel(r).value.category == category
  {
    if Valid(s) {
      forall r | r in rows
        ensures VesselsTable.ToDomainModel(r).Success? && VesselsTable.ToDomainModel(r).value.category == category
      {
        assert VesselsTable.Consistent(r);
      }
    }
  }

  /** Every row drawn from a valid store's `vessels_by_departure_port` table
      decodes, to a vessel whose last departure is the row's. */
  lemma ByPortRowsDecode(s: Store, rows: seq<VesselsByDeparturePortTable.ByPortRow>)
    requires forall r | r in rows :: r in s.vesselsByDeparturePort
    ensures Valid(s) ==> forall i | 0 <= i < |rows| ::
              && VesselsByDeparturePortTable.ToDomainModel(rows[i]).Success?
              && VesselsByDeparturePortTable.ToDomainModel(rows[i]).value.lastDeparture
                 == Some(VesselDeparture(PortReference(rows[i].lastDeparturePort), rows[i].lastDepartureTime))
  {
    if Valid(s) {
      forall i | 0 <= i < |rows|
        ensures && VesselsByDeparturePortTable.ToDomainModel(rows[i]).Success?
                && VesselsByDeparturePortTable.ToDomainModel(rows[i]).value.lastDeparture
                   == Some(VesselDeparture(PortReference(rows[i].lastDeparturePort), rows[i].lastDepartureTime))
      {
        assert VesselsByDeparturePortTable.Consistent(rows[i]);
      }
    }
  }

  /** The rows `findByDeparturePort` reads: the port's partition of
      `vessels_by_departure_port`, restricted to departures after `since`. */
  function DeparturePortRows(s: Store, port: PortReference, since: int): (rows: seq<VesselsByDeparturePortTable.ByPortRow>)
    ensures forall r :: r in rows <==>
              r in s.vesselsByDeparturePort && r.lastDeparturePort == port.uuid && r.lastDepartureTime > since
    ensures forall r: VesselsByDeparturePortTable.ByPortRow | r.lastDeparturePort == port.uuid && r.lastDepartureTime > since ::
              multiset(rows)[r] == multiset(s.vesselsByDeparturePort)[r]
  {
    Filter(s.vesselsByDeparturePort,
           (r: VesselsByDeparturePortTable.ByPortRow) => r.lastDeparturePort == port.uuid && r.lastDepartureTime > since)
  }

  /** `findByDeparturePort`: one partition of `vessels_by_departure_port`,
      rows that departed strictly after `now - DEPARTURE_RANGE`. */
  function FindByDeparturePort(s: Store, port: PortReference, now: int): (r: Result<seq<Vessel>, Error>)
    ensures r.Success? ==> forall v :: v in r.value <==>
              exists row :: row in s.vesselsByDeparturePort && row.lastDeparturePort == port.uuid
                            && row.lastDepartureTime > now - DEPARTURE_RANGE
                            && VesselsByDeparturePortTable.ToDomainModel(row) == Success(v)
    ensures r.Success? ==> |r.value| == |DeparturePortRows(s, port, now - DEPARTURE_RANGE)|
    ensures Valid(s) ==> r.Success?
    ensures Valid(s) ==> forall v | v in r.value ::
              && v.lastDeparture.Some?
              && v.lastDeparture.value.departurePort == port
              && v.lastDeparture.value.departureTime > now - DEPARTURE_RANGE
  {
    var rows := DeparturePortRows(s, port, now - DEPARTURE_RANGE);
    ByPortRowsDecode(s, rows);
    MapResult(rows, VesselsByDeparturePortTable.ToDomainModel)
  }
}

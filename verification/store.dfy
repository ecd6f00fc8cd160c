/** The backing store as the service sees it: the three tables, and the
    batches of save and delete queries the service submits. A batch is
    applied as one sequential update of the tables. */
module Store {
  import opened Wrappers
  import opened Uuids
  import opened Tables
  import VesselsTable
  import VesselsByUuidTable
  import VesselsByDeparturePortTable

  /** A row of one of the tables, as handed to the object mapper. */
  datatype Entity =
    | VesselsEntity(vesselsRow: VesselsTable.VesselsRow)
    | ByUuidEntity(byUuidRow: VesselsByUuidTable.ByUuidRow)
    | ByPortEntity(byPortRow: VesselsByDeparturePortTable.ByPortRow)

  /** `mapper.saveQuery(entity)` and `mapper.deleteQuery(entity)`. */
  datatype Query = SaveQuery(entity: Entity) | DeleteQuery(entity: Entity)

  datatype Store = Store(
    vessels: seq<VesselsTable.VesselsRow>,
    vesselsByUuid: seq<VesselsByUuidTable.ByUuidRow>,
    vesselsByDeparturePort: seq<VesselsByDeparturePortTable.ByPortRow>)

  const Empty: Store := Store([], [], [])

  /** One query: it touches only the table its entity belongs to. */
  function Execute(s: Store, q: Query): (s': Store)
    ensures !q.entity.VesselsEntity? ==> s'.vessels == s.vessels
    ensures !q.entity.ByUuidEntity? ==> s'.vesselsByUuid == s.vesselsByUuid
    ensures !q.entity.ByPortEntity? ==> s'.vesselsByDeparturePort == s.vesselsByDeparturePort
    ensures q.entity.VesselsEntity? ==> (s'.vessels ==
              if q.SaveQuery? then Upsert(s.vessels, VesselsTable.Key, q.entity.vesselsRow)
              else Delete(s.vessels, VesselsTable.Key, VesselsTable.Key(q.entity.vesselsRow)))
    ensures q.entity.ByUuidEntity? ==> (s'.vesselsByUuid ==
              if q.SaveQuery? then Upsert(s.vesselsByUuid, VesselsByUuidTable.Key, q.entity.byUuidRow)
              else Delete(s.vesselsByUuid, VesselsByUuidTable.Key, VesselsByUuidTable.Key(q.entity.byUuidRow)))
    ensures q.entity.ByPortEntity? ==> (s'.vesselsByDeparturePort ==
              if q.SaveQuery? then Upsert(s.vesselsByDeparturePort, VesselsByDeparturePortTable.Key, q.entity.byPortRow)
              else Delete(s.vesselsByDeparturePort, VesselsByDeparturePortTable.Key, VesselsByDeparturePortTable.Key(q.entity.byPortRow)))
    ensures q.SaveQuery? && q.entity.VesselsEntity? ==>
              Get(s'.vessels, VesselsTable.Key, VesselsTable.Key(q.entity.vesselsRow)) == Some(q.entity.vesselsRow)
    ensures q.DeleteQuery? && q.entity.VesselsEntity? ==>
              Get(s'.vessels, VesselsTable.Key, VesselsTable.Key(q.entity.vesselsRow)) == None
    ensures q.SaveQuery? && q.entity.ByUuidEntity? ==>
              Get(s'.vesselsByUuid, VesselsByUuidTable.Key, q.entity.byUuidRow.uuid) == Some(q.entity.byUuidRow)
    ensures q.DeleteQuery? && q.entity.ByUuidEntity? ==>
              Get(s'.vesselsByUuid, VesselsByUuidTable.Key, q.entity.byUuidRow.uuid) == None
  {
    match q.entity
    case VesselsEntity(r) =>
      s.(vessels :=
        if q.SaveQuery? then Upsert(s.vessels, VesselsTable.Key, r)
        else Delete(s.vessels, VesselsTable.Key, VesselsTable.Key(r)))
    case ByUuidEntity(r) =>
      s.(vesselsByUuid :=
        if q.SaveQuery? then Upsert(s.vesselsByUuid, VesselsByUuidTable.Key, r)
        else Delete(s.vesselsByUuid, VesselsByUuidTable.Key, VesselsByUuidTable.Key(r)))
    case ByPortEntity(r) =>
      s.(vesselsByDeparturePort :=
        if q.SaveQuery? then Upsert(s.vesselsByDeparturePort, VesselsByDeparturePortTable.Key, r)
        else Delete(s.vesselsByDeparturePort, VesselsByDeparturePortTable.Key, VesselsByDeparturePortTable.Key(r)))
  }

  /** `session.execute(batch)`: the queries in order. */
  function ExecuteBatch(s: Store, batch: seq<Query>): (s': Store)
    ensures (forall i | 0 <= i < |batch| :: !batch[i].entity.VesselsEntity?) ==> s'.vessels == s.vessels
    ensures (forall i | 0 <= i < |batch| :: !batch[i].entity.ByUuidEntity?) ==> s'.vesselsByUuid == s.vesselsByUuid
    ensures (forall i | 0 <= i < |batch| :: !batch[i].entity.ByPortEntity?) ==>
              s'.vesselsByDeparturePort == s.vesselsByDeparturePort
    decreases |batch|
  {
    if batch == [] then s else ExecuteBatch(Execute(s, batch[0]), batch[1..])
  }

  /** The entity is a row as the mapping classes derive it. */
  predicate EntityConsistent(e: Entity) {
    match e
    case VesselsEntity(r) => VesselsTable.Consistent(r)
    case ByUuidEntity(r) => VesselsByUuidTable.Consistent(r)
    case ByPortEntity(r) => VesselsByDeparturePortTable.Consistent(r)
  }

  /** What every store built by the service satisfies: one row per primary
      key in each table, and every row consistent. */
  predicate Valid(s: Store) {
    && UniqueKeys(s.vessels, VesselsTable.Key)
    && UniqueKeys(s.vesselsByUuid, VesselsByUuidTable.Key)
    && UniqueKeys(s.vesselsByDeparturePort, VesselsByDeparturePortTable.Key)
    && (forall r | r in s.vessels :: VesselsTable.Consistent(r))
    && (forall r | r in s.vesselsByUuid :: VesselsByUuidTable.Consistent(r))
    && (forall r | r in s.vesselsByDeparturePort :: VesselsByDeparturePortTable.Consistent(r))
  }

  /** The `vessels_by_uuid` row stored under `id`, if any. */
  function StoredRow(s: Store, id: Uuid): Option<VesselsByUuidTable.ByUuidRow> {
    Get(s.vesselsByUuid, VesselsByUuidTable.Key, id)
  }

  /** Saving a consistent entity, or deleting anything, keeps a store valid. */
  lemma ExecutePreservesValid(s: Store, q: Query)
    requires q.SaveQuery? ==> EntityConsistent(q.entity)
    ensures Valid(s) ==> Valid(Execute(s, q))
  {
  }

  lemma {:induction false} ExecuteBatchPreservesValid(s: Store, batch: seq<Query>)
    requires forall i :: 0 <= i < |batch| && batch[i].SaveQuery? ==> EntityConsistent(batch[i].entity)
    ensures Valid(s) ==> Valid(ExecuteBatch(s, batch))
    decreases |batch|
  {
    if batch != [] {
      ExecutePreservesValid(s, batch[0]);
      ExecuteBatchPreservesValid(Execute(s, batch[0]), batch[1..]);
    }
  }

  /** A batch of two queries runs the first, then the second. */
  lemma ExecuteBatchOfTwo(s: Store, a: Query, b: Query)
    ensures ExecuteBatch(s, [a, b]) == Execute(Execute(s, a), b)
  {
    assert [a, b][0] == a && [a, b][1..] == [b];
    assert [b][0] == b && [b][1..] == [];
    assert ExecuteBatch(Execute(s, a), [b]) == ExecuteBatch(Execute(Execute(s, a), b), []);
  }
}

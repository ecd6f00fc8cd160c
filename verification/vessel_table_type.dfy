/** `VesselTableType`: the registry of tables a vessel is written to and
    deleted from. It lists `vessels` and `vessels_by_uuid` only; no entry
    produces a `vessels_by_departure_port` row. */
module VesselTableType {
  import opened Uuids
  import opened Vessels
  import opened Store
  import VesselsTable
  import VesselsByUuidTable

  datatype TableType = VESSELS | VESSELS_BY_UUID

  /** `VesselTableType.values()`, in declaration order. */
  const Values: seq<TableType> := [VESSELS, VESSELS_BY_UUID]

  /** `isRelevant`: no entry overrides the default, which accepts every vessel. */
  predicate IsRelevant(t: TableType, v: Vessel): (relevant: bool)
    ensures relevant
  {
    true
  }

  /** `getEntity`: the row the entry's mapping class derives. */
  function GetEntity(t: TableType, uuid: Uuid, v: Vessel): (e: Entity)
    ensures !e.ByPortEntity?
    ensures e.VesselsEntity? <==> t == VESSELS
    ensures e.VesselsEntity? ==> e.vesselsRow == VesselsTable.From(uuid, v)
    ensures e.ByUuidEntity? ==> e.byUuidRow == VesselsByUuidTable.From(uuid, v)
    ensures EntityConsistent(e)
  {
    match t
    case VESSELS =>
      VesselsTable.FromIsConsistent(uuid, v);
      VesselsEntity(VesselsTable.From(uuid, v))
    case VESSELS_BY_UUID =>
      VesselsByUuidTable.FromIsConsistent(uuid, v);
      ByUuidEntity(VesselsByUuidTable.From(uuid, v))
  }

  /** The query an entry contributes to a write or a delete batch. */
  function QueryFor(t: TableType, uuid: Uuid, v: Vessel, deleting: bool): Query {
    var e := GetEntity(t, uuid, v);
    if deleting then DeleteQuery(e) else SaveQuery(e)
  }

  /** What the batch over `tables` holds: at most one query per entry, one
      per entry in order when every entry is relevant, and every query of the
      requested kind over an entity that is not a departure-port row. */
  ghost predicate BatchSpec(tables: seq<TableType>, uuid: Uuid, v: Vessel, deleting: bool, batch: seq<Query>) {
    && |batch| <= |tables|
    && ((forall t | t in tables :: IsRelevant(t, v)) ==>
          && |batch| == |tables|
          && forall i :: 0 <= i < |tables| ==> batch[i].entity == GetEntity(tables[i], uuid, v))
    && forall q | q in batch :: q.DeleteQuery? == deleting && !q.entity.ByPortEntity?
  }

  /** The loop shared by `save` and `delete`: for each registry entry, in
      order, a save (or delete) query of its entity when it is relevant. */
  function Batch(tables: seq<TableType>, uuid: Uuid, v: Vessel, deleting: bool): (batch: seq<Query>)
    ensures |batch| <= |tables|
    ensures (forall t | t in tables :: IsRelevant(t, v)) ==>
              |batch| == |tables| &&
              forall i :: 0 <= i < |tables| ==> batch[i].entity == GetEntity(tables[i], uuid, v)
    ensures forall q | q in batch :: q.DeleteQuery? == deleting && !q.entity.ByPortEntity?
  {
    if tables == [] then []
    else
      var rest := Batch(tables[1..], uuid, v, deleting);
      BatchStep(tables, uuid, v, deleting, rest);
      if IsRelevant(tables[0], v) then [QueryFor(tables[0], uuid, v, deleting)] + rest else rest
  }

  /** One iteration of the loop. */
  lemma BatchStep(tables: seq<TableType>, uuid: Uuid, v: Vessel, deleting: bool, rest: seq<Query>)
    requires tables != []
    requires BatchSpec(tables[1..], uuid, v, deleting, rest)
    ensures BatchSpec(tables, uuid, v, deleting,
                      if IsRelevant(tables[0], v) then [QueryFor(tables[0], uuid, v, deleting)] + rest else rest)
  {
    var q := QueryFor(tables[0], uuid, v, deleting);
    assert IsRelevant(tables[0], v);
    BatchStepKinds(q, rest, deleting);
    BatchStepEntities(tables, uuid, v, deleting, rest);
  }

  /** Putting the entry's query in front keeps every query of the requested kind. */
  lemma BatchStepKinds(q: Query, rest: seq<Query>, deleting: bool)
    requires q.DeleteQuery? == deleting && !q.entity.ByPortEntity?
    requires forall x | x in rest :: x.DeleteQuery? == deleting && !x.entity.ByPortEntity?
    ensures forall x | x in [q] + rest :: x.DeleteQuery? == deleting && !x.entity.ByPortEntity?
  {
  }

  /** Putting the entry's query in front lines the entities up with the entries. */
  lemma BatchStepEntities(tables: seq<TableType>, uuid: Uuid, v: Vessel, deleting: bool, rest: seq<Query>)
    requires tables != []
    requires |rest| == |tables| - 1
    requires forall i :: 0 <= i < |tables| - 1 ==> rest[i].entity == GetEntity(tables[1..][i], uuid, v)
    ensures var b := [QueryFor(tables[0], uuid, v, deleting)] + rest;
      forall i :: 0 <= i < |tables| ==> b[i].entity == GetEntity(tables[i], uuid, v)
  {
    var b := [QueryFor(tables[0], uuid, v, deleting)] + rest;
    forall i | 0 <= i < |tables| ensures b[i].entity == GetEntity(tables[i], uuid, v) {
      if i > 0 {
        assert b[i] == rest[i - 1];
        assert tables[i] == tables[1..][i - 1];
      }
    }
  }

  /** The registry fans a vessel out to exactly its `vessels` row and its
      `vessels_by_uuid` row, in that order. */
  lemma {:induction false} BatchOfRegistry(uuid: Uuid, v: Vessel, deleting: bool)
    ensures Batch(Values, uuid, v, deleting) ==
              if deleting then
                [DeleteQuery(VesselsEntity(VesselsTable.From(uuid, v))),
                 DeleteQuery(ByUuidEntity(VesselsByUuidTable.From(uuid, v)))]
              else
                [SaveQuery(VesselsEntity(VesselsTable.From(uuid, v))),
                 SaveQuery(ByUuidEntity(VesselsByUuidTable.From(uuid, v)))]
  {
    var b := Batch(Values, uuid, v, deleting);
    assert |b| == 2;
    assert b[0].entity == GetEntity(VESSELS, uuid, v);
    assert b[1].entity == GetEntity(VESSELS_BY_UUID, uuid, v);
  }
}

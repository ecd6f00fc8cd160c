/** `VesselsByUuidTable`, the `vessels_by_uuid` table: one row per vessel,
    partitioned by its UUID. It serves direct lookups. */
module VesselsByUuidTable {
  import opened Wrappers
  import opened Errors
  import opened Uuids
  import opened Vessels
  import Udt

  /** Java's `equals` compares the UUID and the vessel: Dafny's datatype equality. */
  datatype ByUuidRow = ByUuidRow(uuid: Uuid, vessel: Udt.VesselUdt)

  function Key(r: ByUuidRow): Uuid {
    r.uuid
  }

  /** `VesselsByUuidTable.from`. */
  function From(uuid: Uuid, v: Vessel): (r: ByUuidRow)
    ensures Key(r) == uuid
    ensures r.vessel == Udt.From(v)
  {
    ByUuidRow(uuid, Udt.From(v))
  }

  /** `VesselsByUuidTable.toDomainModel`. */
  function ToDomainModel(r: ByUuidRow): (res: Result<Vessel, Error>)
    ensures res.Success? <==> Udt.Complete(r.vessel)
    ensures res.Success? ==> res.value.uuid == r.uuid
    ensures res.Success? ==> Udt.From(res.value) == r.vessel.(visibility := Some(r.vessel.visibility.GetOr(CREATION_CENTER_ONLY)))
  {
    Udt.ToDomainModel(r.vessel, r.uuid)
  }

  /** See `VesselsTable.Consistent`. */
  predicate Consistent(r: ByUuidRow) {
    ToDomainModel(r).Success? && From(r.uuid, ToDomainModel(r).value) == r
  }

  /** Deriving a row and decoding it gives the vessel back, under the row's UUID. */
  lemma RoundTrip(uuid: Uuid, v: Vessel)
    ensures ToDomainModel(From(uuid, v)) == Success(v.(uuid := uuid))
  {
    Udt.RoundTrip(v, uuid);
  }

  lemma FromIsConsistent(uuid: Uuid, v: Vessel)
    ensures Consistent(From(uuid, v))
  {
    RoundTrip(uuid, v);
    Udt.FromIgnoresUuid(v, uuid);
  }
}

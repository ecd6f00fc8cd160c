/** `VesselsTable`, the `vessels` table: vessels partitioned by who may list
    them. The partition key (column `visibility`) is the global key `_ALL`
    for a vessel visible to all centers and the creation center's identifier
    otherwise; the clustering key is the vessel's UUID. The `name` and
    `category` columns are copies that the name index and the category view
    are built on. */
module VesselsTable {
  import opened Wrappers
  import opened Errors
  import opened Uuids
  import opened References
  import opened Vessels
  import Udt

  /** `getGlobalVisibilityKey`. */
  const GLOBAL_VISIBILITY_KEY: string := "_ALL"

  /** The partition a vessel's row lives in. A center whose identifier is the
      text `_ALL` shares its partition with the vessels visible to all. */
  function PartitionKey(visibility: Visibility, creationCenter: CenterReference): (key: string)
    ensures visibility == CREATION_CENTER_ONLY ==> key == creationCenter.uuid
    ensures key == GLOBAL_VISIBILITY_KEY <==>
              visibility == ALL_CENTERS || creationCenter.uuid == GLOBAL_VISIBILITY_KEY
  {
    match visibility
    case ALL_CENTERS => GLOBAL_VISIBILITY_KEY
    case CREATION_CENTER_ONLY => creationCenter.uuid
  }

  /** Primary key: partition key, then clustering key. */
  datatype VesselsKey = VesselsKey(visibility: string, uuid: Uuid)

  /** Java's `equals` compares all five columns: Dafny's datatype equality. */
  datatype VesselsRow = VesselsRow(
    visibility: string,
    uuid: Uuid,
    vessel: Udt.VesselUdt,
    name: string,
    category: string)

  function Key(r: VesselsRow): VesselsKey {
    VesselsKey(r.visibility, r.uuid)
  }

  /** `VesselsTable.from`. */
  function From(uuid: Uuid, v: Vessel): (r: VesselsRow)
    ensures Key(r) == VesselsKey(PartitionKey(v.visibility, v.creationCenter), uuid)
    ensures r.name == v.name && r.category == v.category.uuid
    ensures r.vessel == Udt.From(v)
  {
    VesselsRow(PartitionKey(v.visibility, v.creationCenter), uuid, Udt.From(v), v.name, v.category.uuid)
  }

  /** `VesselsTable.toDomainModel`: decodes the embedded vessel under the row's UUID. */
  function ToDomainModel(r: VesselsRow): (res: Result<Vessel, Error>)
    ensures res.Success? <==> Udt.Complete(r.vessel)
    ensures res.Success? ==> res.value.uuid == r.uuid
    ensures res.Success? ==> Udt.From(res.value) == r.vessel.(visibility := Some(r.vessel.visibility.GetOr(CREATION_CENTER_ONLY)))
  {
    Udt.ToDomainModel(r.vessel, r.uuid)
  }

  /** A row is consistent when it is exactly the row `from` derives from the
      vessel it decodes to; every row the service writes is. */
  predicate Consistent(r: VesselsRow) {
    ToDomainModel(r).Success? && From(r.uuid, ToDomainModel(r).value) == r
  }

  /** Deriving a row and decoding it gives the vessel back, under the row's UUID. */
  lemma RoundTrip(uuid: Uuid, v: Vessel)
    ensures ToDomainModel(From(uuid, v)) == Success(v.(uuid := uuid))
  {
    Udt.RoundTrip(v, uuid);
  }

  /** The row does not depend on the vessel's own identifier, only on the one supplied. */
  lemma FromIgnoresVesselUuid(uuid: Uuid, v: Vessel, other: string)
    ensures From(uuid, v.(uuid := other)) == From(uuid, v)
  {
    Udt.FromIgnoresUuid(v, other);
  }

  /** Every derived row is consistent. */
  lemma FromIsConsistent(uuid: Uuid, v: Vessel)
    ensures Consistent(From(uuid, v))
  {
    RoundTrip(uuid, v);
    FromIgnoresVesselUuid(uuid, v, uuid);
  }

  /** A consistent row lives in the partition of the vessel it decodes to. */
  lemma ConsistentPartition(r: VesselsRow)
    requires Consistent(r)
    ensures r.visibility == PartitionKey(ToDomainModel(r).value.visibility, ToDomainModel(r).value.creationCenter)
  {
  }
}

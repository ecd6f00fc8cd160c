/** `VesselsByDeparturePortTable`, the `vessels_by_departure_port` table:
    vessels partitioned by the port they last left, clustered by departure
    time and then UUID. Only vessels with a last departure have a row. */
module VesselsByDeparturePortTable {
  import opened Wrappers
  import opened Errors
  import opened Uuids
  import opened Departures
  import opened Vessels
  import Udt

  /** Primary key: partition key, then the two clustering keys in order. */
  datatype ByPortKey = ByPortKey(lastDeparturePort: string, lastDepartureTime: Time, uuid: Uuid)

  /** Java's `equals` compares all four columns: Dafny's datatype equality. */
  datatype ByPortRow = ByPortRow(
    lastDeparturePort: string,
    lastDepartureTime: Time,
    uuid: Uuid,
    vessel: Udt.VesselUdt)

  function Key(r: ByPortRow): ByPortKey {
    ByPortKey(r.lastDeparturePort, r.lastDepartureTime, r.uuid)
  }

  /** `VesselsByDeparturePortTable.from`: rejects a vessel without a last departure. */
  function From(uuid: Uuid, v: Vessel): (r: Result<ByPortRow, Error>)
    ensures r.Failure? <==> v.lastDeparture.None?
    ensures r.Failure? ==> r.error == LastDepartureMandatory
    ensures r.Success? ==>
              Key(r.value) == ByPortKey(v.lastDeparture.value.departurePort.uuid,
                                        v.lastDeparture.value.departureTime, uuid)
    ensures r.Success? ==> r.value.vessel == Udt.From(v)
  {
    if v.lastDeparture.None? then Failure(LastDepartureMandatory)
    else
      var d := v.lastDeparture.value;
      Success(ByPortRow(d.departurePort.uuid, d.departureTime, uuid, Udt.From(v)))
  }

  /** `VesselsByDeparturePortTable.toDomainModel`. */
  function ToDomainModel(r: ByPortRow): (res: Result<Vessel, Error>)
    ensures res.Success? <==> Udt.Complete(r.vessel)
    ensures res.Success? ==> res.value.uuid == r.uuid
    ensures res.Success? ==> Udt.From(res.value) == r.vessel.(visibility := Some(r.vessel.visibility.GetOr(CREATION_CENTER_ONLY)))
  {
    Udt.ToDomainModel(r.vessel, r.uuid)
  }

  /** See `VesselsTable.Consistent`. */
  predicate Consistent(r: ByPortRow) {
    ToDomainModel(r).Success? && From(r.uuid, ToDomainModel(r).value) == Success(r)
  }

  /** Deriving a row and decoding it gives the vessel back, under the row's UUID. */
  lemma RoundTrip(uuid: Uuid, v: Vessel)
    requires v.lastDeparture.Some?
    ensures From(uuid, v).Success?
    ensures ToDomainModel(From(uuid, v).value) == Success(v.(uuid := uuid))
  {
    Udt.RoundTrip(v, uuid);
  }
}

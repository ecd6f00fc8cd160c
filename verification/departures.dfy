/** `VesselDeparture`: the port a vessel last left and when. */
module Departures {
  import opened Wrappers
  import opened Errors
  import opened References

  /** An instant, in milliseconds since the epoch. */
  type Time = int

  datatype VesselDeparture = VesselDeparture(departurePort: PortReference, departureTime: Time)

  /** `VesselDeparture.of`: the port is checked before the time. */
  function Of(port: Option<PortReference>, time: Option<Time>): (r: Result<VesselDeparture, Error>)
    ensures port.None? ==> r == Failure(DeparturePortMandatory)
    ensures port.Some? && time.None? ==> r == Failure(DepartureTimeMandatory)
    ensures r.Success? <==> port.Some? && time.Some?
    ensures r.Success? ==> r.value.departurePort == port.value && r.value.departureTime == time.value
  {
    var p :- port.ToResult(DeparturePortMandatory);
    var t :- time.ToResult(DepartureTimeMandatory);
    Success(VesselDeparture(p, t))
  }
}

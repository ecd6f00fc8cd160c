/** The exceptions the vessel code can raise, one constructor per cause. */
module Errors {

  datatype Error =
    /** `Vessel.Builder.build`: a mandatory field was never set. */
    | NameMandatory
    | CategoryMandatory
    | CreationCenterMandatory
    /** `CenterReference.of`, `PortReference.of`, `VesselCategoryReference.of` given null. */
    | UuidMandatory
    /** `VesselDeparture.of` given a null port or a null time. */
    | DeparturePortMandatory
    | DepartureTimeMandatory
    /** `VesselUdt.toDomainModel` converting a null departure time (a NullPointerException). */
    | NullDepartureTime
    /** `VesselsByDeparturePortTable.from` given a vessel without a last departure. */
    | LastDepartureMandatory
    /** `UUID.fromString` given text that is not a UUID. */
    | MalformedUuid
}

/** `CenterReference`, `PortReference` and `VesselCategoryReference`: each wraps
    the text identifier of an entity held elsewhere, and each `of` factory
    rejects null. */
module References {
  import opened Wrappers
  import opened Errors

  datatype CenterReference = CenterReference(uuid: string)

  datatype PortReference = PortReference(uuid: string)

  datatype VesselCategoryReference = VesselCategoryReference(uuid: string)

  /** `CenterReference.of`. */
  function CenterOf(uuid: Option<string>): (r: Result<CenterReference, Error>)
    ensures r.Failure? <==> uuid.None?
    ensures r.Failure? ==> r.error == UuidMandatory
    ensures r.Success? ==> r.value.uuid == uuid.value
  {
    var u :- uuid.ToResult(UuidMandatory);
    Success(CenterReference(u))
  }

  /** `PortReference.of`. */
  function PortOf(uuid: Option<string>): (r: Result<PortReference, Error>)
    ensures r.Failure? <==> uuid.None?
    ensures r.Failure? ==> r.error == UuidMandatory
    ensures r.Success? ==> r.value.uuid == uuid.value
  {
    var u :- uuid.ToResult(UuidMandatory);
    Success(PortReference(u))
  }

  /** `VesselCategoryReference.of`. */
  function CategoryOf(uuid: Option<string>): (r: Result<VesselCategoryReference, Error>)
    ensures r.Failure? <==> uuid.None?
    ensures r.Failure? ==> r.error == UuidMandatory
    ensures r.Success? ==> r.value.uuid == uuid.value
  {
    var u :- uuid.ToResult(UuidMandatory);
    Success(VesselCategoryReference(u))
  }

  /** Two references of the same kind are equal exactly when their identifiers are. */
  lemma ReferenceEquality(a: string, b: string)
    ensures CenterOf(Some(a)) == CenterOf(Some(b)) <==> a == b
    ensures PortOf(Some(a)) == PortOf(Some(b)) <==> a == b
    ensures CategoryOf(Some(a)) == CategoryOf(Some(b)) <==> a == b
  {
  }
}

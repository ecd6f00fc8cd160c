/** `java.util.UUID` as the service uses it: parsed from a vessel's text
    identifier and printed back with `toString`. */
module Uuids {
  import opened Wrappers
  import opened Errors

  const HEX_DIGITS: string := "0123456789abcdef"

  /** The text `UUID.toString` produces: 36 characters, lower-case hexadecimal
      digits in groups of 8, 4, 4, 4 and 12 separated by hyphens. */
  predicate IsUuidText(s: string) {
    |s| == 36 &&
    forall i | 0 <= i < 36 ::
      if i == 8 || i == 13 || i == 18 || i == 23 then s[i] == '-' else s[i] in HEX_DIGITS
  }

  /** A UUID, identified with its canonical text, so `toString` is the identity. */
  type Uuid = s: string | IsUuidText(s) witness "00000000-0000-0000-0000-000000000000"

  /** `UUID.fromString`: accepts canonical text and throws on anything else. */
  function FromString(s: string): (r: Result<Uuid, Error>)
    ensures r.Success? <==> IsUuidText(s)
    ensures r.Success? ==> r.value == s
    ensures r.Failure? ==> r.error == MalformedUuid
  {
    if IsUuidText(s) then Success(s) else Failure(MalformedUuid)
  }
}

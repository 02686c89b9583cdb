/**
 * `Data.IsValid`: a license is usable when its metadata is present, the current
 * time lies within its activation window and it carries a payload. The checks run
 * in that order and the first that fails decides the error. `now` stands for
 * `time.Now()`.
 */
module Validator {
  import opened Wrappers
  import opened LicenseData

  const MetadataNotDefined := "license metadata not defined"
  const NotYetActivated := "license has not yet activated due to time constraint"
  const Expired := "license has expired due to time constraint"
  const PayloadNotDefined := "license payload was not defined"

  /** `now` lies in the closed window from activation to expiry. */
  predicate InWindow(m: Metadata, now: int) {
    m.activatesOn <= now <= m.expiresOn
  }

  /** `(Data).IsValid()`: `(true, nil)` becomes `Success(true)`, `(false, err)` becomes `Failure(err)`. */
  function IsValid(l: Data, now: int): (r: Result<bool, string>)
    ensures r.Success? ==> r.value
    ensures r.Success? <==> l.meta.Some? && InWindow(l.meta.value, now) && l.payload.Some?
    ensures r.Failure? ==> r.error in {MetadataNotDefined, NotYetActivated, Expired, PayloadNotDefined}
  {
    if l.meta.None? then Failure(MetadataNotDefined)
    else if now < l.meta.value.activatesOn then Failure(NotYetActivated)
    else if now > l.meta.value.expiresOn then Failure(Expired)
    else if l.payload.None? then Failure(PayloadNotDefined)
    else Success(true)
  }

  /** Each error names the first check that fails, in the order meta, activation, expiry, payload. */
  lemma {:induction false} FirstFailureDecides(l: Data, now: int)
    ensures IsValid(l, now) == Failure(MetadataNotDefined) <==> l.meta.None?
    ensures IsValid(l, now) == Failure(NotYetActivated) <==> l.meta.Some? && now < l.meta.value.activatesOn
    ensures IsValid(l, now) == Failure(Expired)
        <==> l.meta.Some? && l.meta.value.activatesOn <= now && l.meta.value.expiresOn < now
    ensures IsValid(l, now) == Failure(PayloadNotDefined)
        <==> l.meta.Some? && InWindow(l.meta.value, now) && l.payload.None?
  {
  }

  /** Both ends of the window are inclusive, and an empty payload map is accepted. */
  lemma {:induction false} WindowBoundsInclusive(m: Metadata, p: Payload)
    requires m.activatesOn <= m.expiresOn
    ensures IsValid(Data(Some(m), Some(p)), m.activatesOn) == Success(true)
    ensures IsValid(Data(Some(m), Some(p)), m.expiresOn) == Success(true)
    ensures IsValid(Data(Some(m), Some(map[])), m.activatesOn) == Success(true)
  {
  }

  /** The instants at which a license is valid form an interval. */
  lemma {:induction false} ValidCarriesBetween(l: Data, t1: int, t2: int, t: int)
    requires IsValid(l, t1).Success? && IsValid(l, t2).Success? && t1 <= t <= t2
    ensures IsValid(l, t) == Success(true)
  {
  }

  /** Whether a license is valid depends on nothing but its metadata window and whether it has a payload. */
  lemma {:induction false} ValidityIgnoresContents(l: Data, l': Data, now: int)
    requires l.meta.Some? && l'.meta.Some?
    requires l.meta.value.activatesOn == l'.meta.value.activatesOn && l.meta.value.expiresOn == l'.meta.value.expiresOn
    requires l.payload.Some? == l'.payload.Some?
    ensures IsValid(l, now) == IsValid(l', now)
  {
  }
}

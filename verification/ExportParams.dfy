/**
  Parameters of an export session (exporter/validator.go) and what Init makes of them (exporter/exporter.go:99-166).
*/
module ExportParams {
  import opened Wrappers

  type int32 = x: int | -0x8000_0000 <= x < 0x8000_0000

  /** Conversion to 32 bits, which wraps around. */
  function Int32(x: int): int32 {
    (x + 0x8000_0000) % 0x1_0000_0000 - 0x8000_0000
  }

  lemma Int32Exact(x: int)
    ensures Int32(x) == x <==> -0x8000_0000 <= x < 0x8000_0000
  {
  }

  const MILLION: int32 := 1_000_000
  const MAX_SIZE_LIM: int32 := 1024
  const MAX_TRACE_COUNT: int32 := MILLION
  /** Durations are nanoseconds. */
  const SECOND := 1_000_000_000
  const MAX_DURATION := 24 * 3600 * SECOND

  datatype Params = Params(numTraces: int32, sizeLim: int32, duration: int, fileId: string, clean: bool)

  datatype ValidationError =
    | SizeLimOutOfRange
    | NumTracesOutOfRange
    | DurationOutOfRange
    | FileIdTooLong
    | FileIdNotAlphanumeric
    | NoLimitGiven

  predicate IsAlphaNumeric(s: string) {
    forall i :: 0 <= i < |s| ==> 'a' <= s[i] <= 'z' || 'A' <= s[i] <= 'Z' || '0' <= s[i] <= '9'
  }

  /** The validators in the order Init runs them; the first failure is reported. */
  function Validate(p: Params): Option<ValidationError> {
    if p.sizeLim < 0 || p.sizeLim >= MAX_SIZE_LIM then Some(SizeLimOutOfRange)
    else if p.numTraces < 0 || p.numTraces > MAX_TRACE_COUNT then Some(NumTracesOutOfRange)
    else if p.duration < 0 || p.duration > MAX_DURATION then Some(DurationOutOfRange)
    else if |p.fileId| > 10 then Some(FileIdTooLong)
    else if !IsAlphaNumeric(p.fileId) then Some(FileIdNotAlphanumeric)
    else if p.sizeLim == 0 && p.duration < SECOND && p.numTraces == 0 then Some(NoLimitGiven)
    else None
  }

  // What each of the validators asks, in the numbers of the documentation.

  ghost predicate SizeOk(p: Params) { 0 <= p.sizeLim < 1024 }

  ghost predicate CountOk(p: Params) { 0 <= p.numTraces <= 1_000_000 }

  /** At most 24 hours, in nanoseconds. */
  ghost predicate DurationOk(p: Params) { 0 <= p.duration <= 24 * 60 * 60 * 1_000_000_000 }

  ghost predicate LettersAndDigits(s: string) {
    forall i :: 0 <= i < |s| ==> 'a' <= s[i] <= 'z' || 'A' <= s[i] <= 'Z' || '0' <= s[i] <= '9'
  }

  /** A size, a number of traces, or a duration of at least a second: one of the three is enough. */
  ghost predicate SomeLimit(p: Params) { p.sizeLim != 0 || p.numTraces != 0 || p.duration >= 1_000_000_000 }

  ghost predicate Acceptable(p: Params) {
    SizeOk(p) && CountOk(p) && DurationOk(p) && |p.fileId| <= 10 && LettersAndDigits(p.fileId) && SomeLimit(p)
  }

  /** Exactly the acceptable parameters pass, and otherwise the first test that fails is reported. */
  lemma ValidatesInOrder(p: Params)
    ensures Validate(p) == None <==> Acceptable(p)
    ensures Validate(p) == Some(SizeLimOutOfRange) <==> !SizeOk(p)
    ensures Validate(p) == Some(NumTracesOutOfRange) <==> SizeOk(p) && !CountOk(p)
    ensures Validate(p) == Some(DurationOutOfRange) <==> SizeOk(p) && CountOk(p) && !DurationOk(p)
    ensures Validate(p) == Some(FileIdTooLong) <==> SizeOk(p) && CountOk(p) && DurationOk(p) && |p.fileId| > 10
    ensures Validate(p) == Some(FileIdNotAlphanumeric) <==>
              SizeOk(p) && CountOk(p) && DurationOk(p) && |p.fileId| <= 10 && !LettersAndDigits(p.fileId)
    ensures Validate(p) == Some(NoLimitGiven) <==>
              && SizeOk(p) && CountOk(p) && DurationOk(p) && |p.fileId| <= 10 && LettersAndDigits(p.fileId)
              && !SomeLimit(p)
  {
  }

  /** Init rewrites the caller's parameters in place: zero means the maximum, and megabytes become bytes. */
  function Effective(p: Params): Params {
    var sizeLim := Int32(p.sizeLim * MILLION);
    p.(numTraces := if p.numTraces == 0 then MAX_TRACE_COUNT else p.numTraces,
       sizeLim := if sizeLim == 0 then Int32(MAX_SIZE_LIM * MILLION) else sizeLim,
       duration := if p.duration == 0 then MAX_DURATION else p.duration)
  }

  /** The bounds a session's counters rest on. */
  predicate Bounded(p: Params) {
    1 <= p.numTraces <= MAX_TRACE_COUNT && 1 <= p.sizeLim <= MAX_SIZE_LIM * MILLION && 1 <= p.duration <= MAX_DURATION
  }

  /**
    Accepted parameters become positive limits; no size is truncated by the conversion to bytes, and the two sizes the
    caller may mean by the maximum are told apart: zero gives it, while naming it is refused although the error text
    and the comment beside the validator include it.
  */
  lemma AcceptedParamsAreBounded(p: Params)
    ensures Validate(p).None? ==> Bounded(Effective(p))
    ensures Validate(p).None? && p.sizeLim != 0 ==> Effective(p).sizeLim == p.sizeLim * MILLION < MAX_SIZE_LIM * MILLION
    ensures Validate(p).None? && p.sizeLim == 0 ==> Effective(p).sizeLim == MAX_SIZE_LIM * MILLION
    ensures p.sizeLim == MAX_SIZE_LIM ==> Validate(p) == Some(SizeLimOutOfRange)
  {
    Int32Exact(p.sizeLim * MILLION);
  }

  /** Zero means the maximum, and a size becomes bytes; the other fields stay. */
  lemma EffectiveFields(p: Params)
    ensures Effective(p).fileId == p.fileId && Effective(p).clean == p.clean
    ensures Effective(p).numTraces == if p.numTraces == 0 then 1_000_000 else p.numTraces
    ensures Effective(p).duration == if p.duration == 0 then 24 * 60 * 60 * 1_000_000_000 else p.duration
    ensures Acceptable(p) ==>
              Effective(p).sizeLim == if p.sizeLim == 0 then 1_024_000_000 else p.sizeLim * 1_000_000
  {
    if Acceptable(p) { AcceptedParamsAreBounded(p); }
  }

  /** The rewritten parameters never pass validation again, so one Params value starts at most one session. */
  lemma ParamsServeOnce(p: Params)
    requires Validate(p).None?
    ensures Validate(Effective(p)) == Some(SizeLimOutOfRange)
  {
    AcceptedParamsAreBounded(p);
  }
}

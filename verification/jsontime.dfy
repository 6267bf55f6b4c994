/**
 * The registry's timestamp type (time.go): a wall-clock time that travels
 * in JSON as a quoted decimal count of Unix seconds, the zero time as `""`.
 */
module JsonTime {
  import opened Outcomes
  import opened Strconv
  import opened Text

  /**
   * A Go `time.Time` as the registry uses it: the zero value `time.Time{}`,
   * or a time built by `time.Unix(unix, 0)`. The two never compare equal
   * with `==`, even at the same instant (they differ in their location),
   * so the zero value is a constructor of its own.
   */
  datatype Time = Zero | At(unix: Int64)

  /** Unix seconds of the zero time, 0001-01-01 00:00:00 UTC. */
  const ZeroUnix: int := -62135596800

  /** `t.Unix()`. */
  function Unix(t: Time): int {
    match t
    case Zero => ZeroUnix
    case At(u) => u
  }

  /** `a.After(b)`: `a` is a strictly later instant than `b`. */
  predicate After(a: Time, b: Time) {
    Unix(a) > Unix(b)
  }

  const Quote: string := "\""

  /** `Time.MarshalJSON`. */
  function MarshalJSON(t: Time): (b: string)
    ensures t.Zero? ==> b == Quote + Quote
    ensures t.At? ==> b == Quote + FormatInt(t.unix) + Quote
  {
    if t == Zero then Quote + Quote else Quote + FormatInt(t.unix) + Quote
  }

  /**
   * `Time.UnmarshalJSON`: one trailing and then one leading quote are
   * removed and the rest parsed as a base-10 int64. None is the error
   * return, on which the receiver keeps its old value.
   */
  function UnmarshalJSON(b: string): (r: Option<Time>)
    ensures r.None? <==> ParseInt(TrimPrefix(TrimSuffix(b, Quote), Quote)).None?
    ensures r.Some? ==> r.value.At? && ParseInt(TrimPrefix(TrimSuffix(b, Quote), Quote)) == Some(r.value.unix)
  {
    match ParseInt(TrimPrefix(TrimSuffix(b, Quote), Quote))
    case None => None
    case Some(unix) => Some(At(unix))
  }

  /** The receiver after `json.Unmarshal` calls UnmarshalJSON on it. */
  function Decode(receiver: Time, b: string): (t: Time)
    ensures UnmarshalJSON(b).None? ==> t == receiver
    ensures UnmarshalJSON(b).Some? ==> t == UnmarshalJSON(b).value
  {
    match UnmarshalJSON(b)
    case None => receiver
    case Some(decoded) => decoded
  }

  /** Decoding an encoded non-zero time gives the same Unix second back. */
  lemma RoundTrip(t: Time)
    requires t.At?
    ensures UnmarshalJSON(MarshalJSON(t)) == Some(t)
  {
    var digits := FormatInt(t.unix);
    var b := MarshalJSON(t);
    assert HasSuffix(b, Quote) && b[..|b| - 1] == Quote + digits;
    assert TrimSuffix(b, Quote) == Quote + digits;
    assert (Quote + digits)[1..] == digits;
    assert TrimPrefix(Quote + digits, Quote) == digits;
    ParseFormatRoundTrip(t.unix);
  }

  /** The zero time's encoding `""` does not decode: the receiver stays as it was. */
  lemma ZeroDoesNotRoundTrip(receiver: Time)
    ensures UnmarshalJSON(MarshalJSON(Zero)) == None
    ensures Decode(receiver, MarshalJSON(Zero)) == receiver
  {
    var b := MarshalJSON(Zero);
    assert TrimSuffix(b, Quote) == Quote;
    assert TrimPrefix(Quote, Quote) == "";
  }

  /** A number is accepted with or without its quotes, with the same result. */
  lemma QuotesAreOptional(digits: string)
    requires 0 < |digits| && AllDigits(digits)
    ensures UnmarshalJSON(Quote + digits + Quote) == UnmarshalJSON(digits)
  {
    var q := Quote + digits + Quote;
    assert HasSuffix(q, Quote) && q[..|q| - 1] == Quote + digits;
    assert (Quote + digits)[1..] == digits;
    assert !HasSuffix(digits, Quote) by { assert IsDigit(digits[|digits| - 1]); }
    assert !HasPrefix(digits, Quote) by { assert IsDigit(digits[0]); }
  }

  /** Only one quote is stripped at each end: a doubly quoted number is an error. */
  lemma DoubleQuotesRejected(digits: string)
    requires AllDigits(digits)
    ensures UnmarshalJSON(Quote + Quote + digits + Quote + Quote) == None
  {
    var q := Quote + Quote + digits + Quote + Quote;
    assert HasSuffix(q, Quote) && q[..|q| - 1] == Quote + Quote + digits + Quote;
    var q1 := Quote + Quote + digits + Quote;
    assert HasPrefix(q1, Quote) && q1[1..] == Quote + digits + Quote;
    var rest := Quote + digits + Quote;
    assert rest[0] == '"';
  }
}

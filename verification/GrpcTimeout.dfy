/** The grpc-timeout header (`transport/grpc/timeout.go`).  Durations are int64 nanoseconds. */
module GrpcTimeout {
  import opened Seqs
  import opened Decimal

  const MAX_TIMEOUT_VALUE: int := 99_999_999

  const NANOSECOND: int := 1
  const MICROSECOND: int := 1_000
  const MILLISECOND: int := 1_000_000
  const SECOND: int := 1_000_000_000
  const MINUTE: int := 60_000_000_000
  const HOUR: int := 3_600_000_000_000

  const MAX_HOURS: int := MAX_INT64 / HOUR

  /** A duration type's arithmetic: a product wraps to 64 bits. */
  function Wrap64(i: int): int {
    var m := i % 0x1_0000_0000_0000_0000;
    if m > MAX_INT64 then m - 0x1_0000_0000_0000_0000 else m
  }

  /** timeoutUnitToDuration */
  function UnitOf(letter: Byte): Option<int> {
    if letter == 72 then Some(HOUR)
    else if letter == 77 then Some(MINUTE)
    else if letter == 83 then Some(SECOND)
    else if letter == 109 then Some(MILLISECOND)
    else if letter == 117 then Some(MICROSECOND)
    else if letter == 110 then Some(NANOSECOND)
    else None
  }

  predicate IsUnit(u: int) {
    u == NANOSECOND || u == MICROSECOND || u == MILLISECOND || u == SECOND || u == MINUTE || u == HOUR
  }

  function LetterOf(u: int): Byte {
    if u == HOUR then 72
    else if u == MINUTE then 77
    else if u == SECOND then 83
    else if u == MILLISECOND then 109
    else if u == MICROSECOND then 117
    else 110
  }

  /** div, for a duration that is not negative: there Go's quotient and remainder are these. */
  function Div(d: nat, u: int): nat
    requires u > 0
  {
    if d % u > 0 then d / u + 1 else d / u
  }

  /** A number of nanoseconds, as a header value. */
  function InUnit(d: nat, u: int): Bytes
    requires IsUnit(u)
  {
    FormatInt(Div(d, u)) + [LetterOf(u)]
  }

  /** EncodeTimeout */
  function EncodeTimeout(d: int): Bytes {
    if d <= 0 then [48, 110]
    else if Div(d, NANOSECOND) <= MAX_TIMEOUT_VALUE then InUnit(d, NANOSECOND)
    else if Div(d, MICROSECOND) <= MAX_TIMEOUT_VALUE then InUnit(d, MICROSECOND)
    else if Div(d, MILLISECOND) <= MAX_TIMEOUT_VALUE then InUnit(d, MILLISECOND)
    else if Div(d, SECOND) <= MAX_TIMEOUT_VALUE then InUnit(d, SECOND)
    else if Div(d, MINUTE) <= MAX_TIMEOUT_VALUE then InUnit(d, MINUTE)
    else InUnit(d, HOUR)
  }

  /** DecodeTimeout; None is an error. */
  function DecodeTimeout(s: Bytes): Option<int> {
    if |s| < 2 || |s| > 9 then None
    else
      match UnitOf(s[|s| - 1])
      case None => None
      case Some(u) =>
        match ParseDigits(s[..|s| - 1])
        case None => None
        case Some(t) => Some(Scaled(u, t))
  }

  function Scaled(u: int, t: nat): int {
    if u == HOUR && t > MAX_HOURS then MAX_INT64 else Wrap64(u * t)
  }

  // ------------------------------------------------------------------
  // No overflow, and at most eight digits
  // ------------------------------------------------------------------

  function Pow10(k: nat): nat {
    if k == 0 then 1 else 10 * Pow10(k - 1)
  }

  lemma {:induction false} DigitsBound(s: Bytes, n: nat)
    requires n <= |s| && DigitsTo(s, n).Some?
    ensures DigitsTo(s, n).value < Pow10(n)
  {
    if n > 0 {
      DigitsBound(s, n - 1);
    }
  }

  lemma {:induction false} PowGrows(k: nat, m: nat)
    requires k <= m
    ensures Pow10(k) <= Pow10(m)
  {
    if k < m {
      PowGrows(k, m - 1);
    }
  }

  lemma EightDigits()
    ensures Pow10(8) == MAX_TIMEOUT_VALUE + 1
  {
    assert Pow10(2) == 100;
    assert Pow10(4) == 10_000;
    assert Pow10(6) == 1_000_000;
  }

  lemma {:induction false} FormatLength(n: nat, k: nat)
    requires k > 0 && n < Pow10(k)
    ensures |FormatNat(n)| <= k
    decreases k
  {
    if n >= 10 {
      FormatLength(n / 10, k - 1);
    }
  }

  /** The exact product, or the cap: what a header value means. */
  function Meant(u: int, t: nat): int {
    if u * t > MAX_INT64 then MAX_INT64 else u * t
  }

  lemma ScaledIsMeant(u: int, t: nat)
    requires IsUnit(u) && t <= MAX_TIMEOUT_VALUE
    ensures Scaled(u, t) == Meant(u, t) && IsInt64(Meant(u, t)) && Meant(u, t) >= 0
  {
    if u == MINUTE {
      assert u * t <= MINUTE * MAX_TIMEOUT_VALUE;
    }
  }

  /** No accepted string overflows: the product is exact, but for hours, which saturate. */
  lemma DecodeIsExact(s: Bytes)
    requires DecodeTimeout(s).Some?
    ensures var u, t := UnitOf(s[|s| - 1]).value, ParseDigits(s[..|s| - 1]).value;
            && t <= MAX_TIMEOUT_VALUE && DecodeTimeout(s) == Some(Meant(u, t))
            && 0 <= Meant(u, t) <= MAX_INT64
            && (u != HOUR ==> Meant(u, t) == u * t)
  {
    var digits := s[..|s| - 1];
    DigitsBound(digits, |digits|);
    PowGrows(|digits|, 8);
    EightDigits();
    ScaledIsMeant(UnitOf(s[|s| - 1]).value, ParseDigits(digits).value);
  }

  // ------------------------------------------------------------------
  // Round trip
  // ------------------------------------------------------------------

  /** The finest unit in which `d` has at most eight digits, else hours. */
  function Chosen(d: nat): (u: int)
    ensures IsUnit(u)
  {
    if Div(d, NANOSECOND) <= MAX_TIMEOUT_VALUE then NANOSECOND
    else if Div(d, MICROSECOND) <= MAX_TIMEOUT_VALUE then MICROSECOND
    else if Div(d, MILLISECOND) <= MAX_TIMEOUT_VALUE then MILLISECOND
    else if Div(d, SECOND) <= MAX_TIMEOUT_VALUE then SECOND
    else if Div(d, MINUTE) <= MAX_TIMEOUT_VALUE then MINUTE
    else HOUR
  }

  lemma EncodesChosen(d: int)
    requires d > 0
    ensures EncodeTimeout(d) == InUnit(d, Chosen(d))
  {
  }

  lemma ChosenFits(d: nat)
    requires d <= MAX_INT64
    ensures Div(d, Chosen(d)) <= MAX_TIMEOUT_VALUE
  {
  }

  /** The value is at most eight digits and one unit letter. */
  lemma EncodedIsShort(d: int)
    requires d <= MAX_INT64
    ensures var s := EncodeTimeout(d);
            && 2 <= |s| <= 9 && UnitOf(s[|s| - 1]).Some?
            && forall i :: 0 <= i < |s| - 1 ==> IsDigit(s[i])
  {
    if d > 0 {
      EightDigits();
      ChosenFits(d);
      FormatLength(Div(d, Chosen(d)), 8);
    }
  }

  lemma InUnitDecodes(n: nat, u: int)
    requires IsUnit(u) && n <= MAX_TIMEOUT_VALUE
    ensures DecodeTimeout(FormatInt(n) + [LetterOf(u)]) == Some(Meant(u, n))
  {
    var s := FormatInt(n) + [LetterOf(u)];
    EightDigits();
    FormatLength(n, 8);
    assert s[..|s| - 1] == FormatNat(n);
    DigitsRoundTrip(n);
    ScaledIsMeant(u, n);
  }

  /** What a receiver is told of a duration. */
  function Heard(d: int): int {
    if d <= 0 then 0 else Meant(Chosen(d), Div(d, Chosen(d)))
  }

  lemma RoundTrip(d: int)
    requires d <= MAX_INT64
    ensures DecodeTimeout(EncodeTimeout(d)) == Some(Heard(d))
  {
    if d > 0 {
      ChosenFits(d);
      InUnitDecodes(Div(d, Chosen(d)), Chosen(d));
    } else {
      assert FormatInt(0) + [LetterOf(NANOSECOND)] == [48, 110];
      InUnitDecodes(0, NANOSECOND);
    }
  }

  lemma DivBounds(d: nat, u: int)
    requires IsUnit(u)
    ensures d <= u * Div(d, u) < d + u
  {
  }

  /** A timeout is never shortened, and is lengthened by less than one part in 99999. */
  lemma RoundsUpALittle(d: int)
    requires 0 < d <= MAX_INT64
    ensures d <= Heard(d) && (Heard(d) - d) * 99_999 < d
  {
    DivBounds(d, Chosen(d));
  }

  lemma DivMonotone(d: nat, e: nat, u: int)
    requires IsUnit(u) && d <= e
    ensures Div(d, u) <= Div(e, u)
  {
  }

  lemma ChosenMonotone(d: nat, e: nat)
    requires d <= e
    ensures Chosen(d) <= Chosen(e)
  {
    DivMonotone(d, e, NANOSECOND);
    DivMonotone(d, e, MICROSECOND);
    DivMonotone(d, e, MILLISECOND);
    DivMonotone(d, e, SECOND);
    DivMonotone(d, e, MINUTE);
  }

  /** A value in a finer unit stays below every value in a coarser one. */
  lemma FinerIsLess(d: nat, e: nat)
    requires Chosen(d) < Chosen(e) && e <= MAX_INT64
    ensures Meant(Chosen(d), Div(d, Chosen(d))) <= e
  {
    var u, n := Chosen(d), Div(d, Chosen(d));
    assert n <= MAX_TIMEOUT_VALUE;
    assert Div(e, u) > MAX_TIMEOUT_VALUE;
    DivBounds(e, u);
    assert u * n <= u * MAX_TIMEOUT_VALUE;
  }

  lemma MeantMonotone(u: int, n: nat, m: nat)
    requires IsUnit(u) && n <= m
    ensures Meant(u, n) <= Meant(u, m)
  {
    assert u * n <= u * m;
  }

  lemma MonotoneInUnit(d: nat, e: nat, u: int)
    requires d <= e && IsUnit(u)
    ensures Meant(u, Div(d, u)) <= Meant(u, Div(e, u))
  {
    DivMonotone(d, e, u);
    MeantMonotone(u, Div(d, u), Div(e, u));
  }

  lemma MonotoneAcross(d: int, e: int)
    requires 0 < d <= e <= MAX_INT64 && Chosen(d) < Chosen(e)
    ensures Heard(d) <= Heard(e)
  {
    FinerIsLess(d, e);
    RoundsUpALittle(e);
  }

  /** A longer timeout is never heard as a shorter one. */
  lemma Monotone(d: int, e: int)
    requires d <= e <= MAX_INT64
    ensures Heard(d) <= Heard(e)
  {
    if d > 0 {
      ChosenMonotone(d, e);
      MonotoneInUnit(d, e, Chosen(d));
      if Chosen(d) < Chosen(e) {
        MonotoneAcross(d, e);
      }
    } else if e > 0 {
      RoundsUpALittle(e);
    }
  }

  lemma DivOfMultiple(u: int, n: nat)
    requires IsUnit(u)
    ensures Div(u * n, u) == n
  {
  }

  lemma CapHours()
    ensures Div(MAX_INT64, HOUR) == MAX_HOURS + 1 && Chosen(MAX_INT64) == HOUR
  {
  }

  lemma FixedUnit(d: int)
    requires 0 < d <= MAX_INT64
    ensures Chosen(Heard(d)) == Chosen(d) && Div(Heard(d), Chosen(d)) == Div(d, Chosen(d))
  {
    var u := Chosen(d);
    var n := Div(d, u);
    RoundsUpALittle(d);
    ChosenMonotone(d, Heard(d));
    ChosenFits(d);
    CapHours();
    if u * n > MAX_INT64 {
      DivMonotone(d, MAX_INT64, HOUR);
    } else {
      DivOfMultiple(u, n);
    }
  }

  /** Passing a timeout on as it was heard changes nothing more. */
  lemma Reencodes(d: int)
    requires d <= MAX_INT64
    ensures EncodeTimeout(Heard(d)) == EncodeTimeout(d) && Heard(Heard(d)) == Heard(d)
  {
    if d > 0 {
      RoundsUpALittle(d);
      FixedUnit(d);
      EncodesChosen(d);
      EncodesChosen(Heard(d));
    }
  }

  // ------------------------------------------------------------------
  // The letters of the format
  // ------------------------------------------------------------------

  /** The nanoseconds of one unit of each letter; None for any other. */
  ghost predicate Letter(c: Byte, u: int) {
    || (c == 'H' as int && u == 3_600 * 1_000_000_000)
    || (c == 'M' as int && u == 60 * 1_000_000_000)
    || (c == 'S' as int && u == 1_000_000_000)
    || (c == 'm' as int && u == 1_000_000)
    || (c == 'u' as int && u == 1_000)
    || (c == 'n' as int && u == 1)
  }

  /** `s` is one to eight digits and one of the six letters, and means so many of its units, or the longest
      duration there is when that is more. */
  ghost predicate Means(s: Bytes, u: int, d: int) {
    && 2 <= |s| <= 9 && Letter(s[|s| - 1], u)
    && (forall i :: 0 <= i < |s| - 1 ==> '0' as int <= s[i] <= '9' as int)
    && d == if u * Spelled(s[..|s| - 1]) > MAX_INT64 then MAX_INT64 else u * Spelled(s[..|s| - 1])
  }

  /** Accepted are exactly those strings, as what they mean. */
  lemma DecodesExactly(s: Bytes, d: int)
    ensures DecodeTimeout(s) == Some(d) <==> exists u :: Means(s, u, d)
  {
    if 2 <= |s| <= 9 {
      var digits := s[..|s| - 1];
      DigitsSpell(digits, |digits|);
      assert digits[..|digits|] == digits;
      assert forall i :: 0 <= i < |digits| ==> digits[i] == s[i];
      LetterIs(s[|s| - 1]);
      if DecodeTimeout(s).Some? {
        DecodeIsExact(s);
        assert DecodeTimeout(s) == Some(d) ==> Means(s, UnitOf(s[|s| - 1]).value, d);
      }
    }
  }

  lemma LetterIs(c: Byte)
    ensures forall u :: Letter(c, u) <==> UnitOf(c) == Some(u)
  {
  }
}

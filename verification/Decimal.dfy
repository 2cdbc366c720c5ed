/** Bytes, and the decimal forms of `strconv` that the codecs lean on. */
module Decimal {
  import opened Seqs

  type Byte = b: int | 0 <= b < 256

  type Bytes = seq<Byte>

  /** The bytes of a string of ASCII characters. */
  function Ascii(s: string): (r: Bytes)
    requires forall i :: 0 <= i < |s| ==> s[i] < 128 as char
    ensures |r| == |s| && forall i :: 0 <= i < |s| ==> r[i] == s[i] as int
  {
    seq(|s|, i requires 0 <= i < |s| => s[i] as int)
  }

  const MAX_INT64: int := 0x7fff_ffff_ffff_ffff
  const MIN_INT64: int := -0x8000_0000_0000_0000

  predicate IsInt64(i: int) {
    MIN_INT64 <= i <= MAX_INT64
  }

  predicate IsDigit(c: Byte) {
    48 <= c <= 57
  }

  ghost predicate AllDigits(s: Bytes) {
    forall i :: 0 <= i < |s| ==> IsDigit(s[i])
  }

  function FormatNat(n: nat): (s: Bytes)
    ensures s != [] && AllDigits(s)
  {
    if n < 10 then [48 + n] else FormatNat(n / 10) + [48 + n % 10]
  }

  /** strconv.FormatInt in base 10, and strconv.Itoa */
  function FormatInt(i: int): (s: Bytes)
    ensures s != []
  {
    if i < 0 then [45] + FormatNat(-i) else FormatNat(i)
  }

  /** The value of the first `n` bytes, None when one of them is not a digit. */
  function DigitsTo(s: Bytes, n: nat): Option<nat>
    requires n <= |s|
  {
    if n == 0 then Some(0)
    else
      match DigitsTo(s, n - 1)
      case None => None
      case Some(v) => if IsDigit(s[n - 1]) then Some(10 * v + (s[n - 1] - 48)) else None
  }

  function ParseDigits(s: Bytes): Option<nat> {
    DigitsTo(s, |s|)
  }

  /** strconv.ParseInt in base 10 for 64 bits, and strconv.Atoi: an optional sign, then at least one
      digit, and a value that fits. */
  function ParseInt(s: Bytes): (r: Option<int>)
    ensures r.Some? ==> IsInt64(r.value)
  {
    if s == [] then None
    else
      var signed := s[0] == 43 || s[0] == 45;
      var digits := if signed then s[1..] else s;
      if digits == [] then None
      else
        match ParseDigits(digits)
        case None => None
        case Some(v) =>
          var i: int := if s[0] == 45 then -(v as int) else v;
          if IsInt64(i) then Some(i) else None
  }

  lemma {:induction false} DigitsPrefix(s: Bytes, t: Bytes, n: nat)
    requires n <= |s|
    ensures DigitsTo(s + t, n) == DigitsTo(s, n)
  {
    if n > 0 {
      DigitsPrefix(s, t, n - 1);
      assert (s + t)[n - 1] == s[n - 1];
    }
  }

  lemma {:induction false} DigitsRoundTrip(n: nat)
    ensures ParseDigits(FormatNat(n)) == Some(n)
  {
    if n < 10 {
      assert DigitsTo(FormatNat(n), 0) == Some(0);
    } else {
      DigitsRoundTrip(n / 10);
      DigitsPrefix(FormatNat(n / 10), [48 + n % 10], |FormatNat(n / 10)|);
    }
  }

  /** What FormatInt prints ParseInt reads back. */
  lemma IntRoundTrip(i: int)
    requires IsInt64(i)
    ensures ParseInt(FormatInt(i)) == Some(i)
  {
    if i < 0 {
      DigitsRoundTrip(-i);
      assert FormatInt(i)[1..] == FormatNat(-i);
    } else {
      DigitsRoundTrip(i);
      assert IsDigit(FormatNat(i)[0]);
    }
  }

  lemma FormatIntBytes(i: int)
    ensures forall k :: 0 <= k < |FormatInt(i)| ==> FormatInt(i)[k] == 45 || IsDigit(FormatInt(i)[k])
  {
  }

  // ------------------------------------------------------------------
  // Numerals
  // ------------------------------------------------------------------

  function TenTo(k: nat): nat {
    if k == 0 then 1 else 10 * TenTo(k - 1)
  }

  /** The number that digits spell, most significant first. */
  function Spelled(digits: Bytes): int
    decreases |digits|
  {
    if digits == [] then 0 else (digits[0] as int - 48) * TenTo(|digits| - 1) + Spelled(digits[1..])
  }

  /** `s` without its sign. */
  function Unsigned(s: Bytes): Bytes {
    if s != [] && (s[0] == '+' as int || s[0] == '-' as int) then s[1..] else s
  }

  /** `s` is a numeral for `i`: at most one sign, then digits, leading zeros and all, that spell its size, and `i`
      is a 64-bit number. */
  ghost predicate Denotes(s: Bytes, i: int) {
    && Unsigned(s) != []
    && (forall k :: 0 <= k < |Unsigned(s)| ==> '0' as int <= Unsigned(s)[k] <= '9' as int)
    && i == (if s[0] == '-' as int then -Spelled(Unsigned(s)) else Spelled(Unsigned(s)))
    && -0x8000_0000_0000_0000 <= i <= 0x7fff_ffff_ffff_ffff
  }

  lemma {:induction false} SpelledSnoc(digits: Bytes, c: Byte)
    ensures Spelled(digits + [c]) == 10 * Spelled(digits) + (c as int - 48)
    decreases |digits|
  {
    if digits == [] {
      assert [c][1..] == [];
      assert Spelled([]) == 0;
    } else {
      SpelledSnoc(digits[1..], c);
      assert (digits + [c])[1..] == digits[1..] + [c];
      ScaleUp(digits[0] as int - 48, TenTo(|digits| - 1));
    }
  }

  lemma ScaleUp(d: int, t: nat)
    ensures d * (10 * t) == 10 * (d * t)
  {
  }

  lemma {:induction false} DigitsSpell(s: Bytes, n: nat)
    requires n <= |s|
    ensures DigitsTo(s, n).Some? <==> AllDigits(s[..n])
    ensures DigitsTo(s, n).Some? ==> DigitsTo(s, n).value == Spelled(s[..n])
  {
    if n > 0 {
      DigitsSpell(s, n - 1);
      assert s[..n] == s[..n - 1] + [s[n - 1]];
      SpelledSnoc(s[..n - 1], s[n - 1]);
      assert AllDigits(s[..n]) <==> AllDigits(s[..n - 1]) && IsDigit(s[n - 1]) by {
        assert forall k :: 0 <= k < n - 1 ==> s[..n][k] == s[..n - 1][k];
        assert s[..n][n - 1] == s[n - 1];
      }
    }
  }

  /** ParseInt reads exactly the numerals, each as what it denotes. */
  lemma ParsesExactly(s: Bytes, i: int)
    ensures ParseInt(s) == Some(i) <==> Denotes(s, i)
  {
    var digits := Unsigned(s);
    DigitsSpell(digits, |digits|);
    assert digits[..|digits|] == digits;
  }
}

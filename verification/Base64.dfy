/** Base64 (section 4 of RFC 4648) as Go's encoding/base64 has it: with and without padding, line breaks
    in the input skipped. */
module Base64 {
  import opened Seqs
  import opened Decimal

  const PAD: Byte := 61

  type Sextet = n: int | 0 <= n < 64

  function Digit(n: Sextet): Byte {
    if n < 26 then 65 + n
    else if n < 52 then 71 + n
    else if n < 62 then n - 4
    else if n == 62 then 43
    else 47
  }

  function ValueOf(c: Byte): Option<Sextet> {
    if 65 <= c <= 90 then Some(c - 65)
    else if 97 <= c <= 122 then Some(c - 71)
    else if 48 <= c <= 57 then Some(c + 4)
    else if c == 43 then Some(62)
    else if c == 47 then Some(63)
    else None
  }

  function Padding(padded: bool, n: nat): (r: Bytes)
    requires n <= 2
    ensures |r| == if padded then n else 0
  {
    if !padded || n == 0 then [] else if n == 1 then [PAD] else [PAD, PAD]
  }

  // Three bytes make four sextets, and back.

  function Sextet0(b0: Byte): Sextet {
    b0 / 4
  }

  function Sextet1(b0: Byte, b1: Byte): Sextet {
    b0 % 4 * 16 + b1 / 16
  }

  function Sextet2(b1: Byte, b2: Byte): Sextet {
    b1 % 16 * 4 + b2 / 64
  }

  function Sextet3(b2: Byte): Sextet {
    b2 % 64
  }

  function Byte0(v0: Sextet, v1: Sextet): Byte {
    var high: int := v0;
    high * 4 + v1 / 16
  }

  function Byte1(v1: Sextet, v2: Sextet): Byte {
    var high: int := v1 % 16;
    high * 16 + v2 / 4
  }

  function Byte2(v2: Sextet, v3: Sextet): Byte {
    var high: int := v2 % 4;
    high * 64 + v3
  }

  lemma BytesBack(b0: Byte, b1: Byte, b2: Byte)
    ensures Byte0(Sextet0(b0), Sextet1(b0, b1)) == b0
    ensures Byte1(Sextet1(b0, b1), Sextet2(b1, b2)) == b1
    ensures Byte2(Sextet2(b1, b2), Sextet3(b2)) == b2
  {
  }

  /** EncodeToString of StdEncoding (`padded`) and of RawStdEncoding. */
  function Encode(b: Bytes, padded: bool): Bytes {
    if b == [] then []
    else if |b| == 1 then [Digit(Sextet0(b[0])), Digit(Sextet1(b[0], 0))] + Padding(padded, 2)
    else if |b| == 2 then
      [Digit(Sextet0(b[0])), Digit(Sextet1(b[0], b[1])), Digit(Sextet2(b[1], 0))] + Padding(padded, 1)
    else EncodeThree(b[0], b[1], b[2]) + Encode(b[3..], padded)
  }

  function EncodeThree(b0: Byte, b1: Byte, b2: Byte): (r: Bytes)
    ensures |r| == 4
  {
    [Digit(Sextet0(b0)), Digit(Sextet1(b0, b1)), Digit(Sextet2(b1, b2)), Digit(Sextet3(b2))]
  }

  /** The bytes of a last group of two or three digits; the bits left over are not looked at. */
  function Last(s: Bytes): Option<Bytes>
    requires |s| == 2 || |s| == 3
  {
    var v0, v1 := ValueOf(s[0]), ValueOf(s[1]);
    if v0.None? || v1.None? then None
    else if |s| == 2 then Some([Byte0(v0.value, v1.value)])
    else
      match ValueOf(s[2])
      case Some(v2) => Some([Byte0(v0.value, v1.value), Byte1(v1.value, v2)])
      case None => None
  }

  function Group(s: Bytes): (r: Option<Bytes>)
    requires |s| == 4
    ensures r.Some? ==> |r.value| == 3
  {
    var v0, v1, v2, v3 := ValueOf(s[0]), ValueOf(s[1]), ValueOf(s[2]), ValueOf(s[3]);
    if v0.None? || v1.None? || v2.None? || v3.None? then None
    else Some([Byte0(v0.value, v1.value), Byte1(v1.value, v2.value), Byte2(v2.value, v3.value)])
  }

  function DecodeGroups(s: Bytes, padded: bool): Option<Bytes> {
    if s == [] then Some([])
    else if |s| < 4 then
      if padded || |s| == 1 then None else Last(s)
    else if padded && |s| == 4 && s[3] == PAD then
      if s[2] == PAD then Last(s[..2]) else Last(s[..3])
    else
      match Group(s[..4])
      case None => None
      case Some(b) =>
        match DecodeGroups(s[4..], padded)
        case None => None
        case Some(rest) => Some(b + rest)
  }

  predicate IsBreak(c: Byte) {
    c == 10 || c == 13
  }

  function Stripped(s: Bytes): Bytes {
    if s == [] then [] else if IsBreak(s[0]) then Stripped(s[1..]) else [s[0]] + Stripped(s[1..])
  }

  /** DecodeString */
  function Decode(s: Bytes, padded: bool): Option<Bytes> {
    DecodeGroups(Stripped(s), padded)
  }

  lemma DigitRoundTrip(n: Sextet)
    ensures ValueOf(Digit(n)) == Some(n)
    ensures Digit(n) != PAD && !IsBreak(Digit(n)) && Digit(n) != 44
  {
  }

  lemma {:induction false} NothingToStrip(s: Bytes)
    requires forall i :: 0 <= i < |s| ==> !IsBreak(s[i])
    ensures Stripped(s) == s
  {
    if s != [] {
      NothingToStrip(s[1..]);
    }
  }

  /** Every byte of an encoding is a digit or padding: no line break, and no comma. */
  lemma {:induction false} EncodedBytes(b: Bytes, padded: bool)
    ensures forall i :: 0 <= i < |Encode(b, padded)| ==> !IsBreak(Encode(b, padded)[i]) && Encode(b, padded)[i] != 44
  {
    if |b| >= 3 {
      EncodedBytes(b[3..], padded);
    }
  }

  lemma LastLength(b: Bytes, padded: bool)
    requires 0 < |b| < 3
    ensures |Encode(b, padded)| == if padded then 4 else |b| + 1
  {
  }

  lemma EncodeCons(b: Bytes, padded: bool)
    requires |b| >= 3
    ensures Encode(b, padded) == EncodeThree(b[0], b[1], b[2]) + Encode(b[3..], padded)
  {
  }

  /** The length tells whether an encoding may be padded: full groups of four when it is, or need not be. */
  lemma {:induction false} CountIs(b: Bytes, padded: bool)
    ensures |Encode(b, padded)| == 4 * (|b| / 3) + if |b| % 3 == 0 then 0 else if padded then 4 else |b| % 3 + 1
  {
    if |b| >= 3 {
      EncodeCons(b, padded);
      CountIs(b[3..], padded);
      LessThree(|b|);
    } else if b != [] {
      LastLength(b, padded);
    }
  }

  lemma LessThree(n: nat)
    requires n >= 3
    ensures (n - 3) / 3 == n / 3 - 1 && (n - 3) % 3 == n % 3
  {
  }

  lemma GroupRoundTrip(b0: Byte, b1: Byte, b2: Byte)
    ensures Group(EncodeThree(b0, b1, b2)) == Some([b0, b1, b2])
    ensures EncodeThree(b0, b1, b2)[3] != PAD
  {
    BytesBack(b0, b1, b2);
    DigitRoundTrip(Sextet0(b0));
    DigitRoundTrip(Sextet1(b0, b1));
    DigitRoundTrip(Sextet2(b1, b2));
    DigitRoundTrip(Sextet3(b2));
  }

  lemma OneForm(b0: Byte)
    ensures Encode([b0], false) == [Digit(Sextet0(b0)), Digit(Sextet1(b0, 0))]
    ensures Encode([b0], true) == Encode([b0], false) + [PAD, PAD]
  {
  }

  lemma FirstBack(b0: Byte, b1: Byte)
    ensures Byte0(Sextet0(b0), Sextet1(b0, b1)) == b0
  {
  }

  lemma LastOne(b0: Byte)
    ensures var e := Encode([b0], false);
            && |e| == 2 && Last(e) == Some([b0]) && Encode([b0], true) == e + [PAD, PAD]
  {
    OneForm(b0);
    var v0, v1 := Sextet0(b0), Sextet1(b0, 0);
    FirstBack(b0, 0);
    LastDecodes(v0, v1);
  }

  lemma LastDecodes(v0: Sextet, v1: Sextet)
    ensures Last([Digit(v0), Digit(v1)]) == Some([Byte0(v0, v1)])
  {
    DigitRoundTrip(v0);
    DigitRoundTrip(v1);
  }

  lemma LastTwo(b0: Byte, b1: Byte)
    ensures var e := Encode([b0, b1], false);
            && |e| == 3 && Last(e) == Some([b0, b1]) && e[2] != PAD && Encode([b0, b1], true) == e + [PAD]
  {
    BytesBack(b0, b1, 0);
    DigitRoundTrip(Sextet0(b0));
    DigitRoundTrip(Sextet1(b0, b1));
    DigitRoundTrip(Sextet2(b1, 0));
  }

  lemma PaddedLast(e: Bytes)
    requires |e| == 2 || (|e| == 3 && e[2] != PAD)
    ensures DecodeGroups(e + (if |e| == 2 then [PAD, PAD] else [PAD]), true) == Last(e)
    ensures DecodeGroups(e, false) == Last(e)
  {
    var s := e + (if |e| == 2 then [PAD, PAD] else [PAD]);
    assert s[..|e|] == e;
  }

  lemma {:induction false} GroupsRoundTrip(b: Bytes, padded: bool)
    ensures DecodeGroups(Encode(b, padded), padded) == Some(b)
    decreases |b|
  {
    if |b| == 1 {
      assert b == [b[0]];
      LastOne(b[0]);
      PaddedLast(Encode(b, false));
    } else if |b| == 2 {
      assert b == [b[0], b[1]];
      LastTwo(b[0], b[1]);
      PaddedLast(Encode(b, false));
    } else if b != [] {
      GroupsRoundTrip(b[3..], padded);
      EncodeCons(b, padded);
      MoreGroups(b[0], b[1], b[2], Encode(b[3..], padded), padded);
      assert [b[0], b[1], b[2]] + b[3..] == b;
    }
  }

  lemma MoreGroups(b0: Byte, b1: Byte, b2: Byte, rest: Bytes, padded: bool)
    requires DecodeGroups(rest, padded).Some?
    ensures DecodeGroups(EncodeThree(b0, b1, b2) + rest, padded)
         == Some([b0, b1, b2] + DecodeGroups(rest, padded).value)
  {
    GroupRoundTrip(b0, b1, b2);
    Seam(EncodeThree(b0, b1, b2), rest);
  }

  /** What was encoded, with or without padding, decodes to itself. */
  lemma {:induction false} RoundTrip(b: Bytes, padded: bool)
    ensures Decode(Encode(b, padded), padded) == Some(b)
  {
    EncodedBytes(b, padded);
    NothingToStrip(Encode(b, padded));
    GroupsRoundTrip(b, padded);
  }

  /** When no padding is called for, either decoder will do. */
  lemma {:induction false} WholeGroups(b: Bytes)
    requires |b| % 3 == 0
    ensures Encode(b, true) == Encode(b, false)
  {
    if b != [] {
      WholeGroups(b[3..]);
    }
  }

  // ------------------------------------------------------------------
  // The alphabet, and the order of bits
  // ------------------------------------------------------------------

  /** Without padding there is no equals sign. */
  lemma {:induction false} Unpadded(b: Bytes)
    ensures '=' as int !in Encode(b, false)
  {
    if |b| >= 3 {
      Unpadded(b[3..]);
    }
  }

  const UPPER := "ABCDEFGHIJKLMNOPQRSTUVWXYZ"
  const LOWER := "abcdefghijklmnopqrstuvwxyz"
  const ALPHABET := UPPER + LOWER + "0123456789+/"

  lemma UpperIs(n: Sextet)
    requires n < 26
    ensures |UPPER| == 26 && Digit(n) == UPPER[n] as int
  {
  }

  lemma LowerIs(n: Sextet)
    requires 26 <= n < 52
    ensures |LOWER| == 26 && Digit(n) == LOWER[n - 26] as int
  {
  }

  lemma OtherIs(n: Sextet)
    requires 52 <= n
    ensures |"0123456789+/"| == 12 && Digit(n) == "0123456789+/"[n - 52] as int
  {
  }

  lemma DigitIs(n: Sextet)
    ensures |ALPHABET| == 64 && Digit(n) == ALPHABET[n] as int
  {
    UpperIs(0);
    LowerIs(26);
    OtherIs(52);
    if n < 26 {
      UpperIs(n);
    } else if n < 52 {
      LowerIs(n);
    } else {
      OtherIs(n);
    }
  }

  /** The byte at `i`, zero behind the end. */
  function At(b: Bytes, i: nat): Byte {
    if i < |b| then b[i] else 0
  }

  /** The 24 bits of group `g`: its three bytes, the first one foremost, zero behind the end. */
  function Bits(b: Bytes, g: nat): int {
    var b0: int, b1: int, b2: int := At(b, 3 * g), At(b, 3 * g + 1), At(b, 3 * g + 2);
    65536 * b0 + 256 * b1 + b2
  }

  /** `ds` are the four sixes of `bits`, the first one foremost, and `e` starts with the digits of the first `n`. */
  predicate Shows(e: Bytes, n: nat, bits: int, ds: seq<Sextet>) {
    && |ds| == 4 && n <= 4 && n <= |e|
    && 262144 * (ds[0] as int) + 4096 * (ds[1] as int) + 64 * (ds[2] as int) + (ds[3] as int) == bits
    && forall i :: 0 <= i < n ==> e[i] == Digit(ds[i])
  }

  /** How many digits group `g` takes: one more than it has bytes. */
  function Digits(b: Bytes, g: nat): int {
    if |b| >= 3 * g + 3 then 4 else |b| - 3 * g + 1
  }

  lemma SameBits(b0: int, b1: int, b2: int)
    requires 0 <= b0 < 256 && 0 <= b1 < 256 && 0 <= b2 < 256
    ensures 65536 * b0 + 256 * b1 + b2 ==
            262144 * (b0 / 4) + 4096 * (b0 % 4 * 16 + b1 / 16) + 64 * (b1 % 16 * 4 + b2 / 64) + b2 % 64
  {
    var q0, r0, q1, r1, q2, r2 := b0 / 4, b0 % 4, b1 / 16, b1 % 16, b2 / 64, b2 % 64;
    assert b0 == 4 * q0 + r0 && b1 == 16 * q1 + r1 && b2 == 64 * q2 + r2;
  }

  function Sextets(b: Bytes): seq<Sextet> {
    [Sextet0(At(b, 0)), Sextet1(At(b, 0), At(b, 1)), Sextet2(At(b, 1), At(b, 2)), Sextet3(At(b, 2))]
  }

  lemma FirstGroup(b: Bytes, padded: bool)
    requires b != []
    ensures var e, n := Encode(b, padded), Digits(b, 0);
            && 2 <= n <= |e|
            && (forall i :: 0 <= i < n ==> e[i] == Digit(Sextets(b)[i]))
            && (|b| < 3 ==> e[n..] == Padding(padded, 4 - n))
  {
    if |b| >= 3 {
      EncodeCons(b, padded);
    }
  }

  lemma LaterBits(b: Bytes, g: nat)
    requires g > 0 && |b| >= 3
    ensures Bits(b[3..], g - 1) == Bits(b, g) && Digits(b[3..], g - 1) == Digits(b, g)
  {
  }

  lemma LaterGroup(b: Bytes, padded: bool, g: nat)
    requires g > 0 && 4 * g < |Encode(b, padded)|
    ensures |b| >= 3 && 4 * (g - 1) < |Encode(b[3..], padded)|
    ensures Encode(b, padded)[4 * g..] == Encode(b[3..], padded)[4 * (g - 1)..]
  {
    if |b| >= 3 {
      EncodeCons(b, padded);
      DropDrop(Encode(b, padded), 4, 4 * (g - 1));
      Seam(EncodeThree(b[0], b[1], b[2]), Encode(b[3..], padded));
    } else if b != [] {
      LastLength(b, padded);
    }
  }

  /** `e` starts with the digits for `bits`, `n` of them; if that is no full group, there are equals signs behind
      them when it is padded, and nothing when it is not. */
  ghost predicate GroupForm(e: Bytes, n: int, bits: int, padded: bool) {
    && 2 <= n <= |e|
    && (exists ds :: Shows(e, n, bits, ds))
    && (n < 4 ==> |e| == (if padded then 4 else n) && forall i :: n <= i < |e| ==> e[i] == '=' as int)
  }

  lemma FirstBits(b: Bytes)
    ensures var ds := Sextets(b);
            262144 * (ds[0] as int) + 4096 * (ds[1] as int) + 64 * (ds[2] as int) + (ds[3] as int) == Bits(b, 0)
  {
    SameBits(At(b, 0), At(b, 1), At(b, 2));
  }

  lemma FirstForm(b: Bytes, padded: bool)
    requires b != []
    ensures GroupForm(Encode(b, padded), Digits(b, 0), Bits(b, 0), padded)
  {
    var e, n := Encode(b, padded), Digits(b, 0);
    FirstGroup(b, padded);
    FirstBits(b);
    assert Shows(e, n, Bits(b, 0), Sextets(b));
    if n < 4 {
      assert forall i :: n <= i < |e| ==> e[i] == e[n..][i - n];
    }
  }

  /** Group by group, an encoding is the digits for the bytes' bits. */
  lemma {:induction false} EncodedForm(b: Bytes, padded: bool, g: nat)
    requires 4 * g < |Encode(b, padded)|
    ensures GroupForm(Encode(b, padded)[4 * g..], Digits(b, g), Bits(b, g), padded)
    decreases g
  {
    if g > 0 {
      LaterGroup(b, padded, g);
      LaterBits(b, g);
      EncodedForm(b[3..], padded, g - 1);
    } else {
      FirstForm(b, padded);
      Emptys(Encode(b, padded));
    }
  }
}

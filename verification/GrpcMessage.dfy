/** The grpc-message header (`transport/grpc/message.go`): percent-encoding over UTF-8 (section 3 of
    RFC 3629). */
module GrpcMessage {
  import opened Seqs
  import opened Decimal

  const PERCENT: Byte := 37

  // ------------------------------------------------------------------
  // UTF-8
  // ------------------------------------------------------------------

  const RUNE_ERROR: int := 0xFFFD

  type Rune = r: int | 0 <= r <= 0x10FFFF && !(0xD800 <= r <= 0xDFFF)

  predicate IsTail(b: Byte) {
    0x80 <= b <= 0xBF
  }

  /** The second byte of a sequence that starts with `b0`; the range keeps out overlong forms,
      surrogates and what lies beyond U+10FFFF. */
  predicate IsSecond(b0: Byte, b1: Byte) {
    if b0 == 0xE0 then 0xA0 <= b1 <= 0xBF
    else if b0 == 0xED then 0x80 <= b1 <= 0x9F
    else if b0 == 0xF0 then 0x90 <= b1 <= 0xBF
    else if b0 == 0xF4 then 0x80 <= b1 <= 0x8F
    else IsTail(b1)
  }

  /** How many bytes the rune at the front of `s` takes, 0 when there is none. */
  function RuneLength(s: Bytes): (n: nat)
    requires s != []
    ensures n <= |s| && n <= 4
  {
    if s[0] < 0x80 then 1
    else if 0xC2 <= s[0] <= 0xDF then
      if |s| >= 2 && IsTail(s[1]) then 2 else 0
    else if 0xE0 <= s[0] <= 0xEF then
      if |s| >= 3 && IsSecond(s[0], s[1]) && IsTail(s[2]) then 3 else 0
    else if 0xF0 <= s[0] <= 0xF4 then
      if |s| >= 4 && IsSecond(s[0], s[1]) && IsTail(s[2]) && IsTail(s[3]) then 4 else 0
    else 0
  }

  function Bits(b: Byte, low: nat): int
    requires low > 0
  {
    b % low
  }

  /** utf8.DecodeRuneInString: the rune and its size; U+FFFD and 1 when there is no rune. */
  function DecodeRune(s: Bytes): (r: (int, nat))
    requires s != []
    ensures 1 <= r.1 <= |s|
  {
    var n := RuneLength(s);
    if n == 0 then (RUNE_ERROR, 1)
    else if n == 1 then (s[0], 1)
    else if n == 2 then (64 * Bits(s[0], 32) + Bits(s[1], 64), 2)
    else if n == 3 then (4096 * Bits(s[0], 16) + 64 * Bits(s[1], 64) + Bits(s[2], 64), 3)
    else (262144 * Bits(s[0], 8) + 4096 * Bits(s[1], 64) + 64 * Bits(s[2], 64) + Bits(s[3], 64), 4)
  }

  function Tail(r: nat): Byte {
    0x80 + r % 64
  }

  /** The bytes of string(r) */
  function EncodeRune(r: Rune): Bytes {
    if r < 0x80 then [r]
    else if r < 0x800 then [0xC0 + r / 64, Tail(r)]
    else if r < 0x1_0000 then [0xE0 + r / 4096, Tail(r / 64), Tail(r)]
    else [0xF0 + r / 262144, Tail(r / 4096), Tail(r / 64), Tail(r)]
  }

  const REPLACEMENT: Bytes := [0xEF, 0xBF, 0xBD]

  /** Taking a rune apart again. */
  lemma Digits64(a: nat, b: nat)
    requires b < 64
    ensures (64 * a + b) / 64 == a && (64 * a + b) % 64 == b
  {
  }

  lemma Digits2(a: nat, b: nat, c: nat)
    requires b < 64 && c < 64
    ensures var r := 4096 * a + 64 * b + c; r / 4096 == a && r / 64 % 64 == b && r % 64 == c
  {
    Digits64(64 * a + b, c);
    Digits64(a, b);
  }

  lemma Digits3(a: nat, b: nat, c: nat, d: nat)
    requires b < 64 && c < 64 && d < 64
    ensures var r := 262144 * a + 4096 * b + 64 * c + d;
            r / 262144 == a && r / 4096 % 64 == b && r / 64 % 64 == c && r % 64 == d
  {
    Digits2(64 * a + b, c, d);
    Digits64(a, b);
  }

  lemma Encode2(a: nat, b: nat)
    requires 2 <= a < 32 && b < 64
    ensures var r := 64 * a + b; 0x80 <= r < 0x800 && EncodeRune(r) == [0xC0 + a, 0x80 + b]
  {
    Digits64(a, b);
  }

  lemma Encode3(a: nat, b: nat, c: nat)
    requires a < 16 && b < 64 && c < 64 && (a == 0 ==> b >= 32) && (a == 13 ==> b < 32)
    ensures var r := 4096 * a + 64 * b + c;
            && 0x800 <= r < 0x1_0000 && !(0xD800 <= r <= 0xDFFF)
            && EncodeRune(r) == [0xE0 + a, 0x80 + b, 0x80 + c]
  {
    Digits2(a, b, c);
  }

  lemma Encode4(a: nat, b: nat, c: nat, d: nat)
    requires a <= 4 && b < 64 && c < 64 && d < 64 && (a == 0 ==> b >= 16) && (a == 4 ==> b < 16)
    ensures var r := 262144 * a + 4096 * b + 64 * c + d;
            0x1_0000 <= r <= 0x10FFFF && EncodeRune(r) == [0xF0 + a, 0x80 + b, 0x80 + c, 0x80 + d]
  {
    Digits3(a, b, c, d);
  }

  lemma TailBits(b: Byte)
    requires IsTail(b)
    ensures Bits(b, 64) == b - 0x80
  {
  }

  /** What the first byte of a sequence carries. */
  lemma HeadBits(b: Byte)
    ensures 0xC2 <= b <= 0xDF ==> Bits(b, 32) == b - 0xC0
    ensures 0xE0 <= b <= 0xEF ==> Bits(b, 16) == b - 0xE0
    ensures 0xF0 <= b <= 0xF4 ==> Bits(b, 8) == b - 0xF0
  {
  }

  lemma ReplacementIs()
    ensures EncodeRune(RUNE_ERROR) == REPLACEMENT
  {
  }

  /** Encoding a decoded rune gives back the bytes it came from; what is not a rune becomes U+FFFD. */
  lemma RuneRoundTrip(s: Bytes)
    requires s != []
    ensures var (r, size) := DecodeRune(s);
            && 0 <= r <= 0x10FFFF && !(0xD800 <= r <= 0xDFFF)
            && EncodeRune(r) == (if RuneLength(s) == 0 then REPLACEMENT else s[..size])
            && (size > 1 ==> forall i :: 0 <= i < size ==> s[i] >= 0x80)
  {
    var n := RuneLength(s);
    HeadBits(s[0]);
    if n == 0 {
      ReplacementIs();
    } else if n == 2 {
      TailBits(s[1]);
      Encode2(s[0] - 0xC0, s[1] - 0x80);
    } else if n == 3 {
      TailBits(s[1]);
      TailBits(s[2]);
      Encode3(s[0] - 0xE0, s[1] - 0x80, s[2] - 0x80);
    } else if n == 4 {
      TailBits(s[1]);
      TailBits(s[2]);
      TailBits(s[3]);
      Encode4(s[0] - 0xF0, s[1] - 0x80, s[2] - 0x80, s[3] - 0x80);
    }
  }

  lemma Split64(r: nat)
    ensures r / 4096 == r / 64 / 64 && r / 262144 == r / 4096 / 64
    ensures r == 64 * (r / 64) + r % 64
    ensures r == 4096 * (r / 4096) + 64 * (r / 64 % 64) + r % 64
    ensures r == 262144 * (r / 262144) + 4096 * (r / 4096 % 64) + 64 * (r / 64 % 64) + r % 64
  {
  }

  lemma Decode3(r: Rune, s: Bytes)
    requires 0x800 <= r < 0x1_0000 && |s| >= 3 && s[..3] == EncodeRune(r)
    ensures RuneLength(s) == 3 && DecodeRune(s) == (r, 3)
  {
    Split64(r);
    var a, b, c := r / 4096, r / 64 % 64, r % 64;
    assert s[0] == s[..3][0] == 0xE0 + a && s[1] == s[..3][1] == 0x80 + b && s[2] == s[..3][2] == 0x80 + c;
    assert a == 0 ==> b >= 32;
    assert a == 13 ==> b < 32;
    HeadBits(s[0]);
    TailBits(s[1]);
    TailBits(s[2]);
  }

  lemma Decode4(r: Rune, s: Bytes)
    requires 0x1_0000 <= r && |s| >= 4 && s[..4] == EncodeRune(r)
    ensures RuneLength(s) == 4 && DecodeRune(s) == (r, 4)
  {
    Split64(r);
    var a, b, c, d := r / 262144, r / 4096 % 64, r / 64 % 64, r % 64;
    assert s[0] == s[..4][0] == 0xF0 + a && s[1] == s[..4][1] == 0x80 + b;
    assert s[2] == s[..4][2] == 0x80 + c && s[3] == s[..4][3] == 0x80 + d;
    assert a == 0 ==> b >= 16;
    assert a <= 4 && (a == 4 ==> b < 16);
    HeadBits(s[0]);
    TailBits(s[1]);
    TailBits(s[2]);
    TailBits(s[3]);
  }

  lemma Decode2(r: Rune, s: Bytes)
    requires 0x80 <= r < 0x800 && |s| >= 2 && s[..2] == EncodeRune(r)
    ensures RuneLength(s) == 2 && DecodeRune(s) == (r, 2)
  {
    Split64(r);
    assert s[0] == s[..2][0] == 0xC0 + r / 64 && s[1] == s[..2][1] == 0x80 + r % 64;
    HeadBits(s[0]);
    TailBits(s[1]);
  }

  /** Every rune's encoding decodes to it, whatever follows. */
  lemma RuneDecodes(r: Rune, x: Bytes)
    ensures DecodeRune(EncodeRune(r) + x) == (r, |EncodeRune(r)|)
    ensures RuneLength(EncodeRune(r) + x) == |EncodeRune(r)|
  {
    var e := EncodeRune(r);
    Seam(e, x);
    if 0x80 <= r < 0x800 {
      Decode2(r, e + x);
    } else if 0x800 <= r < 0x1_0000 {
      Decode3(r, e + x);
    } else if 0x1_0000 <= r {
      Decode4(r, e + x);
    }
  }

  /** `s` is UTF-8. */
  predicate Utf8(s: Bytes) {
    s == [] || (RuneLength(s) > 0 && Utf8(s[RuneLength(s)..]))
  }

  /** `s` with U+FFFD in the place of every byte that is not part of a rune. */
  function Repaired(s: Bytes): Bytes
    decreases |s|
  {
    if s == [] then []
    else if RuneLength(s) == 0 then REPLACEMENT + Repaired(s[1..])
    else s[..RuneLength(s)] + Repaired(s[RuneLength(s)..])
  }

  lemma {:induction false} RepairedExactly(s: Bytes)
    ensures |Repaired(s)| >= |s|
    ensures if Utf8(s) then Repaired(s) == s else |Repaired(s)| > |s|
    decreases |s|
  {
    if s != [] {
      var n := if RuneLength(s) == 0 then 1 else RuneLength(s);
      RepairedExactly(s[n..]);
      Split(s, n);
    }
  }

  // ------------------------------------------------------------------
  // Percent-encoding
  // ------------------------------------------------------------------

  /** Printable ASCII but for the percent sign. */
  predicate IsPlain(b: Byte) {
    32 <= b <= 126 && b != PERCENT
  }

  function HexDigit(d: nat): Byte
    requires d < 16
  {
    if d < 10 then 48 + d else 55 + d
  }

  /** fmt's %%%02X */
  function Escape(b: Byte): Bytes {
    [PERCENT, HexDigit(b / 16), HexDigit(b % 16)]
  }

  function EncodeByte(b: Byte): Bytes {
    if IsPlain(b) then [b] else Escape(b)
  }

  /** A message, byte by byte. */
  function Encoded(s: Bytes): Bytes {
    if s == [] then [] else EncodeByte(s[0]) + Encoded(s[1..])
  }

  /** strconv.ParseUint of one digit in base 16. */
  function HexValue(c: Byte): Option<nat> {
    if 48 <= c <= 57 then Some(c - 48)
    else if 65 <= c <= 70 then Some(c - 55)
    else if 97 <= c <= 102 then Some(c - 87)
    else None
  }

  function HexByte(hi: Byte, lo: Byte): Option<Byte> {
    match (HexValue(hi), HexValue(lo))
    case (Some(h), Some(l)) => if h < 16 && l < 16 then Some(16 * h + l) else None
    case _ => None
  }

  /** The byte that `s` starts with in percent form, if it does. */
  function Escaped(s: Bytes): Option<Byte> {
    if |s| > 2 && s[0] == PERCENT then HexByte(s[1], s[2]) else None
  }

  /** What a percent-encoded message says. */
  function Decoded(s: Bytes): Bytes
    decreases |s|
  {
    if s == [] then []
    else
      match Escaped(s)
      case Some(b) => [b] + Decoded(s[3..])
      case None => [s[0]] + Decoded(s[1..])
  }

  lemma EscapeRoundTrip(b: Byte, x: Bytes)
    ensures Escaped(Escape(b) + x) == Some(b) && (Escape(b) + x)[3..] == x
  {
  }

  lemma DecodesByte(b: Byte, x: Bytes)
    ensures Decoded(EncodeByte(b) + x) == [b] + Decoded(x)
  {
    if IsPlain(b) {
      assert ([b] + x)[1..] == x;
    } else {
      EscapeRoundTrip(b, x);
    }
  }

  lemma {:induction false} DecodesAll(s: Bytes)
    ensures Decoded(Encoded(s)) == s
  {
    if s != [] {
      DecodesByte(s[0], Encoded(s[1..]));
      DecodesAll(s[1..]);
    }
  }

  lemma {:induction false} EncodedConcat(a: Bytes, b: Bytes)
    ensures Encoded(a + b) == Encoded(a) + Encoded(b)
  {
    if a == [] {
      Emptys(b);
    } else {
      assert (a + b)[1..] == a[1..] + b;
      EncodedConcat(a[1..], b);
      Assoc(EncodeByte(a[0]), Encoded(a[1..]), Encoded(b));
    }
  }

  /** The output is printable ASCII. */
  lemma {:induction false} EncodedIsPrintable(s: Bytes)
    ensures forall i :: 0 <= i < |Encoded(s)| ==> 32 <= Encoded(s)[i] <= 126
  {
    if s != [] {
      EncodedIsPrintable(s[1..]);
    }
  }

  lemma {:induction false} PlainEncodesAsItself(s: Bytes)
    requires forall i :: 0 <= i < |s| ==> IsPlain(s[i])
    ensures Encoded(s) == s
  {
    if s != [] {
      PlainEncodesAsItself(s[1..]);
    }
  }

  lemma {:induction false} PlainIsUtf8(s: Bytes)
    requires forall i :: 0 <= i < |s| ==> IsPlain(s[i])
    ensures Utf8(s)
  {
    if s != [] {
      PlainIsUtf8(s[1..]);
    }
  }

  lemma {:induction false} NothingToDecode(s: Bytes)
    requires forall i :: 0 <= i < |s| - 2 ==> s[i] != PERCENT
    ensures Decoded(s) == s
  {
    if s != [] {
      NothingToDecode(s[1..]);
    }
  }

  /** The round trip: a receiver reads the message that was sent, repaired; and so the message itself
      exactly when it was UTF-8. */
  lemma RoundTrip(s: Bytes)
    ensures Decoded(Encoded(Repaired(s))) == Repaired(s)
    ensures Decoded(Encoded(Repaired(s))) == s <==> Utf8(s)
  {
    DecodesAll(Repaired(s));
    RepairedExactly(s);
  }

  // ------------------------------------------------------------------
  // The forms of one byte
  // ------------------------------------------------------------------

  const HEX := "0123456789ABCDEF"

  const LOWER_HEX := "0123456789abcdef"

  /** A byte from space to tilde but for the percent sign stands for itself; any other is a percent sign and two
      upper-case digits. */
  lemma EncodedForm(b: Byte)
    ensures Encoded([b]) == if ' ' as int <= b <= '~' as int && b != '%' as int then [b]
                            else ['%' as int, HEX[b / 16] as int, HEX[b % 16] as int]
  {
    Emptys(EncodeByte(b));
    assert [b][1..] == [];
    HexIs(b / 16);
    HexIs(b % 16);
  }

  lemma HexIs(d: nat)
    requires d < 16
    ensures HexDigit(d) == HEX[d] as int
    ensures HexValue(HEX[d] as int) == Some(d) && HexValue(LOWER_HEX[d] as int) == Some(d)
  {
  }

  lemma HexPair(hi: Byte, lo: Byte, b: Byte)
    requires HexValue(hi) == Some(b / 16) && HexValue(lo) == Some(b % 16)
    ensures HexByte(hi, lo) == Some(b)
  {
  }

  /** Digits of an escape may be of either case. */
  lemma EitherCaseDecodes(b: Byte, hi: Byte, lo: Byte, x: Bytes)
    requires hi == HEX[b / 16] as int || hi == LOWER_HEX[b / 16] as int
    requires lo == HEX[b % 16] as int || lo == LOWER_HEX[b % 16] as int
    ensures Decoded(['%' as int, hi, lo] + x) == [b] + Decoded(x)
  {
    HexIs(b / 16);
    HexIs(b % 16);
    HexPair(hi, lo, b);
    EscapedDecodes(hi, lo, b, x);
  }

  lemma EscapedDecodes(hi: Byte, lo: Byte, b: Byte, x: Bytes)
    requires HexByte(hi, lo) == Some(b)
    ensures Decoded([PERCENT, hi, lo] + x) == [b] + Decoded(x)
  {
    var s := [PERCENT, hi, lo] + x;
    assert s[3..] == x;
  }

  /** A percent sign without two digits behind it stands for itself. */
  lemma MalformedStays(x: Bytes)
    requires |x| < 2 || (forall d :: 0 <= d < 16 ==> x[0] != HEX[d] as int && x[0] != LOWER_HEX[d] as int)
                     || (forall d :: 0 <= d < 16 ==> x[1] != HEX[d] as int && x[1] != LOWER_HEX[d] as int)
    ensures Decoded(['%' as int] + x) == ['%' as int] + Decoded(x)
  {
    var s: Bytes := ['%' as int] + x;
    assert s[1..] == x;
    if |x| >= 2 {
      NoHex(x[0]);
      NoHex(x[1]);
    }
  }

  lemma NoHex(c: Byte)
    ensures HexValue(c).None? <==> forall d :: 0 <= d < 16 ==> c != HEX[d] as int && c != LOWER_HEX[d] as int
  {
    if HexValue(c).Some? {
      var d := HexValue(c).value;
      assert d < 16 && (c == HEX[d] as int || c == LOWER_HEX[d] as int);
    }
  }

  // ------------------------------------------------------------------
  // The functions of the source
  // ------------------------------------------------------------------

  /** EncodeGrpcMessage: its early return for plain messages changes nothing. */
  method EncodeGrpcMessage(msg: Bytes) returns (r: Bytes)
    ensures r == Encoded(Repaired(msg))
  {
    if msg == [] {
      return [];
    }
    for i := 0 to |msg|
      invariant forall k :: 0 <= k < i ==> IsPlain(msg[k])
    {
      var c := msg[i];
      if !(c >= 32 && c <= 126 && c != PERCENT) {
        r := EncodeUnchecked(msg);
        return;
      }
    }
    PlainEncodesAsItself(msg);
    PlainIsUtf8(msg);
    RepairedExactly(msg);
    return msg;
  }

  /** encodeGrpcMessageUnchecked */
  method EncodeUnchecked(msg: Bytes) returns (sb: Bytes)
    ensures sb == Encoded(Repaired(msg))
  {
    var rest := msg;
    sb := [];
    Emptys(Encoded(Repaired(msg)));
    while |rest| > 0
      invariant sb + Encoded(Repaired(rest)) == Encoded(Repaired(msg))
      decreases |rest|
    {
      var (r, size) := DecodeRune(rest);
      RuneRoundTrip(rest);
      ghost var before := sb;
      var bytes := EncodeRune(r);
      NextRune(rest, bytes, size);
      Emptys(bytes);
      Emptys(before);
      for k := 0 to |bytes|
        invariant sb == before + Encoded(bytes[..k])
      {
        var b := bytes[k];
        NextByte(bytes, k);
        Assoc(before, Encoded(bytes[..k]), EncodeByte(b));
        if size > 1 {
          sb := sb + Escape(b);
          continue;
        }
        if b >= 32 && b <= 126 && b != PERCENT {
          sb := sb + [b];
        } else {
          sb := sb + Escape(b);
        }
      }
      Assoc(before, Encoded(bytes), Encoded(Repaired(rest[size..])));
      rest := rest[size..];
    }
    Emptys(sb);
  }

  lemma NextRune(rest: Bytes, bytes: Bytes, size: nat)
    requires rest != [] && size == DecodeRune(rest).1
    requires bytes == if RuneLength(rest) == 0 then REPLACEMENT else rest[..size]
    ensures Encoded(Repaired(rest)) == Encoded(bytes) + Encoded(Repaired(rest[size..]))
  {
    EncodedConcat(bytes, Repaired(rest[size..]));
  }

  lemma NextByte(bytes: Bytes, k: nat)
    requires k < |bytes|
    ensures Encoded(bytes[..k + 1]) == Encoded(bytes[..k]) + EncodeByte(bytes[k])
  {
    assert bytes[..k + 1] == bytes[..k] + [bytes[k]];
    EncodedConcat(bytes[..k], [bytes[k]]);
    assert [bytes[k]][1..] == [];
    Emptys(EncodeByte(bytes[k]));
  }

  /** DecodeGrpcMessage: its early return for messages without an escape changes nothing. */
  method DecodeGrpcMessage(msg: Bytes) returns (r: Bytes)
    ensures r == Decoded(msg)
  {
    if msg == [] {
      return [];
    }
    for i := 0 to |msg|
      invariant forall k :: 0 <= k < i && k < |msg| - 2 ==> msg[k] != PERCENT
    {
      if msg[i] == PERCENT && i + 2 < |msg| {
        r := DecodeUnchecked(msg);
        return;
      }
    }
    NothingToDecode(msg);
    return msg;
  }

  /** decodeGrpcMessageUnchecked */
  method DecodeUnchecked(msg: Bytes) returns (sb: Bytes)
    ensures sb == Decoded(msg)
  {
    sb := [];
    var i := 0;
    Emptys(msg);
    Emptys(Decoded(msg));
    while i < |msg|
      invariant 0 <= i <= |msg|
      invariant sb + Decoded(msg[i..]) == Decoded(msg)
    {
      var c := msg[i];
      DecodeNext(msg, i, sb);
      if c == PERCENT && i + 2 < |msg| {
        var parsed := HexByte(msg[i + 1], msg[i + 2]);
        if parsed.None? {
          sb := sb + [c];
        } else {
          sb := sb + [parsed.value];
          i := i + 2;
        }
      } else {
        sb := sb + [c];
      }
      i := i + 1;
    }
    Emptys(sb);
  }

  lemma DecodeNext(msg: Bytes, i: nat, sb: Bytes)
    requires i < |msg|
    ensures var e := Escaped(msg[i..]);
            && e == (if msg[i] == PERCENT && i + 2 < |msg| then HexByte(msg[i + 1], msg[i + 2]) else None)
            && sb + Decoded(msg[i..]) ==
               if e.Some? then sb + [e.value] + Decoded(msg[i + 3..]) else sb + [msg[i]] + Decoded(msg[i + 1..])
  {
    var s := msg[i..];
    DropDrop(msg, i, 1);
    if Escaped(s).Some? {
      DropDrop(msg, i, 3);
      Assoc(sb, [Escaped(s).value], Decoded(s[3..]));
    } else {
      Assoc(sb, [s[0]], Decoded(s[1..]));
    }
  }
}

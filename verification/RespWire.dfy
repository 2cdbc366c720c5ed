/** RESP2 values and their wire form (`example/resp/wire.go`). */
module RespWire {
  import opened Seqs
  import opened Decimal

  const CR: Byte := 13
  const LF: Byte := 10
  const PLUS: Byte := 43
  const MINUS: Byte := 45
  const COLON: Byte := 58
  const DOLLAR: Byte := 36
  const STAR: Byte := 42

  /** `Unknown` is a value whose type byte is none of RESP2's; the parser never makes one. */
  datatype Value =
    | Simple(str: Bytes)
    | Fault(str: Bytes)
    | Integer(i: int)
    | Bulk(str: Bytes)
    | BulkNull
    | Array(elems: seq<Value>)
    | ArrayNull
    | Unknown(tag: Byte)

  // ------------------------------------------------------------------
  // Printing
  // ------------------------------------------------------------------

  const CRLF: Bytes := [CR, LF]

  function Line(tag: Byte, body: Bytes): Bytes {
    [tag] + body + CRLF
  }

  function EncodeBulk(s: Bytes): Bytes {
    Line(DOLLAR, FormatInt(|s|)) + s + CRLF
  }

  const UNKNOWN_TYPE: Bytes := [117, 110, 107, 110, 111, 119, 110, 32, 118, 97, 108, 117, 101, 32, 116, 121, 112, 101]

  function Marshal(v: Value): Bytes {
    match v
    case Simple(s) => Line(PLUS, s)
    case Fault(s) => Line(MINUS, s)
    case Integer(i) => Line(COLON, FormatInt(i))
    case Bulk(s) => EncodeBulk(s)
    case BulkNull => Line(DOLLAR, FormatInt(-1))
    case Array(vs) => Line(STAR, FormatInt(|vs|)) + MarshalAll(vs)
    case ArrayNull => Line(STAR, FormatInt(-1))
    case Unknown(_) => Line(MINUS, UNKNOWN_TYPE)
  }

  function MarshalAll(vs: seq<Value>): Bytes {
    if vs == [] then [] else Marshal(vs[0]) + MarshalAll(vs[1..])
  }

  // ------------------------------------------------------------------
  // Parsing
  // ------------------------------------------------------------------

  datatype Parsed = Ok(v: Value, n: nat) | NeedMore | Malformed

  datatype ParsedAll = OkAll(vs: seq<Value>, n: nat) | NeedMoreAll | MalformedAll

  predicate BreakAt(b: Bytes, i: nat) {
    i + 2 <= |b| && b[i] == CR && b[i + 1] == LF
  }

  function BreakFrom(b: Bytes, i: nat): (r: Option<nat>)
    ensures r.Some? ==> i <= r.value && r.value + 2 <= |b|
    decreases |b| - i
  {
    if i + 2 > |b| then None
    else if BreakAt(b, i) then Some(i)
    else BreakFrom(b, i + 1)
  }

  /** bytes.Index(b, "\r\n") */
  function IndexCrlf(b: Bytes): (r: Option<nat>)
    ensures r.Some? ==> r.value + 2 <= |b|
  {
    BreakFrom(b, 0)
  }

  /** parseValue: one value off the front of `b`. */
  function Parse(b: Bytes): (r: Parsed)
    ensures r.Ok? ==> 3 <= r.n <= |b|
    decreases |b|, 0
  {
    if b == [] then NeedMore
    else if b[0] !in {PLUS, MINUS, COLON, DOLLAR, STAR} then Malformed
    else
      match IndexCrlf(b)
      case None => NeedMore
      case Some(i) =>
        var body := b[1..i];
        var n := i + 2;
        if b[0] == PLUS then Ok(Simple(body), n)
        else if b[0] == MINUS then Ok(Fault(body), n)
        else
          match ParseInt(body)
          case None => Malformed
          case Some(k) =>
            if b[0] == COLON then Ok(Integer(k), n)
            else if b[0] == DOLLAR then ParseBulk(b, n, k)
            else if k < 0 then Ok(ArrayNull, n)
            else
              InArray(n, ParseAll(b[n..], k))
  }

  function InArray(n: nat, all: ParsedAll): Parsed {
    match all
    case OkAll(vs, m) => Ok(Array(vs), n + m)
    case NeedMoreAll => NeedMore
    case MalformedAll => Malformed
  }

  function ParseBulk(b: Bytes, n: nat, size: int): (r: Parsed)
    requires 3 <= n <= |b|
    ensures r.Ok? ==> 3 <= r.n <= |b|
  {
    if size < 0 then Ok(BulkNull, n)
    else if |b| < n + size + 2 then NeedMore
    else if b[n + size] != CR || b[n + size + 1] != LF then Malformed
    else Ok(Bulk(b[n..n + size]), n + size + 2)
  }

  /** `count` values, one after the other. */
  function ParseAll(b: Bytes, count: nat): (r: ParsedAll)
    ensures r.OkAll? ==> r.n <= |b| && |r.vs| == count
    decreases |b|, 1, count
  {
    if count == 0 then OkAll([], 0)
    else
      match Parse(b)
      case NeedMore => NeedMoreAll
      case Malformed => MalformedAll
      case Ok(v, n) =>
        match ParseAll(b[n..], count - 1)
        case OkAll(vs, m) => OkAll([v] + vs, n + m)
        case NeedMoreAll => NeedMoreAll
        case MalformedAll => MalformedAll
  }

  // ------------------------------------------------------------------
  // The prefix law
  // ------------------------------------------------------------------

  lemma {:induction false} BreakFromIs(b: Bytes, i: nat)
    ensures match BreakFrom(b, i)
            case Some(k) => BreakAt(b, k) && forall j :: i <= j < k ==> !BreakAt(b, j)
            case None => forall j :: i <= j ==> !BreakAt(b, j)
    decreases |b| - i
  {
    if i + 2 <= |b| && !BreakAt(b, i) {
      BreakFromIs(b, i + 1);
    }
  }

  /** The first line break is where there is one and none before it. */
  lemma IndexIs(b: Bytes, i: nat)
    requires BreakAt(b, i) && forall k :: 0 <= k < i ==> !BreakAt(b, k)
    ensures IndexCrlf(b) == Some(i)
  {
    BreakFromIs(b, 0);
  }

  lemma CrlfStable(b: Bytes, x: Bytes)
    requires IndexCrlf(b).Some?
    ensures IndexCrlf(b + x) == IndexCrlf(b)
  {
    BreakFromIs(b, 0);
    forall k | 0 <= k <= IndexCrlf(b).value ensures BreakAt(b + x, k) == BreakAt(b, k) {
      assert (b + x)[k] == b[k] && (b + x)[k + 1] == b[k + 1];
    }
    IndexIs(b + x, IndexCrlf(b).value);
  }

  /** A verdict other than errNeedMore survives every extension of the buffer. */
  lemma {:induction false} ParseStable(b: Bytes, x: Bytes)
    requires !Parse(b).NeedMore?
    ensures Parse(b + x) == Parse(b)
    decreases |b|, 0
  {
    assert (b + x)[0] == b[0];
    if b[0] in {PLUS, MINUS, COLON, DOLLAR, STAR} {
      CrlfStable(b, x);
      var i := IndexCrlf(b).value;
      assert (b + x)[1..i] == b[1..i];
      var body := ParseInt(b[1..i]);
      if body.Some? && b[0] == DOLLAR {
        BulkStable(b, x, i + 2, body.value);
      }
      if body.Some? && b[0] == STAR && body.value >= 0 {
        assert (b + x)[i + 2..] == b[i + 2..] + x;
        ParseAllStable(b[i + 2..], x, body.value);
      }
    }
  }

  lemma BulkStable(b: Bytes, x: Bytes, n: nat, size: int)
    requires 3 <= n <= |b| && !ParseBulk(b, n, size).NeedMore?
    ensures ParseBulk(b + x, n, size) == ParseBulk(b, n, size)
  {
    if size >= 0 {
      assert (b + x)[n..n + size] == b[n..n + size];
    }
  }

  lemma {:induction false} ParseAllStable(b: Bytes, x: Bytes, count: nat)
    requires !ParseAll(b, count).NeedMoreAll?
    ensures ParseAll(b + x, count) == ParseAll(b, count)
    decreases |b|, 1, count
  {
    if count > 0 {
      ParseStable(b, x);
      if Parse(b).Ok? {
        var n := Parse(b).n;
        assert (b + x)[n..] == b[n..] + x;
        ParseAllStable(b[n..], x, count - 1);
      }
    }
  }

  /** A value says nothing until its last byte: every proper prefix of what it consumed needs more. */
  lemma PrefixNeedsMore(b: Bytes, k: nat)
    requires Parse(b).Ok? && k < Parse(b).n
    ensures Parse(b[..k]) == NeedMore
  {
    assert b[..k] + b[k..] == b;
    if !Parse(b[..k]).NeedMore? {
      ParseStable(b[..k], b[k..]);
    }
  }

  /** Parse, one kind of head line at a time. */
  lemma ParseOneLine(b: Bytes, i: nat)
    requires IndexCrlf(b) == Some(i) && (b[0] == PLUS || b[0] == MINUS)
    ensures Parse(b) == Ok(if b[0] == PLUS then Simple(b[1..i]) else Fault(b[1..i]), i + 2)
  {
  }

  lemma ParseNumber(b: Bytes, i: nat, k: int)
    requires i > 0 && IndexCrlf(b) == Some(i) && b[0] in {COLON, DOLLAR} && ParseInt(b[1..i]) == Some(k)
    ensures Parse(b) == if b[0] == COLON then Ok(Integer(k), i + 2) else ParseBulk(b, i + 2, k)
  {
  }

  lemma ParseArray(b: Bytes, i: nat, k: int)
    requires i > 0 && IndexCrlf(b) == Some(i) && b[0] == STAR && ParseInt(b[1..i]) == Some(k)
    ensures Parse(b) ==
            if k < 0 then Ok(ArrayNull, i + 2) else InArray(i + 2, ParseAll(b[i + 2..], k))
  {
  }

  lemma DropTake(b: Bytes, n: nat, k: nat)
    requires n <= k <= |b|
    ensures b[..k][n..] == b[n..][..k - n]
  {
  }

  lemma ArrayGoesOn(c: Bytes, i: nat, k: int)
    requires i > 0 && IndexCrlf(c) == Some(i) && c[0] == STAR && ParseInt(c[1..i]) == Some(k)
    requires k < 0 || !ParseAll(c[i + 2..], k).NeedMoreAll?
    ensures !Parse(c).NeedMore?
  {
  }

  lemma AllGoOn(c: Bytes, n: nat, count: nat)
    requires count > 0 && Parse(c).Ok? && Parse(c).n == n && !ParseAll(c[n..], count - 1).NeedMoreAll?
    ensures !ParseAll(c, count).NeedMoreAll?
  {
  }

  lemma {:induction false} ConsumedOk(b: Bytes, k: nat)
    requires Parse(b).Ok? && Parse(b).n <= k <= |b|
    ensures !Parse(b[..k]).NeedMore?
    decreases |b|, 0, 0
  {
    var c := b[..k];
    var i := IndexCrlf(b).value;
    LineOf(b);
    CrlfCut(b, k);
    assert c[1..i] == b[1..i];
    if b[0] == PLUS || b[0] == MINUS {
      ParseOneLine(c, i);
    } else {
      var body := ParseInt(b[1..i]).value;
      if b[0] == STAR {
        ParseArray(b, i, body);
        if body >= 0 {
          DropTake(b, i + 2, k);
          ConsumedAllOk(b[i + 2..], body, k - (i + 2));
        }
        ArrayGoesOn(c, i, body);
      } else {
        ParseNumber(b, i, body);
        ParseNumber(c, i, body);
      }
    }
  }

  lemma CrlfCut(b: Bytes, k: nat)
    requires IndexCrlf(b).Some? && IndexCrlf(b).value + 2 <= k <= |b|
    ensures IndexCrlf(b[..k]) == IndexCrlf(b)
  {
    BreakFromIs(b, 0);
    forall j | 0 <= j <= IndexCrlf(b).value ensures BreakAt(b[..k], j) == BreakAt(b, j) {
      assert b[..k][j] == b[j] && b[..k][j + 1] == b[j + 1];
    }
    IndexIs(b[..k], IndexCrlf(b).value);
  }

  lemma LineOf(b: Bytes)
    requires Parse(b).Ok?
    ensures IndexCrlf(b).Some? && 1 <= IndexCrlf(b).value && IndexCrlf(b).value + 2 <= Parse(b).n
  {
  }

  /** The result depends on the consumed bytes alone. */
  lemma {:induction false} ParseConsumed(b: Bytes, k: nat)
    requires Parse(b).Ok? && Parse(b).n <= k <= |b|
    ensures Parse(b[..k]) == Parse(b)
    decreases |b|, 0, 1
  {
    ConsumedOk(b, k);
    ParseStable(b[..k], b[k..]);
    assert b[..k] + b[k..] == b;
  }

  lemma {:induction false} ConsumedAllOk(b: Bytes, count: nat, k: nat)
    requires ParseAll(b, count).OkAll? && ParseAll(b, count).n <= k <= |b|
    ensures !ParseAll(b[..k], count).NeedMoreAll?
    decreases |b|, 1, count
  {
    if count > 0 {
      var n := Parse(b).n;
      ParseAllCons(b, count);
      ParseConsumed(b, k);
      ConsumedAllOk(b[n..], count - 1, k - n);
      DropTake(b, n, k);
      AllGoOn(b[..k], n, count);
    }
  }

  // ------------------------------------------------------------------
  // Round trip
  // ------------------------------------------------------------------

  /** What a wire form can carry: no line break inside a one-line string, and, as every Go value
      has them, integers and lengths of 64 bits. */
  predicate Clean(v: Value) {
    match v
    case Simple(s) => IndexCrlf(s).None?
    case Fault(s) => IndexCrlf(s).None?
    case Integer(i) => IsInt64(i)
    case Bulk(s) => |s| <= MAX_INT64
    case BulkNull => true
    case Array(vs) => |vs| <= MAX_INT64 && AllClean(vs)
    case ArrayNull => true
    case Unknown(_) => false
  }

  predicate AllClean(vs: seq<Value>) {
    vs == [] || (Clean(vs[0]) && AllClean(vs[1..]))
  }

  lemma LineEnd(tag: Byte, body: Bytes, x: Bytes)
    requires tag != CR && IndexCrlf(body).None?
    ensures IndexCrlf(Line(tag, body) + x) == Some(1 + |body|)
    ensures (Line(tag, body) + x)[0] == tag && (Line(tag, body) + x)[1..1 + |body|] == body
    ensures (Line(tag, body) + x)[3 + |body|..] == x
  {
    var b := Line(tag, body) + x;
    var e := 1 + |body|;
    assert b == [tag] + body + CRLF + x;
    BreakFromIs(body, 0);
    forall k | 0 <= k < e ensures !BreakAt(b, k) {
      if 0 < k < e - 1 {
        assert !BreakAt(body, k - 1);
        assert b[k] == body[k - 1] && b[k + 1] == body[k];
      }
    }
    IndexIs(b, e);
  }

  lemma NumberHasNoBreak(i: int)
    ensures IndexCrlf(FormatInt(i)).None?
  {
    FormatIntBytes(i);
    BreakFromIs(FormatInt(i), 0);
  }

  /** A number on a line is read back, and what follows the line is left. */
  lemma NumberLine(tag: Byte, i: int, x: Bytes)
    requires tag in {PLUS, MINUS, COLON, DOLLAR, STAR} && IsInt64(i)
    ensures var b := Line(tag, FormatInt(i)) + x;
            var n := |Line(tag, FormatInt(i))|;
            && IndexCrlf(b) == Some(n - 2) && b[0] == tag
            && ParseInt(b[1..n - 2]) == Some(i) && b[n..] == x
  {
    NumberHasNoBreak(i);
    LineEnd(tag, FormatInt(i), x);
    IntRoundTrip(i);
  }

  lemma {:induction false} RoundTrip(v: Value, x: Bytes)
    requires Clean(v)
    ensures Parse(Marshal(v) + x) == Ok(v, |Marshal(v)|)
    decreases v, 0
  {
    match v
    case Simple(s) => LineRoundTrip(PLUS, s, x);
    case Fault(s) => LineRoundTrip(MINUS, s, x);
    case Integer(i) => NumberRoundTrip(COLON, i, x);
    case Bulk(s) => BulkRoundTrip(s, x);
    case BulkNull => NumberRoundTrip(DOLLAR, -1, x);
    case ArrayNull => NumberRoundTrip(STAR, -1, x);
    case Array(vs) =>
      AllRoundTrip(vs, x);
      ArrayRoundTrip(vs, MarshalAll(vs), x);
  }

  lemma LineRoundTrip(tag: Byte, s: Bytes, x: Bytes)
    requires (tag == PLUS || tag == MINUS) && IndexCrlf(s).None?
    ensures Parse(Line(tag, s) + x) == Ok(if tag == PLUS then Simple(s) else Fault(s), |Line(tag, s)|)
  {
    LineEnd(tag, s, x);
    ParseOneLine(Line(tag, s) + x, 1 + |s|);
  }

  lemma NumberRoundTrip(tag: Byte, i: int, x: Bytes)
    requires IsInt64(i) && (tag == COLON || (tag in {DOLLAR, STAR} && i < 0))
    ensures Parse(Line(tag, FormatInt(i)) + x)
         == Ok(if tag == COLON then Integer(i) else if tag == DOLLAR then BulkNull else ArrayNull,
               |Line(tag, FormatInt(i))|)
  {
    NumberLine(tag, i, x);
    var b := Line(tag, FormatInt(i)) + x;
    if tag == STAR {
      ParseArray(b, |Line(tag, FormatInt(i))| - 2, i);
    } else {
      ParseNumber(b, |Line(tag, FormatInt(i))| - 2, i);
    }
  }

  /** An array is its head line and its elements. */
  lemma ArrayOf(h: Bytes, rest: Bytes, count: nat)
    requires h == Line(STAR, FormatInt(count)) && count <= MAX_INT64
    ensures Parse(h + rest) == InArray(|h|, ParseAll(rest, count))
  {
    NumberLine(STAR, count, rest);
    ParseArray(h + rest, |h| - 2, count);
  }

  lemma ArrayRoundTrip(vs: seq<Value>, body: Bytes, x: Bytes)
    requires |vs| <= MAX_INT64 && ParseAll(body + x, |vs|) == OkAll(vs, |body|)
    ensures var b := Line(STAR, FormatInt(|vs|)) + body;
            Parse(b + x) == Ok(Array(vs), |b|)
  {
    var h := Line(STAR, FormatInt(|vs|));
    ArrayOf(h, body + x, |vs|);
    Assoc(h, body, x);
  }

  lemma BulkBody(h: Bytes, s: Bytes, x: Bytes)
    requires |h| >= 3
    ensures ParseBulk(h + (s + CRLF + x), |h|, |s|) == Ok(Bulk(s), |h| + |s| + 2)
  {
    var b := h + (s + CRLF + x);
    assert b[|h|..|h| + |s|] == s;
    assert b[|h| + |s|] == (s + CRLF + x)[|s|] && b[|h| + |s| + 1] == (s + CRLF + x)[|s| + 1];
  }

  lemma BulkRoundTrip(s: Bytes, x: Bytes)
    requires |s| <= MAX_INT64
    ensures Parse(EncodeBulk(s) + x) == Ok(Bulk(s), |EncodeBulk(s)|)
  {
    var h := Line(DOLLAR, FormatInt(|s|));
    Assoc(h, s, CRLF);
    Assoc(h, s + CRLF, x);
    NumberLine(DOLLAR, |s|, s + CRLF + x);
    BulkBody(h, s, x);
    ParseNumber(h + (s + CRLF + x), |h| - 2, |s|);
  }

  function Joined(vs: seq<Value>, off: nat, rest: ParsedAll): ParsedAll {
    match rest
    case OkAll(ws, m) => OkAll(vs + ws, off + m)
    case NeedMoreAll => NeedMoreAll
    case MalformedAll => MalformedAll
  }

  lemma ParseAllCons(b: Bytes, count: nat)
    requires count > 0 && Parse(b).Ok?
    ensures ParseAll(b, count) == Joined([Parse(b).v], Parse(b).n, ParseAll(b[Parse(b).n..], count - 1))
  {
  }

  lemma StopElement(b: Bytes, left: nat)
    requires left > 0 && !Parse(b).Ok?
    ensures ParseAll(b, left) == if Parse(b).NeedMore? then NeedMoreAll else MalformedAll
  {
  }

  lemma OneMore(head: Bytes, tail: Bytes, x: Bytes, v: Value, vs: seq<Value>)
    requires Parse(head + (tail + x)) == Ok(v, |head|) && ParseAll(tail + x, |vs|) == OkAll(vs, |tail|)
    ensures ParseAll(head + tail + x, |vs| + 1) == OkAll([v] + vs, |head + tail|)
  {
    Assoc(head, tail, x);
    Seam(head, tail + x);
    ParseAllCons(head + (tail + x), |vs| + 1);
  }

  lemma {:induction false} AllRoundTrip(vs: seq<Value>, x: Bytes)
    requires AllClean(vs)
    ensures ParseAll(MarshalAll(vs) + x, |vs|) == OkAll(vs, |MarshalAll(vs)|)
    decreases vs, 1
  {
    if vs != [] {
      var v, rest := vs[0], vs[1..];
      RoundTrip(v, MarshalAll(rest) + x);
      AllRoundTrip(rest, x);
      OneMore(Marshal(v), MarshalAll(rest), x, v, rest);
      assert [v] + rest == vs;
    }
  }

  lemma BodyHasNoBreak(b: Bytes)
    requires IndexCrlf(b).Some? && IndexCrlf(b).value >= 1
    ensures IndexCrlf(b[1..IndexCrlf(b).value]).None?
  {
    var body := b[1..IndexCrlf(b).value];
    BreakFromIs(b, 0);
    BreakFromIs(body, 0);
    forall k: nat | k + 2 <= |body| ensures !BreakAt(body, k) {
      assert body[k] == b[k + 1] && body[k + 1] == b[k + 2];
      assert !BreakAt(b, k + 1);
    }
  }

  lemma {:induction false} ParsedIsClean(b: Bytes)
    requires Parse(b).Ok? && |b| <= MAX_INT64
    ensures Clean(Parse(b).v)
    decreases |b|, 0
  {
    var i := IndexCrlf(b).value;
    var body := b[1..i];
    BodyHasNoBreak(b);
    if b[0] == STAR && ParseInt(body).value >= 0 {
      AllParsedClean(b[i + 2..], ParseInt(body).value);
    }
  }

  lemma {:induction false} AllParsedClean(b: Bytes, count: nat)
    requires ParseAll(b, count).OkAll? && |b| <= MAX_INT64
    ensures AllClean(ParseAll(b, count).vs)
    decreases |b|, 1, count
  {
    if count > 0 {
      ParsedIsClean(b);
      AllParsedClean(b[Parse(b).n..], count - 1);
      assert ParseAll(b, count).vs[1..] == ParseAll(b[Parse(b).n..], count - 1).vs;
    }
  }

  /** A value comes back from the wire, whatever follows it there, exactly when it is clean. */
  lemma RoundTripExactly(v: Value)
    requires |Marshal(v)| <= MAX_INT64
    ensures Clean(v) <==> Parse(Marshal(v)) == Ok(v, |Marshal(v)|)
    ensures Clean(v) ==> forall x :: Parse(Marshal(v) + x) == Ok(v, |Marshal(v)|)
  {
    if Clean(v) {
      RoundTrip(v, []);
      assert Marshal(v) + [] == Marshal(v);
      forall x ensures Parse(Marshal(v) + x) == Ok(v, |Marshal(v)|) {
        RoundTrip(v, x);
      }
    } else if Parse(Marshal(v)) == Ok(v, |Marshal(v)|) {
      ParsedIsClean(Marshal(v));
    }
  }

  /** Printing what was parsed is a canonical form: it parses to the same value, and printing again changes nothing. */
  lemma PrintIsCanonical(b: Bytes)
    requires Parse(b).Ok? && |b| <= MAX_INT64
    ensures var p := Marshal(Parse(b).v);
            Parse(p) == Ok(Parse(b).v, |p|) && Marshal(Parse(p).v) == p
  {
    ParsedIsClean(b);
    RoundTrip(Parse(b).v, []);
    assert Marshal(Parse(b).v) + [] == Marshal(Parse(b).v);
  }

  /** No clean value's wire form is a proper prefix of another's. */
  lemma PrefixFree(v: Value, w: Value)
    requires Clean(v) && Clean(w) && Marshal(v) <= Marshal(w)
    ensures v == w
  {
    var x := Marshal(w)[|Marshal(v)|..];
    assert Marshal(v) + x == Marshal(w) == Marshal(w) + [];
    RoundTrip(v, x);
    RoundTrip(w, []);
  }

  // ------------------------------------------------------------------
  // The format, on the bytes
  // ------------------------------------------------------------------

  /** The first line break of `b` is at `i`. */
  ghost predicate FirstBreak(b: Bytes, i: int) {
    && 0 <= i && i + 2 <= |b| && b[i] == '\r' as int && b[i + 1] == '\n' as int
    && forall j :: 0 <= j < i ==> !(b[j] == '\r' as int && b[j + 1] == '\n' as int)
  }

  /** The first line is `tag` and a numeral for `k`, and breaks at `i`. */
  ghost predicate Headed(b: Bytes, tag: char, i: int, k: int) {
    b != [] && b[0] == tag as int && i >= 1 && FirstBreak(b, i) && Denotes(b[1..i], k)
  }

  /** The first line is `tag` and a negative length. */
  ghost predicate HeadedNull(b: Bytes, tag: char, i: int) {
    exists k :: k < 0 && Headed(b, tag, i, k)
  }

  /** The first `n` bytes of `b` are a form of `v`. */
  ghost predicate Reads(b: Bytes, v: Value, n: nat)
    decreases v, 0
  {
    && b != [] && 3 <= n <= |b|
    && match v
       case Simple(s) => b[0] == '+' as int && FirstBreak(b, n - 2) && s == b[1..n - 2]
       case Fault(s) => b[0] == '-' as int && FirstBreak(b, n - 2) && s == b[1..n - 2]
       case Integer(k) => Headed(b, ':', n - 2, k)
       case BulkNull => HeadedNull(b, '$', n - 2)
       case ArrayNull => HeadedNull(b, '*', n - 2)
       case Bulk(s) =>
         var i := n - |s| - 4;
         && Headed(b, '$', i, |s|) && b[i + 2..n - 2] == s
         && b[n - 2] == '\r' as int && b[n - 1] == '\n' as int
       case Array(vs) => exists i :: Headed(b, '*', i, |vs|) && i + 2 <= n && ReadsAll(b[i + 2..], vs, n - (i + 2))
       case Unknown(_) => false
  }

  /** The first `n` bytes of `b` are forms of `vs`, one behind the other. */
  ghost predicate ReadsAll(b: Bytes, vs: seq<Value>, n: nat)
    decreases vs, 1
  {
    if vs == [] then n == 0
    else exists m: nat :: m <= n && m <= |b| && Reads(b, vs[0], m) && ReadsAll(b[m..], vs[1..], n - m)
  }

  /** The first line is complete, and its body is no numeral. */
  ghost predicate NoNumeral(b: Bytes) {
    exists i :: i >= 1 && FirstBreak(b, i) && forall k :: !Denotes(b[1..i], k)
  }

  /** A bulk string is all there, without its line break. */
  ghost predicate NoBreakBehind(b: Bytes) {
    exists i, k ::
      && Headed(b, '$', i, k) && k >= 0 && i + k + 4 <= |b|
      && !(b[i + k + 2] == '\r' as int && b[i + k + 3] == '\n' as int)
  }

  /** No bytes behind `b` can make a value of what it starts with: its first byte is none of the five; its first
      line is a number or a length and is no 64-bit numeral; a bulk string is all there without its line break;
      or the elements of an array come to such a place, all before it being values. */
  ghost predicate Broken(b: Bytes)
    decreases |b|, 1
  {
    && b != []
    && (|| b[0] !in {'+' as int, '-' as int, ':' as int, '$' as int, '*' as int}
        || (b[0] in {':' as int, '$' as int, '*' as int} && NoNumeral(b))
        || NoBreakBehind(b)
        || BrokenInside(b))
  }

  ghost predicate BrokenInside(b: Bytes)
    decreases |b|, 0
  {
    exists i, k :: Headed(b, '*', i, k) && k >= 0 && BrokenElement(b[i + 2..], k)
  }

  /** One of `count` elements is broken, all before it being values. */
  ghost predicate BrokenElement(b: Bytes, count: nat)
    decreases |b|, 2
  {
    exists vs, m: nat :: |vs| < count && m <= |b| && ReadsAll(b, vs, m) && Broken(b[m..])
  }

  lemma BreakIs(b: Bytes, i: int)
    ensures FirstBreak(b, i) <==> i >= 0 && IndexCrlf(b) == Some(i)
  {
    BreakFromIs(b, 0);
    forall k | 0 <= k && k + 2 <= |b|
      ensures BreakAt(b, k) <==> b[k] == '\r' as int && b[k + 1] == '\n' as int
    {
    }
    if FirstBreak(b, i) {
      IndexIs(b, i);
    }
  }

  /** A complete head line with a numeral is the one Parse sees. */
  lemma HeadedIs(b: Bytes, tag: char, i: int, k: int)
    requires tag == ':' || tag == '$' || tag == '*'
    ensures Headed(b, tag, i, k) <==>
              b != [] && b[0] == tag as int && i >= 1 && IndexCrlf(b) == Some(i) && ParseInt(b[1..i]) == Some(k)
  {
    BreakIs(b, i);
    if b != [] && b[0] == tag as int && i >= 1 && i + 2 <= |b| {
      ParsesExactly(b[1..i], k);
    }
  }

  /** Parse gives a value and its length exactly when the buffer starts with a form of that value of that length. */
  lemma {:induction false} ReadsExactly(b: Bytes, v: Value, n: nat)
    ensures Parse(b) == Ok(v, n) <==> Reads(b, v, n)
    decreases v, 0
  {
    if b != [] && 3 <= n <= |b| {
      match v
      case Simple(_) => BreakIs(b, n - 2);
      case Fault(_) => BreakIs(b, n - 2);
      case Integer(k) => HeadedIs(b, ':', n - 2, k);
      case BulkNull => NullReads(b, '$', n);
      case ArrayNull => NullReads(b, '*', n);
      case Bulk(s) => BulkReads(b, s, n);
      case Array(vs) => ArrayReads(b, vs, n);
      case Unknown(_) =>
    }
  }

  /** The kind of a value is that of its first byte. */
  lemma ValueTag(b: Bytes)
    requires Parse(b).Ok?
    ensures var v := Parse(b).v;
            && (v.Bulk? || v.BulkNull? ==> b[0] == DOLLAR)
            && (v.Array? || v.ArrayNull? ==> b[0] == STAR)
  {
  }

  /** A number or a length that is not there, or is none. */
  lemma ParseStops(b: Bytes)
    requires b != [] && b[0] in {COLON, DOLLAR, STAR}
    ensures IndexCrlf(b).None? ==> Parse(b) == NeedMore
    ensures IndexCrlf(b).Some? && IndexCrlf(b).value >= 1 && ParseInt(b[1..IndexCrlf(b).value]).None? ==>
              Parse(b) == Malformed
  {
  }

  lemma BreakBehindTag(b: Bytes)
    requires b != [] && b[0] != CR && IndexCrlf(b).Some?
    ensures IndexCrlf(b).value >= 1
  {
    BreakFromIs(b, 0);
  }

  lemma HeadedNullIs(b: Bytes, tag: char, i: int)
    requires b != [] && (tag == '$' || tag == '*')
    ensures HeadedNull(b, tag, i) <==>
              && b[0] == tag as int && i >= 1 && IndexCrlf(b) == Some(i)
              && ParseInt(b[1..i]).Some? && ParseInt(b[1..i]).value < 0
  {
    forall k ensures Headed(b, tag, i, k) <==>
                       b[0] == tag as int && i >= 1 && IndexCrlf(b) == Some(i) && ParseInt(b[1..i]) == Some(k) {
      HeadedIs(b, tag, i, k);
    }
  }

  lemma NullReads(b: Bytes, tag: char, n: nat)
    requires b != [] && 3 <= n <= |b| && (tag == '$' || tag == '*')
    ensures Parse(b) == Ok(if tag == '$' then BulkNull else ArrayNull, n) <==> HeadedNull(b, tag, n - 2)
  {
    HeadedNullIs(b, tag, n - 2);
    if Parse(b).Ok? {
      ValueTag(b);
    }
    if b[0] == tag as int {
      ParseStops(b);
      if IndexCrlf(b).Some? {
        BreakBehindTag(b);
        var i := IndexCrlf(b).value;
        if ParseInt(b[1..i]).Some? {
          TaggedIs(b, i, ParseInt(b[1..i]).value);
        }
      }
    }
  }

  lemma TaggedIs(b: Bytes, i: nat, k: int)
    requires i > 0 && IndexCrlf(b) == Some(i) && b[0] in {DOLLAR, STAR} && ParseInt(b[1..i]) == Some(k)
    ensures Parse(b) == if b[0] == DOLLAR then ParseBulk(b, i + 2, k)
                        else if k < 0 then Ok(ArrayNull, i + 2)
                        else InArray(i + 2, ParseAll(b[i + 2..], k))
  {
    if b[0] == DOLLAR {
      ParseNumber(b, i, k);
    } else {
      ParseArray(b, i, k);
    }
  }

  lemma BulkReads(b: Bytes, s: Bytes, n: nat)
    requires b != [] && 3 <= n <= |b|
    ensures Parse(b) == Ok(Bulk(s), n) <==> Reads(b, Bulk(s), n)
  {
    HeadedIs(b, '$', n - |s| - 4, |s|);
  }

  lemma HeadedAll(b: Bytes, tag: char)
    requires b != [] && (tag == ':' || tag == '$' || tag == '*')
    ensures forall i, k :: Headed(b, tag, i, k) <==>
                             b[0] == tag as int && i >= 1 && IndexCrlf(b) == Some(i) && ParseInt(b[1..i]) == Some(k)
  {
    forall i, k
      ensures Headed(b, tag, i, k) <==>
                b[0] == tag as int && i >= 1 && IndexCrlf(b) == Some(i) && ParseInt(b[1..i]) == Some(k)
    {
      HeadedIs(b, tag, i, k);
    }
  }

  lemma ArrayFormIs(b: Bytes, vs: seq<Value>, n: nat, i: nat, k: int)
    requires i > 0 && IndexCrlf(b) == Some(i) && ParseInt(b[1..i]) == Some(k) && 3 <= n <= |b|
    ensures Reads(b, Array(vs), n) <==>
              b[0] == STAR && k == |vs| && i + 2 <= n && ReadsAll(b[i + 2..], vs, n - (i + 2))
  {
    HeadedAll(b, '*');
    assert b[0] == STAR ==> Headed(b, '*', i, k);
  }

  lemma ArrayParseIs(b: Bytes, vs: seq<Value>, n: nat, i: nat, k: int)
    requires i > 0 && IndexCrlf(b) == Some(i) && ParseInt(b[1..i]) == Some(k) && b[0] == STAR
    ensures Parse(b) == Ok(Array(vs), n) <==>
              k == |vs| && i + 2 <= n && ParseAll(b[i + 2..], k) == OkAll(vs, n - (i + 2))
  {
    TaggedIs(b, i, k);
  }

  lemma NoArray(b: Bytes, vs: seq<Value>, n: nat)
    requires b != []
    requires b[0] != STAR || IndexCrlf(b).None? || ParseInt(b[1..IndexCrlf(b).value]).None?
    requires b[0] == STAR && IndexCrlf(b).Some? ==> IndexCrlf(b).value >= 1
    ensures Parse(b) != Ok(Array(vs), n) && !Reads(b, Array(vs), n)
  {
    HeadedAll(b, '*');
    if b[0] == STAR {
      ParseStops(b);
    } else if Parse(b).Ok? {
      ValueTag(b);
    }
  }

  lemma ArrayReads(b: Bytes, vs: seq<Value>, n: nat)
    requires b != [] && 3 <= n <= |b|
    ensures Parse(b) == Ok(Array(vs), n) <==> Reads(b, Array(vs), n)
    decreases vs, 2
  {
    if b[0] == STAR && IndexCrlf(b).Some? {
      BreakBehindTag(b);
    }
    if b[0] == STAR && IndexCrlf(b).Some? && ParseInt(b[1..IndexCrlf(b).value]).Some? {
      var i := IndexCrlf(b).value;
      ArrayFormIs(b, vs, n, i, ParseInt(b[1..i]).value);
      ArrayParseIs(b, vs, n, i, ParseInt(b[1..i]).value);
      if i + 2 <= n {
        AllReads(b[i + 2..], vs, n - (i + 2));
      }
    } else {
      NoArray(b, vs, n);
    }
  }

  /** The elements behind the first, when that is there. */
  ghost predicate ReadsRest(b: Bytes, vs: seq<Value>, n: nat) {
    && vs != [] && Parse(b).Ok? && Parse(b).v == vs[0] && Parse(b).n <= n
    && ReadsAll(b[Parse(b).n..], vs[1..], n - Parse(b).n)
  }

  lemma ReadsCons(b: Bytes, vs: seq<Value>, n: nat)
    requires vs != []
    ensures ReadsAll(b, vs, n) <==> ReadsRest(b, vs, n)
    decreases vs, 0
  {
    forall m: nat ensures Parse(b) == Ok(vs[0], m) <==> Reads(b, vs[0], m) {
      ReadsExactly(b, vs[0], m);
    }
  }

  ghost predicate ParsesRest(b: Bytes, vs: seq<Value>, n: nat)
    requires vs != []
  {
    && Parse(b).Ok? && Parse(b).v == vs[0] && Parse(b).n <= n
    && ParseAll(b[Parse(b).n..], |vs| - 1) == OkAll(vs[1..], n - Parse(b).n)
  }

  lemma ParseAllIs(b: Bytes, vs: seq<Value>, n: nat)
    requires vs != []
    ensures ParseAll(b, |vs|) == OkAll(vs, n) <==> ParsesRest(b, vs, n)
  {
    if Parse(b).Ok? {
      ParseAllCons(b, |vs|);
      assert [vs[0]] + vs[1..] == vs;
    } else {
      StopElement(b, |vs|);
    }
  }

  lemma NoneReads(b: Bytes, n: nat)
    ensures ParseAll(b, 0) == OkAll([], n) <==> ReadsAll(b, [], n)
  {
  }

  lemma RestReads(b: Bytes, vs: seq<Value>, n: nat)
    requires vs != []
    ensures ParsesRest(b, vs, n) <==> ReadsRest(b, vs, n)
    decreases vs, 0
  {
    if Parse(b).Ok? && Parse(b).n <= n {
      AllReads(b[Parse(b).n..], vs[1..], n - Parse(b).n);
    }
  }

  lemma {:induction false} AllReads(b: Bytes, vs: seq<Value>, n: nat)
    ensures ParseAll(b, |vs|) == OkAll(vs, n) <==> ReadsAll(b, vs, n)
    decreases vs, 1
  {
    if vs == [] {
      NoneReads(b, n);
    } else {
      ReadsCons(b, vs, n);
      ParseAllIs(b, vs, n);
      RestReads(b, vs, n);
    }
  }

  lemma NoNumeralIs(b: Bytes)
    requires b != [] && b[0] in {COLON, DOLLAR, STAR}
    ensures NoNumeral(b) <==> IndexCrlf(b).Some? && ParseInt(b[1..IndexCrlf(b).value]).None?
  {
    forall i ensures FirstBreak(b, i) <==> i >= 0 && IndexCrlf(b) == Some(i) {
      BreakIs(b, i);
    }
    if IndexCrlf(b).Some? {
      BreakBehindTag(b);
      var body := b[1..IndexCrlf(b).value];
      forall k ensures ParseInt(body) == Some(k) <==> Denotes(body, k) {
        ParsesExactly(body, k);
      }
      assert ParseInt(body).Some? ==> Denotes(body, ParseInt(body).value);
      assert FirstBreak(b, IndexCrlf(b).value);
    }
  }

  lemma OtherByteIs(b: Bytes)
    requires b != [] && b[0] !in {COLON, DOLLAR, STAR}
    ensures Broken(b) <==> b[0] != PLUS && b[0] != MINUS
    ensures Parse(b).Malformed? <==> b[0] != PLUS && b[0] != MINUS
  {
  }

  /** Parse calls a buffer malformed exactly when it is broken. */
  lemma {:induction false} MalformedExactly(b: Bytes)
    ensures Parse(b).Malformed? <==> Broken(b)
    decreases |b|, 1
  {
    if b != [] {
      if b[0] in {COLON, DOLLAR, STAR} {
        NumberedMalformed(b);
      } else {
        OtherByteIs(b);
      }
    }
  }

  lemma NoBreakBehindIs(b: Bytes, i: nat, k: int)
    requires i > 0 && IndexCrlf(b) == Some(i) && ParseInt(b[1..i]) == Some(k)
    ensures NoBreakBehind(b) <==>
              && b[0] == DOLLAR && k >= 0 && i + k + 4 <= |b|
              && !(b[i + k + 2] == CR && b[i + k + 3] == LF)
  {
    HeadedAll(b, '$');
    assert b[0] == DOLLAR ==> Headed(b, '$', i, k);
  }

  lemma BrokenInsideIs(b: Bytes, i: nat, k: int)
    requires i > 0 && IndexCrlf(b) == Some(i) && ParseInt(b[1..i]) == Some(k)
    ensures BrokenInside(b) <==> b[0] == STAR && k >= 0 && BrokenElement(b[i + 2..], k)
  {
    HeadedAll(b, '*');
    assert b[0] == STAR ==> Headed(b, '*', i, k);
  }

  /** With a numeral on its first line, a buffer is broken by what is behind. */
  lemma BrokenBehind(b: Bytes, i: nat, k: int)
    requires i > 0 && IndexCrlf(b) == Some(i) && b[0] in {COLON, DOLLAR, STAR} && ParseInt(b[1..i]) == Some(k)
    ensures Broken(b) <==> NoBreakBehind(b) || BrokenInside(b)
  {
    NoNumeralIs(b);
  }

  lemma BrokenHead(b: Bytes)
    requires b != [] && b[0] in {COLON, DOLLAR, STAR}
    ensures IndexCrlf(b).None? ==> !Broken(b)
    ensures IndexCrlf(b).Some? && ParseInt(b[1..IndexCrlf(b).value]).None? ==> Broken(b)
  {
    NoNumeralIs(b);
    HeadedAll(b, '$');
    HeadedAll(b, '*');
  }

  lemma NumberedMalformed(b: Bytes)
    requires b != [] && b[0] in {COLON, DOLLAR, STAR}
    ensures Parse(b).Malformed? <==> Broken(b)
    decreases |b|, 0
  {
    BrokenHead(b);
    ParseStops(b);
    if IndexCrlf(b).Some? {
      BreakBehindTag(b);
      var i := IndexCrlf(b).value;
      if ParseInt(b[1..i]).Some? {
        var k := ParseInt(b[1..i]).value;
        BrokenBehind(b, i, k);
        NoBreakBehindIs(b, i, k);
        BrokenInsideIs(b, i, k);
        if b[0] == COLON {
          ParseNumber(b, i, k);
        } else {
          TaggedIs(b, i, k);
          if b[0] == STAR && k >= 0 {
            ElementMalformed(b[i + 2..], k);
          }
        }
      }
    }
  }

  lemma {:induction false} ElementMalformed(b: Bytes, count: nat)
    ensures ParseAll(b, count).MalformedAll? <==> BrokenElement(b, count)
    decreases |b|, 2, count
  {
    if count > 0 {
      MalformedExactly(b);
      if Parse(b).Ok? {
        var n := Parse(b).n;
        ParseAllCons(b, count);
        ElementMalformed(b[n..], count - 1);
        BrokenFurther(b, count);
      } else {
        StopElement(b, count);
        BrokenHere(b, count);
      }
    }
  }

  lemma FirstIsValue(b: Bytes, vs: seq<Value>, m: nat)
    requires ReadsAll(b, vs, m)
    ensures vs == [] ==> m == 0
    ensures vs != [] ==> ReadsRest(b, vs, m)
  {
    if vs != [] {
      ReadsCons(b, vs, m);
    }
  }

  /** The first element is no value: it is broken or not. */
  lemma BrokenHere(b: Bytes, count: nat)
    requires count > 0 && !Parse(b).Ok?
    ensures BrokenElement(b, count) <==> Broken(b)
  {
    Emptys(b);
    forall vs, m: nat | |vs| < count && m <= |b| && ReadsAll(b, vs, m) ensures m == 0 {
      FirstIsValue(b, vs, m);
    }
    if Broken(b) {
      assert ReadsAll(b, [], 0) && Broken(b[0..]);
    }
  }

  lemma BrokenBefore(b: Bytes, count: nat, vs: seq<Value>, m: nat)
    requires ReadsRest(b, vs, m) && |vs| < count && m <= |b| && Broken(b[m..])
    ensures BrokenElement(b[Parse(b).n..], count - 1)
  {
    var n := Parse(b).n;
    DropDrop(b, n, m - n);
    assert ReadsAll(b[n..], vs[1..], m - n) && Broken(b[n..][m - n..]);
  }

  lemma ReadsOneMore(b: Bytes, vs: seq<Value>, m: nat)
    requires Parse(b).Ok? && ReadsAll(b[Parse(b).n..], vs, m)
    ensures ReadsAll(b, [Parse(b).v] + vs, Parse(b).n + m)
  {
    var all := [Parse(b).v] + vs;
    assert all[1..] == vs;
    assert ReadsRest(b, all, Parse(b).n + m);
    ReadsCons(b, all, Parse(b).n + m);
  }

  lemma BrokenAfter(b: Bytes, count: nat, vs: seq<Value>, m: nat)
    requires Parse(b).Ok? && var c := b[Parse(b).n..];
             |vs| < count && m <= |c| && ReadsAll(c, vs, m) && Broken(c[m..])
    ensures BrokenElement(b, count + 1)
  {
    DropDrop(b, Parse(b).n, m);
    ReadsOneMore(b, vs, m);
    assert |[Parse(b).v] + vs| < count + 1;
  }

  /** The first element is a value: it is behind it. */
  lemma BrokenFurther(b: Bytes, count: nat)
    requires count > 0 && Parse(b).Ok? && !Broken(b)
    ensures BrokenElement(b, count) <==> BrokenElement(b[Parse(b).n..], count - 1)
  {
    var c := b[Parse(b).n..];
    if BrokenElement(b, count) {
      var vs, m: nat :| |vs| < count && m <= |b| && ReadsAll(b, vs, m) && Broken(b[m..]);
      Emptys(b);
      FirstIsValue(b, vs, m);
      BrokenBefore(b, count, vs, m);
    }
    if BrokenElement(c, count - 1) {
      var vs, m: nat :| |vs| < count - 1 && m <= |c| && ReadsAll(c, vs, m) && Broken(c[m..]);
      BrokenAfter(b, count - 1, vs, m);
    }
  }

  // ------------------------------------------------------------------
  // The loops of wire.go
  // ------------------------------------------------------------------

  /** parseValue */
  method ParseValue(b: Bytes) returns (r: Parsed)
    ensures r == Parse(b)
    decreases |b|, 0
  {
    if b == [] {
      return NeedMore;
    }
    if b[0] !in {PLUS, MINUS, COLON, DOLLAR, STAR} {
      return Malformed;
    }
    var line := IndexCrlf(b);
    if line.None? {
      return NeedMore;
    }
    var body, n := b[1..line.value], line.value + 2;
    if b[0] == PLUS {
      return Ok(Simple(body), n);
    }
    if b[0] == MINUS {
      return Ok(Fault(body), n);
    }
    var number := ParseInt(body);
    if number.None? {
      return Malformed;
    }
    if b[0] == COLON {
      return Ok(Integer(number.value), n);
    }
    if b[0] == DOLLAR {
      return ParseBulk(b, n, number.value);
    }
    if number.value < 0 {
      return Ok(ArrayNull, n);
    }
    ParseArray(b, n - 2, number.value);
    var all := ParseElements(b[n..], number.value);
    r := InArray(n, all);
  }

  /** One turn of the element loop: the element at `off`, and what it makes of the rest. */
  method ParseElement(b: Bytes, off: nat, ghost elems: seq<Value>, ghost left: nat) returns (el: Parsed)
    requires off <= |b| && left > 0
    ensures match el
            case Ok(v, n) => off + n <= |b| && Rest(b, off, elems, left) == Rest(b, off + n, elems + [v], left - 1)
            case NeedMore => Rest(b, off, elems, left) == NeedMoreAll
            case Malformed => Rest(b, off, elems, left) == MalformedAll
    decreases |b|, 1
  {
    el := ParseValue(b[off..]);
    if el.Ok? {
      NextElement(b, off, elems, el.v, el.n, left);
    } else {
      RestStops(b, off, elems, left);
    }
  }

  /** The element loop of parseValue. */
  method ParseElements(b: Bytes, count: nat) returns (r: ParsedAll)
    ensures r == ParseAll(b, count)
    decreases |b|, 2
  {
    var off, elems, i := 0, [], 0;
    ghost var all := ParseAll(b, count);
    RestStarts(b, count);
    while i < count
      invariant 0 <= i <= count && 0 <= off <= |b|
      invariant all == Rest(b, off, elems, count - i)
    {
      var el := ParseElement(b, off, elems, count - i);
      if !el.Ok? {
        return if el.NeedMore? then NeedMoreAll else MalformedAll;
      }
      elems, off, i := elems + [el.v], off + el.n, i + 1;
    }
    RestEnds(b, off, elems);
    return OkAll(elems, off);
  }

  /** What is left to do, after `elems` from the first `off` bytes. */
  function Rest(b: Bytes, off: nat, elems: seq<Value>, left: nat): ParsedAll
    requires off <= |b|
  {
    Joined(elems, off, ParseAll(b[off..], left))
  }

  lemma RestStarts(b: Bytes, count: nat)
    ensures Rest(b, 0, [], count) == ParseAll(b, count)
  {
    Emptys(b);
    var all := ParseAll(b, count);
    if all.OkAll? {
      Emptys(all.vs);
    }
  }

  lemma RestStops(b: Bytes, off: nat, elems: seq<Value>, left: nat)
    requires off <= |b| && left > 0 && !Parse(b[off..]).Ok?
    ensures Rest(b, off, elems, left) == if Parse(b[off..]).NeedMore? then NeedMoreAll else MalformedAll
  {
  }

  lemma RestEnds(b: Bytes, off: nat, elems: seq<Value>)
    requires off <= |b|
    ensures Rest(b, off, elems, 0) == OkAll(elems, off)
  {
    Emptys(elems);
  }

  lemma JoinedStep(elems: seq<Value>, off: nat, v: Value, m: nat, rest: ParsedAll)
    ensures Joined(elems, off, Joined([v], m, rest)) == Joined(elems + [v], off + m, rest)
  {
    if rest.OkAll? {
      assert elems + ([v] + rest.vs) == elems + [v] + rest.vs;
    }
  }

  lemma NextElement(b: Bytes, off: nat, elems: seq<Value>, v: Value, m: nat, left: nat)
    requires off <= |b| && off + m <= |b| && left > 0 && Parse(b[off..]) == Ok(v, m)
    ensures Rest(b, off, elems, left) == Rest(b, off + m, elems + [v], left - 1)
  {
    DropDrop(b, off, m);
    ParseAllCons(b[off..], left);
    JoinedStep(elems, off, v, m, ParseAll(b[off + m..], left - 1));
  }

  lemma MarshalNext(b: Bytes, vs: seq<Value>, i: nat)
    requires i < |vs|
    ensures b + MarshalAll(vs[i..]) == b + Marshal(vs[i]) + MarshalAll(vs[i + 1..])
  {
    DropDrop(vs, i, 1);
    Assoc(b, Marshal(vs[i]), MarshalAll(vs[i + 1..]));
  }

  /** MarshalValue */
  method MarshalValue(v: Value) returns (b: Bytes)
    ensures b == Marshal(v)
    decreases v
  {
    match v
    case Simple(s) => b := Line(PLUS, s);
    case Fault(s) => b := Line(MINUS, s);
    case Integer(i) => b := Line(COLON, FormatInt(i));
    case Bulk(s) => b := EncodeBulk(s);
    case BulkNull => b := Line(DOLLAR, FormatInt(-1));
    case ArrayNull => b := Line(STAR, FormatInt(-1));
    case Unknown(_) => b := Line(MINUS, UNKNOWN_TYPE);
    case Array(vs) =>
      b := Line(STAR, FormatInt(|vs|));
      ghost var head := b;
      Emptys(vs);
      for i := 0 to |vs|
        invariant b + MarshalAll(vs[i..]) == head + MarshalAll(vs)
      {
        var el := MarshalValue(vs[i]);
        MarshalNext(b, vs, i);
        b := b + el;
      }
      Emptys(b);
  }

  // ------------------------------------------------------------------
  // Argument lists
  // ------------------------------------------------------------------

  datatype Decoded = Args(list: seq<Bytes>) | BadArgs

  function Bulks(args: seq<Bytes>): seq<Value> {
    seq(|args|, i requires 0 <= i < |args| => Bulk(args[i]))
  }

  /** The strings of a list of bulk strings, None when some element is not one. */
  function Strings(vs: seq<Value>): (r: Option<seq<Bytes>>)
    ensures r.Some? <==> forall i :: 0 <= i < |vs| ==> vs[i].Bulk?
    ensures r.Some? ==> vs == Bulks(r.value)
    decreases |vs|
  {
    if vs == [] then Some([])
    else
      var last := |vs| - 1;
      match Strings(vs[..last])
      case None =>
        assert !forall i :: 0 <= i < |vs| ==> vs[i].Bulk? by {
          assert exists i :: 0 <= i < last && !vs[..last][i].Bulk?;
        }
        None
      case Some(ss) =>
        assert forall i :: 0 <= i < last ==> vs[i] == vs[..last][i];
        if vs[last].Bulk? then Some(ss + [vs[last].str]) else None
  }

  /** EncodeArray and EncodeArgs */
  function EncodeArray(args: seq<Bytes>): Bytes {
    Marshal(Array(Bulks(args)))
  }

  /** DecodeArgs: exactly one array of bulk strings. */
  function DecodeArgs(b: Bytes): Decoded {
    match Parse(b)
    case NeedMore => BadArgs
    case Malformed => BadArgs
    case Ok(v, n) =>
      if n != |b| || !v.Array? then BadArgs
      else
        match Strings(v.elems)
        case None => BadArgs
        case Some(ss) => Args(ss)
  }

  method EncodeArrayLoop(args: seq<Bytes>) returns (b: Bytes)
    ensures b == EncodeArray(args)
  {
    b := Line(STAR, FormatInt(|args|));
    ghost var head, vs := b, Bulks(args);
    Emptys(vs);
    for i := 0 to |args|
      invariant b + MarshalAll(vs[i..]) == head + MarshalAll(vs)
    {
      MarshalNext(b, vs, i);
      b := b + EncodeBulk(args[i]);
    }
    Emptys(b);
  }

  lemma NextString(vs: seq<Value>, i: nat, out: seq<Bytes>)
    requires i < |vs| && vs[i].Bulk? && Strings(vs[..i]) == Some(out)
    ensures Strings(vs[..i + 1]) == Some(out + [vs[i].str])
  {
    assert vs[..i + 1][..i] == vs[..i];
  }

  method DecodeArgsLoop(b: Bytes) returns (r: Decoded)
    ensures r == DecodeArgs(b)
  {
    var p := ParseValue(b);
    if !p.Ok? || p.n != |b| || !p.v.Array? {
      return BadArgs;
    }
    var vs := p.v.elems;
    var out := [];
    for i := 0 to |vs|
      invariant Strings(vs[..i]) == Some(out)
    {
      if !vs[i].Bulk? {
        return BadArgs;
      }
      NextString(vs, i, out);
      out := out + [vs[i].str];
    }
    assert vs[..|vs|] == vs;
    return Args(out);
  }

  predicate Short(args: seq<Bytes>) {
    |args| <= MAX_INT64 && forall i :: 0 <= i < |args| ==> |args[i]| <= MAX_INT64
  }

  lemma {:induction false} BulksClean(args: seq<Bytes>)
    requires forall i :: 0 <= i < |args| ==> |args[i]| <= MAX_INT64
    ensures AllClean(Bulks(args))
  {
    if args != [] {
      BulksClean(args[1..]);
      assert Bulks(args)[1..] == Bulks(args[1..]);
    }
  }

  lemma StringsOfBulks(args: seq<Bytes>)
    ensures Strings(Bulks(args)) == Some(args)
  {
    var r := Strings(Bulks(args));
    assert r.Some?;
    assert |r.value| == |Bulks(r.value)| == |args|;
    forall i | 0 <= i < |args| ensures r.value[i] == args[i] {
      assert Bulks(r.value)[i] == Bulks(args)[i];
    }
    assert r.value == args;
  }

  /** Arguments survive their wire form. */
  lemma ArgsRoundTrip(args: seq<Bytes>)
    requires Short(args)
    ensures DecodeArgs(EncodeArray(args)) == Args(args)
  {
    BulksClean(args);
    var b := EncodeArray(args);
    RoundTrip(Array(Bulks(args)), []);
    assert b + [] == b;
    assert Parse(b) == Ok(Array(Bulks(args)), |b|);
    StringsOfBulks(args);
  }

  /** DecodeArgs takes exactly the forms of a list of bulk strings that are all of the payload. */
  lemma DecodesExactly(b: Bytes, list: seq<Bytes>)
    ensures DecodeArgs(b) == Args(list) <==> Reads(b, Array(Bulks(list)), |b|)
  {
    ReadsExactly(b, Array(Bulks(list)), |b|);
    StringsOfBulks(list);
  }

  /** The two nulls. */
  lemma NullForms()
    ensures Marshal(BulkNull) == Ascii("$-1\r\n") && Marshal(ArrayNull) == Ascii("*-1\r\n")
  {
    assert FormatNat(1) == [49];
    assert FormatInt(-1) == [45, 49];
  }

  /** What is printed for a value of no type. */
  lemma UnknownForm(tag: Byte)
    ensures Marshal(Unknown(tag)) == Ascii("-") + Ascii("unknown value type") + Ascii("\r\n")
  {
    assert Ascii("-") == [MINUS];
    assert Ascii("\r\n") == CRLF;
    assert UNKNOWN_TYPE == Ascii("unknown value type");
  }
}

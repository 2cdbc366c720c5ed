/** gRPC length-prefixed messages (`transport/grpc/lpm.go`): a flag byte, a 32-bit big-endian length, the
    payload; and a reader that skips a message over its limit to stay aligned. */
module GrpcLpm {
  import opened Seqs
  import opened Decimal

  const TWO_32: int := 0x1_0000_0000

  const HEADER_SIZE: nat := 5

  const DRAIN_FLOOR: int := 0x10_0000

  /** How the carrier ends: with io.EOF, or with an error. */
  datatype End = Closed | Broken(code: nat)

  datatype Read =
    | Message(compressed: bool, payload: Bytes)
    | TooLarge
    | Unsynced
    | BadFlag(flag: Byte)
    | Eof
    | UnexpectedEof
    | Failed(code: nat)

  function MaxDrain(maxLen: int): int {
    if maxLen < DRAIN_FLOOR then DRAIN_FLOOR else maxLen
  }

  // ------------------------------------------------------------------
  // The format
  // ------------------------------------------------------------------

  /** binary.BigEndian.PutUint32 */
  function Big32(n: nat): (r: Bytes)
    requires n < TWO_32
    ensures |r| == 4
  {
    [n / 0x100_0000, n / 0x1_0000 % 0x100, n / 0x100 % 0x100, n % 0x100]
  }

  /** binary.BigEndian.Uint32 */
  function FromBig32(b: Bytes): (n: nat)
    requires |b| == 4
    ensures n < TWO_32
  {
    var b0: int, b1: int, b2: int, b3: int := b[0], b[1], b[2], b[3];
    0x100_0000 * b0 + 0x1_0000 * b1 + 0x100 * b2 + b3
  }

  function Header(compressed: bool, len: nat): (r: Bytes)
    ensures |r| == HEADER_SIZE
  {
    [if compressed then 1 else 0] + Big32(len % TWO_32)
  }

  /** What WriteLPM writes; a length that is 2^32 or more wraps. */
  function Frame(compressed: bool, payload: Bytes): Bytes {
    Header(compressed, |payload|) + payload
  }

  // ------------------------------------------------------------------
  // Reading
  // ------------------------------------------------------------------

  /** The error of io.ReadFull when only `got` bytes came. */
  function Short(got: nat, end: End): Read {
    match end
    case Closed => if got == 0 then Eof else UnexpectedEof
    case Broken(code) => Failed(code)
  }

  predicate Oversize(n: nat, maxLen: int) {
    maxLen > 0 && n > maxLen
  }

  /** ReadLPMLimited on what is left of a stream: the outcome, and how many bytes it took. */
  function ReadOne(b: Bytes, end: End, maxLen: int): (r: (Read, nat))
    ensures r.1 <= |b|
  {
    if |b| < HEADER_SIZE then (Short(|b|, end), |b|)
    else if b[0] > 1 then (BadFlag(b[0]), HEADER_SIZE)
    else
      var n := FromBig32(b[1..HEADER_SIZE]);
      var left := |b| - HEADER_SIZE;
      if Oversize(n, maxLen) then
        if n > MaxDrain(maxLen) then (Unsynced, HEADER_SIZE)
        else if left < n then (Unsynced, |b|)
        else (TooLarge, HEADER_SIZE + n)
      else if left < n then (Short(left, end), |b|)
      else (Message(b[0] == 1, b[HEADER_SIZE..HEADER_SIZE + n]), HEADER_SIZE + n)
  }

  lemma ShiftTwice(n: nat)
    ensures n / 0x1_0000 == n / 0x100 / 0x100 && n / 0x100_0000 == n / 0x1_0000 / 0x100
  {
  }

  lemma Big32RoundTrip(n: nat)
    requires n < TWO_32
    ensures FromBig32(Big32(n)) == n
  {
    ShiftTwice(n);
    var q1, q2, q3 := n / 0x100, n / 0x1_0000, n / 0x100_0000;
    assert n == 0x100 * q1 + n % 0x100 && q1 == 0x100 * q2 + q1 % 0x100 && q2 == 0x100 * q3 + q2 % 0x100;
  }

  lemma HeaderIs(compressed: bool, len: nat, x: Bytes)
    ensures var b := Header(compressed, len) + x;
            && b[0] == (if compressed then 1 else 0)
            && FromBig32(b[1..HEADER_SIZE]) == len % TWO_32
            && b[HEADER_SIZE..] == x
  {
    var b := Header(compressed, len) + x;
    assert b[1..HEADER_SIZE] == Big32(len % TWO_32);
    Big32RoundTrip(len % TWO_32);
  }

  /** What a reader makes of a message of `len` bytes. */
  function Outcome(compressed: bool, payload: Bytes, maxLen: int): Read {
    if !Oversize(|payload|, maxLen) then Message(compressed, payload)
    else if |payload| > MaxDrain(maxLen) then Unsynced
    else TooLarge
  }

  /** One written message, whatever follows it: within the limit it comes back unchanged; over it, but
      no longer than maxDrain, it is refused.  Either way exactly the message is consumed. */
  lemma WriteThenRead(compressed: bool, payload: Bytes, x: Bytes, end: End, maxLen: int)
    requires |payload| < TWO_32
    ensures var r := ReadOne(Frame(compressed, payload) + x, end, maxLen);
            && r.0 == Outcome(compressed, payload, maxLen)
            && (!r.0.Unsynced? ==> r.1 == |Frame(compressed, payload)|)
  {
    var b := Frame(compressed, payload) + x;
    Assoc(Header(compressed, |payload|), payload, x);
    HeaderIs(compressed, |payload|, payload + x);
    assert b[HEADER_SIZE..HEADER_SIZE + |payload|] == payload;
  }

  /** A payload comes back exactly when its length fits the header (and the limit): from 2^32 on, the
      length wraps and what comes back is something else. */
  lemma RoundTripExactly(compressed: bool, payload: Bytes, x: Bytes, end: End, maxLen: int)
    ensures ReadOne(Frame(compressed, payload) + x, end, maxLen).0 == Message(compressed, payload)
       <==> |payload| < TWO_32 && !Oversize(|payload|, maxLen)
  {
    if |payload| < TWO_32 {
      WriteThenRead(compressed, payload, x, end, maxLen);
    } else {
      Assoc(Header(compressed, |payload|), payload, x);
      HeaderIs(compressed, |payload|, payload + x);
    }
  }

  /** io.EOF means what ReadLPMLimited's comment says, that the stream ended before a header, or one thing
      more: that it ended right behind the header of a message that is not empty.  A truncated message is
      otherwise never taken for the end of the stream, nor for a message. */
  lemma EofExactly(b: Bytes, end: End, maxLen: int)
    ensures ReadOne(b, end, maxLen).0.Eof? <==>
            end.Closed? && (b == [] || (|b| == HEADER_SIZE && b[0] <= 1 && CutBehindHeader(b, maxLen)))
  {
  }

  predicate CutBehindHeader(b: Bytes, maxLen: int)
    requires |b| == HEADER_SIZE
  {
    var n := FromBig32(b[1..HEADER_SIZE]);
    n > 0 && !Oversize(n, maxLen)
  }

  lemma CutMessageReadsAsEof(maxLen: int)
    requires maxLen <= 0 || maxLen >= 3
    ensures ReadOne(Frame(false, [1, 2, 3])[..HEADER_SIZE], Closed, maxLen) == (Eof, HEADER_SIZE)
  {
    var b := Frame(false, [1, 2, 3])[..HEADER_SIZE];
    HeaderIs(false, 3, []);
    Emptys(Header(false, 3));
    assert b == Header(false, 3);
  }

  /** No proper prefix of a message is taken for a message or for a skipped one. */
  lemma TruncatedIsNotRead(compressed: bool, payload: Bytes, k: nat, end: End, maxLen: int)
    requires |payload| < TWO_32 && k < |Frame(compressed, payload)|
    ensures var r := ReadOne(Frame(compressed, payload)[..k], end, maxLen);
            && !r.0.Message? && !r.0.TooLarge? && !r.0.BadFlag?
            && (k >= HEADER_SIZE && Oversize(|payload|, maxLen) ==> r.0.Unsynced?)
  {
    var f := Frame(compressed, payload);
    if k >= HEADER_SIZE {
      HeaderIs(compressed, |payload|, payload);
      assert f[..k][1..HEADER_SIZE] == f[1..HEADER_SIZE];
    }
  }

  // ------------------------------------------------------------------
  // A stream of messages
  // ------------------------------------------------------------------

  datatype Lpm = Lpm(compressed: bool, payload: Bytes)

  function Written(ms: seq<Lpm>): Bytes {
    if ms == [] then [] else Frame(ms[0].compressed, ms[0].payload) + Written(ms[1..])
  }

  /** A reading stops for good at the end of the stream, an error, or a stream out of sync. */
  predicate Goes(r: Read) {
    r.Message? || r.TooLarge?
  }

  /** What reading on and on gives. */
  function ReadAll(b: Bytes, end: End, maxLen: int): seq<Read>
    decreases |b|
  {
    var (r, n) := ReadOne(b, end, maxLen);
    if Goes(r) then [r] + ReadAll(b[n..], end, maxLen) else [r]
  }

  /** What a reader is to see of `ms`: each message, or its refusal, in order, up to the first that is not
      worth skipping; and the end of the stream when there is none such. */
  function Seen(ms: seq<Lpm>, end: End, maxLen: int): seq<Read> {
    if ms == [] then [Short(0, end)]
    else
      var r := Outcome(ms[0].compressed, ms[0].payload, maxLen);
      if Goes(r) then [r] + Seen(ms[1..], end, maxLen) else [r]
  }

  lemma {:induction false} StreamResync(ms: seq<Lpm>, end: End, maxLen: int)
    requires forall i :: 0 <= i < |ms| ==> |ms[i].payload| < TWO_32
    ensures ReadAll(Written(ms), end, maxLen) == Seen(ms, end, maxLen)
    decreases |ms|
  {
    if ms != [] {
      var m := ms[0];
      var f, rest := Frame(m.compressed, m.payload), Written(ms[1..]);
      WriteThenRead(m.compressed, m.payload, rest, end, maxLen);
      Seam(f, rest);
      StreamResync(ms[1..], end, maxLen);
    }
  }

  /** With no limit, or none that a message passes, a stream reads back as it was written. */
  lemma {:induction false} AllWithin(ms: seq<Lpm>, end: End, maxLen: int)
    requires forall i :: 0 <= i < |ms| ==> !Oversize(|ms[i].payload|, maxLen)
    ensures |Seen(ms, end, maxLen)| == |ms| + 1
    ensures forall i :: 0 <= i < |ms| ==> Seen(ms, end, maxLen)[i] == Message(ms[i].compressed, ms[i].payload)
    ensures Seen(ms, end, maxLen)[|ms|] == Short(0, end)
  {
    if ms != [] {
      AllWithin(ms[1..], end, maxLen);
    }
  }

  // ------------------------------------------------------------------
  // The numbers of the format
  // ------------------------------------------------------------------

  lemma BigEndian(b: Bytes)
    requires |b| == 4
    ensures FromBig32(b) == 16777216 * (b[0] as int) + 65536 * (b[1] as int) + 256 * (b[2] as int) + (b[3] as int)
  {
  }

  lemma FrameBytes(compressed: bool, payload: Bytes)
    requires |payload| < TWO_32
    ensures var f := Frame(compressed, payload);
            && |f| == 5 + |payload| && f[5..] == payload && f[0] == (if compressed then 1 else 0)
            && f[1..5] == Big32(|payload|)
  {
  }

  /** A frame is a flag, 1 when compressed and 0 when not, the length, most significant byte first, and the
      payload. */
  lemma FrameLayout(compressed: bool, payload: Bytes)
    requires |payload| < TWO_32
    ensures var f := Frame(compressed, payload);
            && |f| == 5 + |payload| && f[5..] == payload
            && f[0] == (if compressed then 1 else 0)
            && 16777216 * (f[1] as int) + 65536 * (f[2] as int) + 256 * (f[3] as int) + (f[4] as int) == |payload|
  {
    var f := Frame(compressed, payload);
    FrameBytes(compressed, payload);
    BigEndian(f[1..5]);
    Big32RoundTrip(|payload|);
  }

  /** A flag other than 0 and 1 is refused, and nothing else is for its flag. */
  lemma FlagsExactly(b: Bytes, end: End, maxLen: int)
    ensures ReadOne(b, end, maxLen).0.BadFlag? <==> |b| >= 5 && b[0] > 1
  {
  }

  /** A message over the limit is skipped whole when it is of at most a mebibyte, and leaves the stream out of
      sync when it is longer. */
  lemma DrainsAMebibyte(compressed: bool, payload: Bytes, x: Bytes, end: End, maxLen: int)
    requires maxLen > 0 && maxLen < |payload| < 0x1_0000_0000
    ensures var r := ReadOne(Frame(compressed, payload) + x, end, maxLen);
            if |payload| <= 1048576 then r == (TooLarge, 5 + |payload|) else r.0 == Unsynced
  {
    WriteThenRead(compressed, payload, x, end, maxLen);
  }

  /** No message stops the reading that is within the limit or of at most a mebibyte: each is seen or refused, in
      order, and then the end. */
  lemma RefusalsNeverStop(ms: seq<Lpm>, end: End, maxLen: int)
    requires forall i :: 0 <= i < |ms| ==> |ms[i].payload| < 0x1_0000_0000
    requires forall i :: 0 <= i < |ms| && maxLen > 0 && |ms[i].payload| > maxLen ==> |ms[i].payload| <= 1048576
    ensures var rs := ReadAll(Written(ms), end, maxLen);
            && |rs| == |ms| + 1
            && (forall i :: 0 <= i < |ms| ==>
                  rs[i] == if maxLen > 0 && |ms[i].payload| > maxLen then TooLarge
                           else Message(ms[i].compressed, ms[i].payload))
            && rs[|ms|] == (if end.Closed? then Eof else Failed(end.code))
  {
    StreamResync(ms, end, maxLen);
    SeenAll(ms, end, maxLen);
  }

  lemma {:induction false} SeenAll(ms: seq<Lpm>, end: End, maxLen: int)
    requires forall i :: 0 <= i < |ms| && maxLen > 0 && |ms[i].payload| > maxLen ==> |ms[i].payload| <= 1048576
    ensures var rs := Seen(ms, end, maxLen);
            && |rs| == |ms| + 1
            && (forall i :: 0 <= i < |ms| ==>
                  rs[i] == if maxLen > 0 && |ms[i].payload| > maxLen then TooLarge
                           else Message(ms[i].compressed, ms[i].payload))
            && rs[|ms|] == (if end.Closed? then Eof else Failed(end.code))
  {
    if ms != [] {
      SeenAll(ms[1..], end, maxLen);
    }
  }

  /** What a reader is told of a message that is cut: the end of the stream when nothing or just the header is
      there, that it is out of sync when it was skipping, else that the end was unexpected; and the error of
      a carrier that broke. */
  lemma CutMessageTells(compressed: bool, payload: Bytes, k: nat, end: End, maxLen: int)
    requires |payload| < TWO_32 && k < |Frame(compressed, payload)|
    ensures ReadOne(Frame(compressed, payload)[..k], end, maxLen).0 ==
              if k >= 5 && maxLen > 0 && |payload| > maxLen then Unsynced
              else if end.Broken? then Failed(end.code)
              else if k == 0 || k == 5 then Eof
              else UnexpectedEof
  {
    var f := Frame(compressed, payload);
    if k >= HEADER_SIZE {
      HeaderIs(compressed, |payload|, payload);
      assert f[..k][1..HEADER_SIZE] == f[1..HEADER_SIZE];
    }
  }

  // ------------------------------------------------------------------
  // A stream that is cut
  // ------------------------------------------------------------------

  /** The end of the stream is all there is to see of its first `k` bytes: `k` is the end of `ms[..j]`, or of
      the header behind it of a message that is not empty and within the limit; and nothing before stops
      the reading. */
  ghost predicate EndsAt(ms: seq<Lpm>, j: nat, k: nat, maxLen: int)
    requires j <= |ms|
  {
    && (forall i :: 0 <= i < j ==> Goes(Outcome(ms[i].compressed, ms[i].payload, maxLen)))
    && (|| k == |Written(ms[..j])|
        || (j < |ms| && k == |Written(ms[..j])| + HEADER_SIZE
            && ms[j].payload != [] && !Oversize(|ms[j].payload|, maxLen)))
  }

  /** The same, message by message. */
  predicate LooksEnded(ms: seq<Lpm>, k: nat, maxLen: int) {
    if k == 0 then true
    else if ms == [] then false
    else
      var n := HEADER_SIZE + |ms[0].payload|;
      if k < n then k == HEADER_SIZE && !Oversize(|ms[0].payload|, maxLen)
      else Goes(Outcome(ms[0].compressed, ms[0].payload, maxLen)) && LooksEnded(ms[1..], k - n, maxLen)
  }

  lemma WrittenCons(ms: seq<Lpm>, j: nat)
    requires 0 < j <= |ms|
    ensures |Written(ms[..j])| == HEADER_SIZE + |ms[0].payload| + |Written(ms[1..][..j - 1])|
  {
    assert ms[..j][1..] == ms[1..][..j - 1];
  }

  lemma {:induction false} LooksEndedIs(ms: seq<Lpm>, k: nat, maxLen: int)
    ensures LooksEnded(ms, k, maxLen) <==> exists j :: 0 <= j <= |ms| && EndsAt(ms, j, k, maxLen)
    decreases |ms|
  {
    if LooksEnded(ms, k, maxLen) {
      var j := EndOf(ms, k, maxLen);
    }
    forall j | 0 <= j <= |ms| && EndsAt(ms, j, k, maxLen) ensures LooksEnded(ms, k, maxLen) {
      EndsAtLooks(ms, j, k, maxLen);
    }
  }

  lemma {:induction false} EndOf(ms: seq<Lpm>, k: nat, maxLen: int) returns (j: nat)
    requires LooksEnded(ms, k, maxLen)
    ensures j <= |ms| && EndsAt(ms, j, k, maxLen)
    decreases |ms|
  {
    if k == 0 || k < HEADER_SIZE + |ms[0].payload| {
      j := 0;
      assert Written(ms[..0]) == [];
    } else {
      var i := EndOf(ms[1..], k - HEADER_SIZE - |ms[0].payload|, maxLen);
      j := i + 1;
      WrittenCons(ms, j);
      assert forall n :: 0 < n < j ==> ms[n] == ms[1..][n - 1];
    }
  }

  lemma {:induction false} EndsAtLooks(ms: seq<Lpm>, j: nat, k: nat, maxLen: int)
    requires j <= |ms| && EndsAt(ms, j, k, maxLen)
    ensures LooksEnded(ms, k, maxLen)
    decreases |ms|
  {
    if j == 0 {
      assert Written(ms[..0]) == [];
    } else {
      WrittenCons(ms, j);
      assert forall n :: 0 <= n < j - 1 ==> ms[1..][n] == ms[n + 1];
      EndsAtLooks(ms[1..], j - 1, k - HEADER_SIZE - |ms[0].payload|, maxLen);
    }
  }

  predicate EndsInEof(rs: seq<Read>) {
    rs != [] && rs[|rs| - 1].Eof?
  }

  /** Reading on behind a whole message. */
  lemma CutBehind(m: Lpm, rest: Bytes, maxLen: int)
    requires |m.payload| < TWO_32
    ensures var r := Outcome(m.compressed, m.payload, maxLen);
            && (EndsInEof(ReadAll(Frame(m.compressed, m.payload) + rest, Closed, maxLen)) <==>
                  Goes(r) && EndsInEof(ReadAll(rest, Closed, maxLen)))
  {
    var f := Frame(m.compressed, m.payload);
    WriteThenRead(m.compressed, m.payload, rest, Closed, maxLen);
    Seam(f, rest);
    LastOfCons(Outcome(m.compressed, m.payload, maxLen), ReadAll(rest, Closed, maxLen));
  }

  lemma CutConcat(f: Bytes, rest: Bytes, k: nat)
    requires k <= |f + rest|
    ensures k <= |f| ==> (f + rest)[..k] == f[..k]
    ensures k >= |f| ==> (f + rest)[..k] == f + rest[..k - |f|]
  {
  }

  lemma {:induction false} CutReads(ms: seq<Lpm>, k: nat, maxLen: int)
    requires (forall i :: 0 <= i < |ms| ==> |ms[i].payload| < TWO_32) && k <= |Written(ms)|
    ensures EndsInEof(ReadAll(Written(ms)[..k], Closed, maxLen)) <==> LooksEnded(ms, k, maxLen)
    decreases |ms|
  {
    if k > 0 {
      var m := ms[0];
      var f, rest := Frame(m.compressed, m.payload), Written(ms[1..]);
      CutConcat(f, rest, k);
      if k < |f| {
        CutFrame(m, k, maxLen);
      } else {
        CutBehind(m, rest[..k - |f|], maxLen);
        CutReads(ms[1..], k - |f|, maxLen);
      }
    }
  }

  lemma LastOfCons(r: Read, rs: seq<Read>)
    requires rs != []
    ensures EndsInEof([r] + rs) <==> EndsInEof(rs)
  {
  }

  lemma StopsAtOnce(b: Bytes, maxLen: int)
    requires !Goes(ReadOne(b, Closed, maxLen).0)
    ensures EndsInEof(ReadAll(b, Closed, maxLen)) <==> ReadOne(b, Closed, maxLen).0.Eof?
  {
  }

  lemma CutOne(m: Lpm, k: nat, maxLen: int)
    requires |m.payload| < TWO_32 && 0 < k < |Frame(m.compressed, m.payload)|
    ensures ReadOne(Frame(m.compressed, m.payload)[..k], Closed, maxLen).0.Eof?
       <==> k == HEADER_SIZE && !Oversize(|m.payload|, maxLen)
  {
    var f := Frame(m.compressed, m.payload);
    if k >= HEADER_SIZE {
      HeaderIs(m.compressed, |m.payload|, m.payload);
      assert f[..k][1..HEADER_SIZE] == f[1..HEADER_SIZE];
    }
  }

  lemma CutFrame(m: Lpm, k: nat, maxLen: int)
    requires |m.payload| < TWO_32 && 0 < k < |Frame(m.compressed, m.payload)|
    ensures EndsInEof(ReadAll(Frame(m.compressed, m.payload)[..k], Closed, maxLen))
       <==> k == HEADER_SIZE && !Oversize(|m.payload|, maxLen)
  {
    TruncatedIsNotRead(m.compressed, m.payload, k, Closed, maxLen);
    StopsAtOnce(Frame(m.compressed, m.payload)[..k], maxLen);
    CutOne(m, k, maxLen);
  }

  /** A stream of messages that was cut reads as one that ended if and only if the cut is at the end of a message
      or right behind the header of one that is neither empty nor over the limit, and no message before it
      stops the reading. */
  lemma CutStreamReadsAsEnded(ms: seq<Lpm>, k: nat, maxLen: int)
    requires (forall i :: 0 <= i < |ms| ==> |ms[i].payload| < TWO_32) && k <= |Written(ms)|
    ensures EndsInEof(ReadAll(Written(ms)[..k], Closed, maxLen))
       <==> exists j :: 0 <= j <= |ms| && EndsAt(ms, j, k, maxLen)
  {
    CutReads(ms, k, maxLen);
    LooksEndedIs(ms, k, maxLen);
  }

  // ------------------------------------------------------------------
  // The two functions of the source
  // ------------------------------------------------------------------

  /** An io.Reader: what it still has, and how it ends. */
  class Source {
    var rest: Bytes
    const end: End

    constructor (b: Bytes, end: End)
      ensures rest == b && this.end == end
    {
      rest, this.end := b, end;
    }

    /** io.ReadFull of `n` bytes. */
    method ReadFull(n: nat) returns (got: Bytes, err: Option<Read>)
      modifies this
      ensures var b := old(rest);
              if n == 0 then got == [] && err == None && rest == b
              else if |b| < n then got == b && err == Some(Short(|b|, end)) && rest == []
              else got == b[..n] && err == None && rest == b[n..]
    {
      if |rest| < n {
        got := rest;
        err := Some(Short(|rest|, end));
        rest := [];
      } else {
        got := rest[..n];
        rest := rest[n..];
        err := None;
      }
    }

    /** io.Copy to io.Discard through a LimitReader: a source that ends early is no error. */
    method Discard(n: nat) returns (drained: nat, broken: bool)
      modifies this
      ensures var b := old(rest);
              && drained == (if |b| < n then |b| else n) && rest == b[drained..]
              && broken == (|b| < n && end.Broken?)
    {
      drained := if |rest| < n then |rest| else n;
      broken := |rest| < n && end.Broken?;
      rest := rest[drained..];
    }
  }

  /** An io.Writer that fails from its `left`th write on. */
  class Sink {
    var written: Bytes
    var left: nat

    method Write(b: Bytes) returns (ok: bool)
      modifies this
      ensures ok == (old(left) > 0)
      ensures left == (if ok then old(left) - 1 else 0)
      ensures written == (if ok then old(written) + b else old(written))
    {
      ok := left > 0;
      if ok {
        written, left := written + b, left - 1;
      }
    }
  }

  /** WriteLPM */
  method WriteLPM(w: Sink, compressed: bool, payload: Bytes) returns (ok: bool)
    modifies w
    ensures ok == (old(w.left) >= (if payload == [] then 1 else 2))
    ensures w.written == old(w.written) +
                         (if ok then Frame(compressed, payload)
                          else if old(w.left) == 0 then []
                          else Header(compressed, |payload|))
  {
    var hdr := new Byte[HEADER_SIZE](_ => 0);
    if compressed {
      hdr[0] := 1;
    }
    var n := |payload| % TWO_32;
    hdr[1], hdr[2], hdr[3], hdr[4] := n / 0x100_0000, n / 0x1_0000 % 0x100, n / 0x100 % 0x100, n % 0x100;
    assert hdr[..] == Header(compressed, |payload|);
    ghost var before := w.written;
    Emptys(before);
    ok := w.Write(hdr[..]);
    if !ok {
      return;
    }
    if |payload| == 0 {
      Emptys(Header(compressed, 0));
      return;
    }
    ok := w.Write(payload);
    Assoc(before, Header(compressed, |payload|), payload);
  }

  /** ReadLPMLimited */
  method ReadLPMLimited(r: Source, maxLen: int) returns (out: Read)
    modifies r
    ensures out == ReadOne(old(r.rest), r.end, maxLen).0
    ensures r.rest == old(r.rest)[ReadOne(old(r.rest), r.end, maxLen).1..]
  {
    ghost var b := r.rest;
    var hdr, err := r.ReadFull(HEADER_SIZE);
    if err.Some? {
      return err.value;
    }
    if hdr[0] > 1 {
      return BadFlag(hdr[0]);
    }
    assert hdr[1..] == b[1..HEADER_SIZE];
    var n := FromBig32(hdr[1..]);
    if maxLen > 0 && n > maxLen {
      if n > MaxDrain(maxLen) {
        return Unsynced;
      }
      var drained, broken := r.Discard(n);
      DropDrop(b, HEADER_SIZE, drained);
      if broken {
        return Unsynced;
      }
      if drained != n {
        return Unsynced;
      }
      return TooLarge;
    }
    if n == 0 {
      return Message(hdr[0] == 1, []);
    }
    var payload, short := r.ReadFull(n);
    if short.Some? {
      return short.value;
    }
    DropDrop(b, HEADER_SIZE, n);
    assert b[HEADER_SIZE..][..n] == b[HEADER_SIZE..HEADER_SIZE + n];
    return Message(hdr[0] == 1, payload);
  }
}

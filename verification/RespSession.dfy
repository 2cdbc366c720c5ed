/** The reader half of a RESP session (`example/resp/session.go`): the read loop that appends
    chunks to a buffer, the readers that parse values off its front, and the wake channel they
    park on.  A `Link` is what the session's mutex protects; every function here is one lock region. */
module RespSession {
  import opened Seqs
  import opened Decimal
  import opened RespWire

  // ------------------------------------------------------------------
  // One-shot parse of a whole stream
  // ------------------------------------------------------------------

  /** The values on the front of `b`, up to the first place where there is none. */
  function Values(b: Bytes): seq<Value>
    decreases |b|
  {
    match Parse(b)
    case Ok(v, n) => [v] + Values(b[n..])
    case NeedMore => []
    case Malformed => []
  }

  /** The bytes those values take. */
  function Used(b: Bytes): (n: nat)
    ensures n <= |b|
    decreases |b|
  {
    match Parse(b)
    case Ok(_, n) => n + Used(b[n..])
    case NeedMore => 0
    case Malformed => 0
  }

  lemma ValuesCons(b: Bytes)
    requires Parse(b).Ok?
    ensures var p := Parse(b);
            Values(b) == [p.v] + Values(b[p.n..]) && Used(b) == p.n + Used(b[p.n..])
  {
  }

  lemma ExtendDrop(b: Bytes, x: Bytes, n: nat)
    requires n <= |b|
    ensures (b + x)[n..] == b[n..] + x
  {
  }

  /** One value further: the same, for what is behind the first value of `b`. */
  lemma ExtendStep(b: Bytes, x: Bytes, n: nat)
    requires Parse(b).Ok? && n == Parse(b).n
    ensures (b + x)[n..] == b[n..] + x
    ensures Parse(b + x) == Parse(b)
    ensures b[n..][Used(b[n..])..] == b[Used(b)..]
  {
    ParseStable(b, x);
    ExtendDrop(b, x, n);
    ValuesCons(b);
    DropDrop(b, n, Used(b[n..]));
  }

  lemma NoValues(b: Bytes)
    requires !Parse(b).Ok?
    ensures Values(b) == [] && Used(b) == 0 && b[Used(b)..] == b
  {
  }

  /** More bytes never change the values already there: they only continue what was left over. */
  lemma {:induction false} ValuesExtend(b: Bytes, x: Bytes)
    ensures Values(b + x) == Values(b) + Values(b[Used(b)..] + x)
    ensures Used(b + x) == Used(b) + Used(b[Used(b)..] + x)
    decreases |b|
  {
    if Parse(b).Ok? {
      var n := Parse(b).n;
      ValuesExtend(b[n..], x);
      ExtendStep(b, x, n);
      ValuesCons(b);
      ValuesCons(b + x);
      Assoc([Parse(b).v], Values(b[n..]), Values(b[Used(b)..] + x));
    } else {
      NoValues(b);
      Emptys(Values(b + x));
    }
  }

  // ------------------------------------------------------------------
  // Lock regions
  // ------------------------------------------------------------------

  /** `ReadFailed` stands for whatever error the carrier's Read gave. */
  datatype Failure = Eof | ReadFailed(code: nat) | BadValue

  /** `wake` numbers the wake channels: `readWait` is channel `wake`, and those before it are closed.
      `closed` also says whether closeCh is. */
  datatype Link = Link(closed: bool, reusable: bool, exclusive: bool, busy: bool,
                       buf: Bytes, err: Option<Failure>, wake: nat)

  const OPENED := Link(false, true, false, false, [], None, 0)

  datatype Answer = Got(v: Value) | Ready | Failed(why: Failure) | Park(wake: nat)

  function Broadcast(l: Link): Link {
    l.(wake := l.wake + 1)
  }

  /** One turn of readLoop: what Read gave. */
  function Receive(l: Link, chunk: Bytes, err: Option<Failure>): Link {
    var m := l.(buf := l.buf + chunk);
    if err.Some? then
      Broadcast(m.(err := if m.err.None? then err else m.err, reusable := false))
    else
      Broadcast(m)
  }

  /** One turn of readValue's loop. */
  function ValueTurn(l: Link): (Link, Answer) {
    if l.closed && l.buf == [] then
      (l, Failed(if l.err.None? then Eof else l.err.value))
    else if l.buf != [] then
      match Parse(l.buf)
      case Ok(v, n) => (l.(buf := l.buf[n..]), Got(v))
      case Malformed => (l.(reusable := false), Failed(BadValue))
      case NeedMore =>
        if l.err.Some? then (l, Failed(l.err.value))
        else if l.closed then (l, Failed(Eof))
        else (l, Park(l.wake))
    else if l.err.Some? then (l, Failed(l.err.value))
    else (l, Park(l.wake))
  }

  /** One turn of waitFirstByte's loop. */
  function ByteTurn(l: Link): Answer {
    if l.buf != [] then Ready
    else if l.err.Some? then Failed(l.err.value)
    else if l.closed then Failed(Eof)
    else Park(l.wake)
  }

  /** closeSession's lock region. */
  function Shut(l: Link): Link {
    if l.closed then l else Broadcast(l.(closed := true, reusable := false))
  }

  /** Reusable */
  predicate IsReusable(l: Link) {
    l.reusable && !l.closed && !l.exclusive
  }

  /** What a turn of readValue comes to: a value whenever the buffer holds one; a failure only when
      it does not; and parking only when more can still come. */
  lemma ValueTurnIs(l: Link)
    ensures var (m, a) := ValueTurn(l);
            match Parse(l.buf)
            case Ok(v, n) => a == Got(v) && m == l.(buf := l.buf[n..])
            case Malformed => a == Failed(BadValue) && m == l.(reusable := false)
            case NeedMore =>
              && m == l
              && (a.Park? <==> l.err.None? && !l.closed)
              && (a.Park? ==> a.wake == l.wake)
              && (!a.Park? ==> a == Failed(if l.err.Some? then l.err.value else Eof))
  {
  }

  // ------------------------------------------------------------------
  // Runs
  // ------------------------------------------------------------------

  datatype Kind = Whole | FirstByte

  /** Where a goroutine is in readValue (`Whole`) or waitFirstByte (`FirstByte`). */
  datatype Reader = Idle | Running(kind: Kind) | Parked(kind: Kind, wake: nat)

  /** `received` is all that Read ever gave, `taken` how much of it readers consumed, and
      `delivered` the values they got, in the order of their lock regions. */
  datatype Sys = Sys(link: Link, readers: seq<Reader>, loopDone: bool,
                     received: Bytes, taken: nat, delivered: seq<Value>)

  datatype Event =
    | Arrive(chunk: Bytes, err: Option<Failure>)
    | Begin(i: nat, kind: Kind)
    | Turn(i: nat)
    | Wake(i: nat)
    | Cancel(i: nat)
    | Close

  function Start(readers: nat): Sys {
    Sys(OPENED, seq(readers, _ => Idle), false, [], 0, [])
  }

  /** A parked reader may go on once closeCh or the channel it parked on is closed. */
  predicate MayWake(l: Link, wake: nat) {
    l.closed || wake < l.wake
  }

  /** The size of the read loop's buffer. */
  const READ_SIZE: nat := 4096

  predicate Enabled(s: Sys, e: Event) {
    match e
    case Arrive(chunk, err) => !s.loopDone && |chunk| <= READ_SIZE && (err.Some? ==> err.value != BadValue)
    case Begin(i, _) => i < |s.readers| && s.readers[i].Idle?
    case Turn(i) => i < |s.readers| && s.readers[i].Running?
    case Wake(i) => i < |s.readers| && s.readers[i].Parked? && MayWake(s.link, s.readers[i].wake)
    case Cancel(i) => i < |s.readers| && s.readers[i].Parked?
    case Close => true
  }

  /** What the turn of reader `i` answers. */
  function TurnAnswer(s: Sys, i: nat): Answer
    requires Enabled(s, Turn(i))
  {
    if s.readers[i].kind.Whole? then ValueTurn(s.link).1 else ByteTurn(s.link)
  }

  function Step(s: Sys, e: Event): Sys
    requires Enabled(s, e)
  {
    match e
    case Arrive(chunk, err) =>
      s.(link := Receive(s.link, chunk, err), received := s.received + chunk, loopDone := err.Some?)
    case Begin(i, kind) => s.(readers := s.readers[i := Running(kind)])
    case Turn(i) =>
      var a := TurnAnswer(s, i);
      var t := s.(readers := s.readers[i := if a.Park? then Parked(s.readers[i].kind, a.wake) else Idle]);
      if s.readers[i].kind.FirstByte? then t
      else
        var m := ValueTurn(s.link).0;
        if a.Got? then
          t.(link := m, taken := s.taken + Parse(s.link.buf).n, delivered := s.delivered + [a.v])
        else t.(link := m)
    case Wake(i) => s.(readers := s.readers[i := Running(s.readers[i].kind)])
    case Cancel(i) => s.(readers := s.readers[i := Idle])
    case Close => s.(link := Shut(s.link))
  }

  ghost predicate Run(s: Sys, es: seq<Event>, t: Sys)
    decreases |es|
  {
    if es == [] then s == t
    else Enabled(s, es[0]) && Run(Step(s, es[0]), es[1..], t)
  }

  // ------------------------------------------------------------------
  // Invariants
  // ------------------------------------------------------------------

  /** `buf` is what is left of `b` behind its first `taken` bytes, and the values taken and those
      left are the one-shot parse of `b`. */
  ghost predicate Stream(b: Bytes, taken: nat, buf: Bytes, done: seq<Value>) {
    && taken <= |b|
    && buf == b[taken..]
    && Values(b) == done + Values(buf)
    && Used(b) == taken + Used(buf)
  }

  /** The buffer is received minus consumed, and delivered plus buffered is the one-shot parse. */
  ghost predicate StreamInv(s: Sys) {
    Stream(s.received, s.taken, s.link.buf, s.delivered)
  }

  ghost predicate FailInv(s: Sys) {
    && (s.loopDone <==> s.link.err.Some?)
    && (s.link.err.Some? ==> s.link.err.value != BadValue)
    && (s.loopDone || s.link.closed ==> !s.link.reusable)
  }

  /** Nothing that would answer `kind` is there. */
  predicate Starved(l: Link, kind: Kind) {
    && !l.closed && l.err.None?
    && match kind
       case Whole => Parse(l.buf).NeedMore?
       case FirstByte => l.buf == []
  }

  ghost predicate WakeInv(s: Sys) {
    forall i :: 0 <= i < |s.readers| && s.readers[i].Parked? ==>
      && s.readers[i].wake <= s.link.wake
      && (s.readers[i].wake == s.link.wake ==> Starved(s.link, s.readers[i].kind))
  }

  ghost predicate Inv(s: Sys) {
    StreamInv(s) && FailInv(s) && WakeInv(s)
  }

  lemma SameRest(b: Bytes, taken: nat, buf: Bytes)
    requires taken <= |b| && buf == b[taken..] && Used(b) == taken + Used(buf)
    ensures buf[Used(buf)..] == b[Used(b)..]
  {
    DropDrop(b, taken, Used(buf));
  }

  lemma MoreValues(b: Bytes, buf: Bytes, done: seq<Value>, x: Bytes)
    requires Values(b) == done + Values(buf) && buf[Used(buf)..] == b[Used(b)..]
    ensures Values(b + x) == done + Values(buf + x)
  {
    ValuesExtend(b, x);
    ValuesExtend(buf, x);
    Assoc(done, Values(buf), Values(b[Used(b)..] + x));
  }

  lemma MoreUsed(b: Bytes, taken: nat, buf: Bytes, x: Bytes)
    requires Used(b) == taken + Used(buf) && buf[Used(buf)..] == b[Used(b)..]
    ensures Used(b + x) == taken + Used(buf + x)
  {
    ValuesExtend(b, x);
    ValuesExtend(buf, x);
  }

  lemma ArriveKeepsStream(s: Sys, chunk: Bytes, err: Option<Failure>)
    requires StreamInv(s) && Enabled(s, Arrive(chunk, err))
    ensures StreamInv(Step(s, Arrive(chunk, err)))
  {
    SameRest(s.received, s.taken, s.link.buf);
    MoreValues(s.received, s.link.buf, s.delivered, chunk);
    MoreUsed(s.received, s.taken, s.link.buf, chunk);
    ExtendDrop(s.received, chunk, s.taken);
  }

  lemma TakeValue(b: Bytes, taken: nat, buf: Bytes, done: seq<Value>)
    requires Stream(b, taken, buf, done) && Parse(buf).Ok?
    ensures Stream(b, taken + Parse(buf).n, buf[Parse(buf).n..], done + [Parse(buf).v])
  {
    var p := Parse(buf);
    ValuesCons(buf);
    DropDrop(b, taken, p.n);
    Assoc(done, [p.v], Values(buf[p.n..]));
  }

  /** What a turn does to the stream. */
  lemma TurnIs(s: Sys, i: nat)
    requires Enabled(s, Turn(i))
    ensures var t := Step(s, Turn(i));
            var p := Parse(s.link.buf);
            && t.received == s.received
            && if s.readers[i].kind.Whole? && p.Ok? then
                 t.taken == s.taken + p.n && t.link.buf == s.link.buf[p.n..] && t.delivered == s.delivered + [p.v]
               else
                 t.taken == s.taken && t.link.buf == s.link.buf && t.delivered == s.delivered
  {
    ValueTurnIs(s.link);
  }

  lemma TurnKeepsStream(s: Sys, i: nat)
    requires StreamInv(s) && Enabled(s, Turn(i))
    ensures StreamInv(Step(s, Turn(i)))
  {
    TurnIs(s, i);
    if s.readers[i].kind.Whole? && Parse(s.link.buf).Ok? {
      TakeValue(s.received, s.taken, s.link.buf, s.delivered);
    }
  }

  lemma TurnKeepsWake(s: Sys, i: nat)
    requires WakeInv(s) && Enabled(s, Turn(i))
    ensures WakeInv(Step(s, Turn(i)))
  {
    ValueTurnIs(s.link);
  }

  lemma StepKeepsWake(s: Sys, e: Event)
    requires WakeInv(s) && Enabled(s, e)
    ensures WakeInv(Step(s, e))
  {
    if e.Turn? {
      TurnKeepsWake(s, e.i);
    }
  }

  lemma StepKeepsFail(s: Sys, e: Event)
    requires FailInv(s) && Enabled(s, e)
    ensures FailInv(Step(s, e))
  {
    ValueTurnIs(s.link);
  }

  lemma StepKeepsInv(s: Sys, e: Event)
    requires Inv(s) && Enabled(s, e)
    ensures Inv(Step(s, e))
  {
    match e {
      case Arrive(chunk, err) => ArriveKeepsStream(s, chunk, err);
      case Turn(i) => TurnKeepsStream(s, i);
      case _ =>
    }
    StepKeepsFail(s, e);
    StepKeepsWake(s, e);
  }

  lemma {:induction false} RunKeepsInv(s: Sys, es: seq<Event>, t: Sys)
    requires Inv(s) && Run(s, es, t)
    ensures Inv(t)
    decreases |es|
  {
    if es != [] {
      StepKeepsInv(s, es[0]);
      RunKeepsInv(Step(s, es[0]), es[1..], t);
    }
  }

  lemma EveryRun(readers: nat, es: seq<Event>, t: Sys)
    requires Run(Start(readers), es, t)
    ensures Inv(t)
  {
    assert Values([]) == [] && Used([]) == 0;
    RunKeepsInv(Start(readers), es, t);
  }

  // ------------------------------------------------------------------
  // What every run gives
  // ------------------------------------------------------------------

  /** However a stream is cut into reads, and however reads and readers interleave, what the readers
      got is a front part of the one-shot parse of the stream. */
  lemma Chunking(readers: nat, es: seq<Event>, t: Sys, stream: Bytes)
    requires Run(Start(readers), es, t) && t.received <= stream
    ensures t.delivered <= Values(stream)
    ensures t.taken <= |t.received| && t.link.buf == t.received[t.taken..]
  {
    EveryRun(readers, es, t);
    PrefixValues(t.received, stream);
    Prefixes(t.delivered, Values(t.link.buf), Values(stream));
  }

  lemma Prefixes<T>(a: seq<T>, b: seq<T>, c: seq<T>)
    requires a + b <= c
    ensures a <= c
  {
  }

  lemma PrefixValues(b: Bytes, stream: Bytes)
    requires b <= stream
    ensures Values(b) <= Values(stream)
  {
    Split(stream, |b|);
    assert stream[..|b|] == b;
    ValuesExtend(b, stream[|b|..]);
  }

  /** A reader is told of a read error, of the end of the stream or of a malformed value only when
      every complete value received so far has been delivered. */
  lemma FailureComesLast(readers: nat, es: seq<Event>, t: Sys, i: nat)
    requires Run(Start(readers), es, t) && Enabled(t, Turn(i))
    requires t.readers[i].kind.Whole? && TurnAnswer(t, i).Failed?
    ensures t.delivered == Values(t.received)
    ensures TurnAnswer(t, i).why == BadValue <==> Parse(t.link.buf).Malformed?
    ensures TurnAnswer(t, i).why != BadValue ==> t.loopDone || t.link.closed
  {
    EveryRun(readers, es, t);
    ValueTurnIs(t.link);
    Emptys(t.delivered);
  }

  /** No bytes that could still come make a value of what is buffered. */
  ghost predicate Stuck(b: Bytes) {
    forall x: Bytes :: !Parse(b + x).Ok?
  }

  /** Nothing more is ever delivered: no byte can come, or none would help. */
  ghost predicate Final(s: Sys) {
    (s.loopDone && Parse(s.link.buf).NeedMore?) || Stuck(s.link.buf)
  }

  lemma MalformedIsStuck(b: Bytes)
    requires Parse(b).Malformed?
    ensures Stuck(b)
  {
    forall x: Bytes ensures !Parse(b + x).Ok? {
      ParseStable(b, x);
    }
  }

  lemma StuckIsNoValue(b: Bytes)
    requires Stuck(b)
    ensures !Parse(b).Ok?
  {
    Emptys(b);
    assert !Parse(b + []).Ok?;
  }

  lemma StuckStays(b: Bytes, chunk: Bytes)
    requires Stuck(b)
    ensures Stuck(b + chunk)
  {
    forall x: Bytes ensures !Parse(b + chunk + x).Ok? {
      Assoc(b, chunk, x);
      assert !Parse(b + (chunk + x)).Ok?;
    }
  }

  lemma FinalStep(s: Sys, e: Event)
    requires Final(s) && Enabled(s, e)
    ensures Final(Step(s, e)) && Step(s, e).delivered == s.delivered
  {
    if Stuck(s.link.buf) {
      StuckIsNoValue(s.link.buf);
      if e.Arrive? {
        StuckStays(s.link.buf, e.chunk);
      }
    }
    if e.Turn? {
      TurnIs(s, e.i);
    }
  }

  lemma {:induction false} FinalStays(s: Sys, es: seq<Event>, t: Sys)
    requires Final(s) && Run(s, es, t)
    ensures t.delivered == s.delivered
    decreases |es|
  {
    if es != [] {
      FinalStep(s, es[0]);
      FinalStays(Step(s, es[0]), es[1..], t);
    }
  }

  /** No run that goes on from `s` delivers another value. */
  ghost predicate LastWord(s: Sys) {
    forall more, t :: Run(s, more, t) ==> t.delivered == s.delivered
  }

  lemma {:induction false} RunConcat(s: Sys, a: seq<Event>, m: Sys, b: seq<Event>, t: Sys)
    requires Run(s, a, m) && Run(m, b, t)
    ensures Run(s, a + b, t)
    decreases |a|
  {
    if a == [] {
      Emptys(b);
    } else {
      assert (a + b)[1..] == a[1..] + b;
      RunConcat(Step(s, a[0]), a[1..], m, b, t);
    }
  }

  /** Any bytes may come, a bufferful at a time. */
  lemma {:induction false} BytesArrive(s: Sys, x: Bytes) returns (es: seq<Event>, t: Sys)
    requires !s.loopDone
    ensures Run(s, es, t) && !t.loopDone
    ensures t.link.buf == s.link.buf + x && t.readers == s.readers && t.delivered == s.delivered
    decreases |x|
  {
    if x == [] {
      Emptys(s.link.buf);
      es, t := [], s;
    } else {
      var n := if |x| <= READ_SIZE then |x| else READ_SIZE;
      var first := Arrive(x[..n], None);
      var rest;
      rest, t := BytesArrive(Step(s, first), x[n..]);
      Split(x, n);
      Assoc(s.link.buf, x[..n], x[n..]);
      es := [first] + rest;
      assert es[1..] == rest;
    }
  }

  /** Bytes that complete a value are delivered to a reader that comes back, as long as they may come. */
  lemma MoreMayCome(s: Sys, i: nat, x: Bytes)
    requires i < |s.readers| && s.readers[i].Idle? && !s.loopDone && Parse(s.link.buf + x).Ok?
    ensures !LastWord(s)
  {
    var es, s1 := BytesArrive(s, x);
    var begin, turn := Begin(i, Whole), Turn(i);
    var s2 := Step(s1, begin);
    ValueTurnIs(s2.link);
    TurnIs(s2, i);
    var t := Step(s2, turn);
    assert Run(t, [], t);
    assert [turn][1..] == [] && [begin, turn][1..] == [turn];
    assert Run(s2, [turn], t);
    assert Run(s1, [begin, turn], t);
    RunConcat(s, es, s1, [begin, turn], t);
    assert t.delivered == s.delivered + [Parse(s1.link.buf).v];
  }

  /** What a reader is told when it fails is the last word, for all readers and all runs, if and only if it is a
      read error or a malformed value, or no bytes could complete what is buffered. */
  lemma FinalExactly(readers: nat, es: seq<Event>, s: Sys, i: nat)
    requires Run(Start(readers), es, s) && Enabled(s, Turn(i))
    requires s.readers[i].kind.Whole? && TurnAnswer(s, i).Failed?
    ensures LastWord(Step(s, Turn(i))) <==>
              s.link.err.Some? || TurnAnswer(s, i).why == BadValue || Stuck(s.link.buf)
  {
    var after := Step(s, Turn(i));
    EveryRun(readers, es, s);
    ValueTurnIs(s.link);
    TurnIs(s, i);
    if Parse(s.link.buf).Malformed? {
      MalformedIsStuck(s.link.buf);
    }
    if s.link.err.Some? || Stuck(s.link.buf) {
      forall more, t | Run(after, more, t) ensures t.delivered == after.delivered {
        FinalStays(after, more, t);
      }
    } else {
      var x: Bytes :| Parse(s.link.buf + x).Ok?;
      MoreMayCome(after, i, x);
    }
  }

  /** A read error and a malformed verdict are the last word, and all that came before it was delivered. */
  lemma VerdictIsFinal(readers: nat, es: seq<Event>, s: Sys, i: nat, more: seq<Event>, t: Sys)
    requires Run(Start(readers), es, s) && Enabled(s, Turn(i)) && Run(s, more, t)
    requires s.readers[i].kind.Whole? && TurnAnswer(s, i).Failed?
    requires s.link.err.Some? || TurnAnswer(s, i).why == BadValue
    ensures t.delivered == s.delivered == Values(s.received)
  {
    FailureComesLast(readers, es, s, i);
    EveryRun(readers, es, s);
    ValueTurnIs(s.link);
    if Parse(s.link.buf).Malformed? {
      MalformedIsStuck(s.link.buf);
    }
    FinalStays(s, more, t);
  }

  const PONG: Bytes := [43, 80, 13, 10]

  lemma EofFirst(s: Sys)
    requires s == Step(Step(Start(1), Close), Begin(0, Whole))
    ensures s == Sys(Shut(OPENED), [Running(Whole)], false, [], 0, [])
    ensures Run(Start(1), [Close, Begin(0, Whole)], s)
    ensures Enabled(s, Turn(0)) && TurnAnswer(s, 0) == Failed(Eof)
  {
    assert Run(s, [], s);
    assert [Begin(0, Whole)][1..] == [] && [Close, Begin(0, Whole)][1..] == [Begin(0, Whole)];
    assert Run(Step(Start(1), Close), [Begin(0, Whole)], s);
  }

  lemma ValueLater(s: Sys, t: Sys)
    requires s == Sys(Shut(OPENED), [Running(Whole)], false, [], 0, [])
    requires t == s.(link := Receive(s.link, PONG, None), received := PONG)
    ensures Run(s, [Turn(0), Arrive(PONG, None), Begin(0, Whole)], t)
    ensures Enabled(t, Turn(0)) && TurnAnswer(t, 0) == Got(Simple([80]))
  {
    var t1 := s.(readers := [Idle]);
    assert Step(s, Turn(0)) == t1;
    assert [] + PONG == PONG;
    var t2 := t.(readers := [Idle]);
    assert Step(t1, Arrive(PONG, None)) == t2;
    assert Step(t2, Begin(0, Whole)) == t;
    RunThree(s, Turn(0), Arrive(PONG, None), Begin(0, Whole));
    PongParses();
  }

  const EOF_THEN_VALUE := [Close, Begin(0, Whole), Turn(0), Arrive(PONG, None), Begin(0, Whole)]

  /** The io.EOF of a closed session is not: the read loop may still hold a chunk, and a reader that
      comes back then gets its value. */
  lemma CloseIsNotFinal()
    ensures exists s, t ::
              && Run(Start(1), EOF_THEN_VALUE[..2], s) && Enabled(s, Turn(0)) && TurnAnswer(s, 0) == Failed(Eof)
              && Run(s, EOF_THEN_VALUE[2..], t) && Enabled(t, Turn(0)) && TurnAnswer(t, 0) == Got(Simple([80]))
  {
    var e := EOF_THEN_VALUE;
    assert e[..2] == [Close, Begin(0, Whole)] && e[2..] == [Turn(0), Arrive(PONG, None), Begin(0, Whole)];
    var s := Step(Step(Start(1), Close), Begin(0, Whole));
    EofFirst(s);
    ValueLater(s, s.(link := Receive(s.link, PONG, None), received := PONG));
  }

  lemma RunThree(s: Sys, a: Event, b: Event, c: Event)
    requires Enabled(s, a) && Enabled(Step(s, a), b) && Enabled(Step(Step(s, a), b), c)
    ensures Run(s, [a, b, c], Step(Step(Step(s, a), b), c))
  {
    var t := Step(Step(Step(s, a), b), c);
    assert Run(t, [], t);
    assert [c][1..] == [] && [b, c][1..] == [c] && [a, b, c][1..] == [b, c];
    assert Run(Step(Step(s, a), b), [c], t);
    assert Run(Step(s, a), [b, c], t);
  }

  lemma PongParses()
    ensures Parse(PONG) == Ok(Simple([80]), 4)
  {
    IndexIs(PONG, 2);
    ParseOneLine(PONG, 2);
    assert PONG[1..2] == [80];
  }

  /** No lost wakeup: a parked reader either may go on, or the session is open, its read loop alive,
      and there is nothing in the buffer that would answer it. */
  lemma NoLostWakeup(readers: nat, es: seq<Event>, t: Sys, i: nat)
    requires Run(Start(readers), es, t) && i < |t.readers| && t.readers[i].Parked?
    ensures Enabled(t, Wake(i)) || (!t.loopDone && Starved(t.link, t.readers[i].kind))
  {
    EveryRun(readers, es, t);
  }

  /** Once the read loop has failed or the session is closed, a parked reader may go on at once, and
      no turn parks again. */
  lemma NoneParksAfterTheEnd(readers: nat, es: seq<Event>, t: Sys, i: nat)
    requires Run(Start(readers), es, t) && i < |t.readers| && (t.loopDone || t.link.closed)
    ensures t.readers[i].Parked? ==> Enabled(t, Wake(i))
    ensures t.readers[i].Running? ==> !TurnAnswer(t, i).Park? && Step(t, Turn(i)).readers[i].Idle?
  {
    EveryRun(readers, es, t);
    ValueTurnIs(t.link);
  }

  lemma {:induction false} SpoiltStays(s: Sys, es: seq<Event>, t: Sys)
    requires !s.link.reusable && Run(s, es, t)
    ensures !t.link.reusable
    decreases |es|
  {
    if es != [] {
      ValueTurnIs(s.link);
      SpoiltStays(Step(s, es[0]), es[1..], t);
    }
  }

  /** A session whose read loop failed, that was closed, or of which a reader was told that a value is malformed,
      is not reusable ever again. */
  lemma NeverReusableAgain(readers: nat, es: seq<Event>, s: Sys, i: nat, more: seq<Event>, t: Sys)
    requires Run(Start(readers), es, s) && Enabled(s, Turn(i)) && Run(Step(s, Turn(i)), more, t)
    requires s.loopDone || s.link.closed || TurnAnswer(s, i) == Failed(BadValue)
    ensures !IsReusable(t.link)
  {
    EveryRun(readers, es, s);
    ValueTurnIs(s.link);
    SpoiltStays(Step(s, Turn(i)), more, t);
  }

  /** What makes a session unfit for another call: its connection failing, its being closed, and a reader that
      finds a malformed value. */
  predicate Spoils(s: Sys, e: Event) {
    || e.Close?
    || (e.Arrive? && e.err.Some?)
    || (e.Turn? && e.i < |s.readers| && s.readers[e.i] == Running(Whole) && Parse(s.link.buf).Malformed?)
  }

  ghost predicate Spoilt(s: Sys, es: seq<Event>, t: Sys)
    requires Run(s, es, t)
    decreases |es|
  {
    es != [] && (Spoils(s, es[0]) || Spoilt(Step(s, es[0]), es[1..], t))
  }

  lemma StepReusable(s: Sys, e: Event)
    requires FailInv(s) && Enabled(s, e)
    ensures Step(s, e).link.exclusive == s.link.exclusive
    ensures Step(s, e).link.reusable <==> s.link.reusable && !Spoils(s, e)
  {
    ValueTurnIs(s.link);
  }

  lemma {:induction false} RunReusable(s: Sys, es: seq<Event>, t: Sys)
    requires Inv(s) && Run(s, es, t)
    ensures t.link.exclusive == s.link.exclusive
    ensures t.link.reusable <==> s.link.reusable && !Spoilt(s, es, t)
    decreases |es|
  {
    if es != [] {
      StepReusable(s, es[0]);
      StepKeepsInv(s, es[0]);
      RunReusable(Step(s, es[0]), es[1..], t);
    }
  }

  /** A session is reusable as long as its connection did not fail, nobody closed it and no reader found a
      malformed value, and no longer. */
  lemma ReusableExactly(readers: nat, es: seq<Event>, t: Sys)
    requires Run(Start(readers), es, t)
    ensures IsReusable(t.link) <==> !Spoilt(Start(readers), es, t)
  {
    assert Values([]) == [] && Used([]) == 0;
    RunReusable(Start(readers), es, t);
    EveryRun(readers, es, t);
  }

  /** waitFirstByte: bytes come before any failure, a read error before the end of a closed session, and it waits
      when there is none of these. */
  lemma ByteTurnIs(l: Link)
    ensures ByteTurn(l) ==
              if |l.buf| > 0 then Ready
              else if l.err.Some? then Failed(l.err.value)
              else if l.closed then Failed(Eof)
              else Park(l.wake)
  {
  }

  lemma {:induction false} ErrorStays(s: Sys, es: seq<Event>, t: Sys)
    requires FailInv(s) && s.link.err.Some? && Run(s, es, t)
    ensures t.link.err == s.link.err
    decreases |es|
  {
    if es != [] {
      ValueTurnIs(s.link);
      StepKeepsFail(s, es[0]);
      ErrorStays(Step(s, es[0]), es[1..], t);
    }
  }

  /** The error that ended the read loop is the one that readers are told, whoever reads and however much later,
      once the buffer holds nothing more for them; and the bytes that came with it are not lost. */
  lemma ErrorIsTheReads(readers: nat, es: seq<Event>, s: Sys, chunk: Bytes, e: Failure, more: seq<Event>, t: Sys,
                        i: nat)
    requires Run(Start(readers), es, s) && Enabled(s, Arrive(chunk, Some(e)))
    requires Run(Step(s, Arrive(chunk, Some(e))), more, t) && Enabled(t, Turn(i))
    ensures t.link.err == Some(e)
    ensures TurnAnswer(t, i).Failed? && TurnAnswer(t, i).why != BadValue ==> TurnAnswer(t, i) == Failed(e)
    ensures Step(s, Arrive(chunk, Some(e))).link.buf == s.link.buf + chunk
  {
    var u := Step(s, Arrive(chunk, Some(e)));
    EveryRun(readers, es, s);
    StepKeepsInv(s, Arrive(chunk, Some(e)));
    ErrorStays(u, more, t);
    RunKeepsInv(u, more, t);
    ValueTurnIs(t.link);
    ByteTurnIs(t.link);
  }
}

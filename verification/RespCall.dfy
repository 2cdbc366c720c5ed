/** One call on a RESP session (`example/resp/call.go`), and the way a request's arguments travel from
    the client's Send to the server's Recv. */
module RespCall {
  import opened Seqs
  import opened Decimal
  import opened RespWire
  import opened RespSession

  // ------------------------------------------------------------------
  // Commands
  // ------------------------------------------------------------------

  datatype Command = Command(name: Bytes, args: seq<Bytes>) | NotCommand

  /** commandFromValue: a non-empty array of bulk strings, name first. */
  function CommandOf(v: Value): Command {
    if !v.Array? || v.elems == [] then NotCommand
    else
      match Strings(v.elems)
      case None => NotCommand
      case Some(ss) => Command(ss[0], ss[1..])
  }

  /** The commands are exactly the non-empty arrays of bulk strings, name first. */
  lemma CommandsExactly(v: Value, name: Bytes, args: seq<Bytes>)
    ensures CommandOf(v) == Command(name, args) <==> v == Array(Bulks([name] + args))
  {
    StringsOfBulks([name] + args);
    if v.Array? && v.elems != [] && Strings(v.elems).Some? {
      var ss := Strings(v.elems).value;
      assert |ss| == |Bulks(ss)|;
      assert ss == [ss[0]] + ss[1..];
    }
  }

  method CommandFromValue(v: Value) returns (c: Command)
    ensures c == CommandOf(v)
  {
    if !v.Array? || |v.elems| == 0 {
      return NotCommand;
    }
    if !v.elems[0].Bulk? {
      return NotCommand;
    }
    var name, args := v.elems[0].str, [];
    for i := 1 to |v.elems|
      invariant v.elems[..i] == Bulks([name] + args)
    {
      if !v.elems[i].Bulk? {
        return NotCommand;
      }
      args := args + [v.elems[i].str];
    }
    assert v.elems[..|v.elems|] == v.elems;
    StringsOfBulks([name] + args);
    return Command(name, args);
  }

  /** What sendClient puts on the wire for `payload`, None when it refuses it. */
  function Packet(cmd: Bytes, payload: Bytes): Option<Bytes> {
    if payload == [] then Some(EncodeArray([cmd]))
    else
      match DecodeArgs(payload)
      case BadArgs => None
      case Args(args) => Some(EncodeArray([cmd] + args))
  }

  /** The arguments a payload stands for; none when it is empty. */
  function ArgsOf(payload: Bytes): Decoded {
    if payload == [] then Args([]) else DecodeArgs(payload)
  }

  lemma AllCleanAt(vs: seq<Value>, i: nat)
    requires AllClean(vs) && i < |vs|
    ensures Clean(vs[i])
  {
    if i > 0 {
      AllCleanAt(vs[1..], i - 1);
    }
  }

  /** Arguments that were decoded are short enough to be encoded again. */
  lemma DecodedIsShort(b: Bytes)
    requires DecodeArgs(b).Args? && |b| <= MAX_INT64
    ensures Short(DecodeArgs(b).list)
  {
    var vs, list := Parse(b).v.elems, DecodeArgs(b).list;
    ParsedIsClean(b);
    forall i | 0 <= i < |list| ensures |list[i]| <= MAX_INT64 {
      assert vs[i] == Bulks(list)[i];
      AllCleanAt(vs, i);
    }
  }

  /** End to end: whatever else is on the connection behind it, the packet written for a payload is one
      value, the server reads the command back from it, and what its Recv hands over decodes to the very
      arguments the client's payload held. */
  lemma ArgumentsArrive(cmd: Bytes, payload: Bytes, rest: Bytes)
    requires |cmd| <= MAX_INT64 && |payload| <= MAX_INT64
    requires ArgsOf(payload).Args? && |ArgsOf(payload).list| < MAX_INT64
    ensures Packet(cmd, payload).Some?
    ensures var packet, args := Packet(cmd, payload).value, ArgsOf(payload).list;
            && Parse(packet + rest) == Ok(Array(Bulks([cmd] + args)), |packet|)
            && CommandOf(Parse(packet + rest).v) == Command(cmd, args)
            && DecodeArgs(EncodeArray(args)) == Args(args)
  {
    var args := ArgsOf(payload).list;
    if payload != [] {
      DecodedIsShort(payload);
    }
    var words := [cmd] + args;
    assert payload == [] ==> words == [cmd];
    ArgsRoundTrip(args);
    BulksClean(words);
    RoundTrip(Array(Bulks(words)), rest);
    StringsOfBulks(words);
    assert words[1..] == args;
  }

  // ------------------------------------------------------------------
  // Many calls on one connection
  // ------------------------------------------------------------------

  function Joined(packets: seq<Bytes>): Bytes {
    if packets == [] then [] else packets[0] + Joined(packets[1..])
  }

  function Requests(commands: seq<seq<Bytes>>): seq<Bytes> {
    seq(|commands|, i requires 0 <= i < |commands| => EncodeArray(commands[i]))
  }

  function Arrays(commands: seq<seq<Bytes>>): seq<Value> {
    seq(|commands|, i requires 0 <= i < |commands| => Array(Bulks(commands[i])))
  }

  lemma {:induction false} OneShot(commands: seq<seq<Bytes>>)
    requires forall i :: 0 <= i < |commands| ==> Short(commands[i])
    ensures Values(Joined(Requests(commands))) == Arrays(commands)
    decreases |commands|
  {
    if commands == [] {
      assert Values([]) == [];
    } else {
      var rest := commands[1..];
      var first, others := EncodeArray(commands[0]), Joined(Requests(rest));
      assert Requests(commands)[1..] == Requests(rest);
      assert Arrays(commands) == [Array(Bulks(commands[0]))] + Arrays(rest);
      OneShot(rest);
      BulksClean(commands[0]);
      RoundTrip(Array(Bulks(commands[0])), others);
      Seam(first, others);
      ValuesCons(first + others);
    }
  }

  /** Requests arrive whole and in order: however the connection cuts the bytes of any number of
      requests into reads, and however readers interleave with them, the i-th value a reader gets is the
      i-th request. */
  lemma RequestsArrive(commands: seq<seq<Bytes>>, readers: nat, es: seq<Event>, t: Sys, i: nat)
    requires forall k :: 0 <= k < |commands| ==> commands[k] != [] && Short(commands[k])
    requires Run(Start(readers), es, t) && t.received <= Joined(Requests(commands))
    requires i < |t.delivered|
    ensures i < |commands| && CommandOf(t.delivered[i]) == Command(commands[i][0], commands[i][1..])
  {
    Chunking(readers, es, t, Joined(Requests(commands)));
    OneShot(commands);
    assert t.delivered[i] == Arrays(commands)[i];
    StringsOfBulks(commands[i]);
  }

  // ------------------------------------------------------------------
  // A call's flags
  // ------------------------------------------------------------------

  datatype Problem =
    | CallClosed
    | SendFinished
    | BadPayload
    | WriteFailed
    | EndOfStream
    | Unimplemented
    | NoReply
    | Status(str: Bytes)

  /** What a call is from the start. */
  datatype Role = Role(initiator: bool, streaming: bool, cmd: Bytes, args: seq<Bytes>)

  /** `sent` is every packet the call wrote, in order; `replies` counts the values a client's Recvs took
      off the connection; `bad` says that the call has marked its session so. */
  datatype State = State(role: Role, argsSent: bool, reqSent: bool, halfClosed: bool, replySent: bool,
                         finished: bool, closed: bool, terminal: bool, sent: seq<Bytes>, replies: nat, bad: bool)

  function NewCall(role: Role): State {
    State(role, false, false, false, false, false, false, false, [], 0, false)
  }

  /** `wrote` is whether the carrier takes the packet; `RecvServer` and `RecvClient` are the two sides'
      Recv, the latter with whether readValue gave a value or an error. */
  datatype Op =
    | Send(payload: Bytes, wrote: bool)
    | RecvServer
    | RecvClient(got: bool)
    | HalfClose
    | Finish(message: Option<Bytes>, wrote: bool)
    | CloseCall

  function Refused(c: State): Option<Problem> {
    if c.closed then Some(CallClosed)
    else if c.role.initiator && (c.reqSent || c.halfClosed) then Some(SendFinished)
    else if !c.role.initiator && !c.role.streaming && (c.replySent || c.finished) then Some(SendFinished)
    else if !c.role.initiator && c.role.streaming && c.finished then Some(SendFinished)
    else None
  }

  /** What Send writes for a payload. */
  function PacketOf(role: Role, payload: Bytes): Option<Bytes> {
    if role.initiator then Packet(role.cmd, payload) else Some(payload)
  }

  function SendError(c: State, packet: Option<Bytes>, wrote: bool): Option<Problem> {
    if Refused(c).Some? then Refused(c)
    else if packet.None? then Some(BadPayload)
    else if !wrote then Some(WriteFailed)
    else None
  }

  function Sent(c: State, packet: Option<Bytes>, wrote: bool): State {
    match SendError(c, packet, wrote)
    case None =>
      var d := c.(sent := c.sent + [packet.value]);
      if c.role.initiator then d.(reqSent := true) else d.(replySent := true)
    case Some(e) => if e.WriteFailed? then c.(bad := true) else c
  }

  /** The arguments go out once. */
  function ServerRecvError(c: State): Option<Problem> {
    if c.role.initiator then Some(Unimplemented)
    else if c.closed then Some(CallClosed)
    else if c.argsSent then Some(EndOfStream)
    else None
  }

  function ServerRecvd(c: State): State {
    if ServerRecvError(c).None? then c.(argsSent := true) else c
  }

  function ClientRecvError(c: State, got: bool): Option<Problem> {
    if !c.role.initiator then Some(Unimplemented)
    else if c.closed then Some(CallClosed)
    else if c.terminal then Some(EndOfStream)
    else if !got then Some(NoReply)
    else None
  }

  function ClientRecvd(c: State, got: bool): State {
    match ClientRecvError(c, got)
    case None => c.(terminal := !c.role.streaming, replies := c.replies + 1)
    case Some(e) => if e.NoReply? then c.(terminal := true, bad := true) else c
  }

  function HalfCloseError(c: State): Option<Problem> {
    if !c.role.initiator then Some(Unimplemented)
    else if c.closed then Some(CallClosed)
    else None
  }

  function HalfClosed(c: State): State {
    if HalfCloseError(c).None? then c.(halfClosed := true) else c
  }

  /** `quiet`: Finish has nothing to write, because there was a reply or there is no error. */
  function FinishError(c: State, quiet: bool, wrote: bool): Option<Problem> {
    if c.role.initiator then Some(Unimplemented)
    else if c.closed then Some(CallClosed)
    else if c.finished then Some(SendFinished)
    else if !quiet && !wrote then Some(WriteFailed)
    else None
  }

  const ERR_PREFIX: Bytes := [69, 82, 82, 32]

  /** EncodeError of "ERR " and the message. */
  function Denial(message: Bytes): Bytes {
    Line(MINUS, ERR_PREFIX + message)
  }

  function Finished(c: State, message: Option<Bytes>, wrote: bool): State {
    var quiet := c.replySent || message.None?;
    match FinishError(c, quiet, wrote)
    case None =>
      if quiet then c.(finished := true)
      else c.(finished := true, replySent := true, sent := c.sent + [Denial(message.value)])
    case Some(e) => if e.WriteFailed? then c.(finished := true, bad := true) else c
  }

  function ClosedCall(c: State): State {
    c.(closed := true, terminal := c.terminal || (!c.closed && c.role.initiator && c.role.streaming))
  }

  /** The state after a method. */
  function Do(c: State, op: Op): State {
    match op
    case Send(payload, wrote) => Sent(c, PacketOf(c.role, payload), wrote)
    case RecvServer => ServerRecvd(c)
    case RecvClient(got) => ClientRecvd(c, got)
    case HalfClose => HalfClosed(c)
    case Finish(message, wrote) => Finished(c, message, wrote)
    case CloseCall => ClosedCall(c)
  }

  /** Whether Close marks the session non-reusable. */
  predicate Poisons(c: State) {
    c.role.streaming || (if c.role.initiator then !c.terminal else !c.replySent && !c.finished)
  }

  ghost predicate Calls(c: State, ops: seq<Op>, d: State)
    decreases |ops|
  {
    if ops == [] then c == d else Calls(Do(c, ops[0]), ops[1..], d)
  }

  /** The payload a client's `sent` came from. */
  ghost predicate SentFor(c: State, payload: Bytes) {
    Packet(c.role.cmd, payload).Some? && c.sent == [Packet(c.role.cmd, payload).value]
  }

  ghost predicate ClientInv(c: State) {
    && c.role.initiator
    && (if c.reqSent then exists payload :: SentFor(c, payload) else c.sent == [])
    && (!c.role.streaming ==>
          c.replies <= 1 && (c.replies == 1 ==> c.terminal) && (c.terminal ==> c.replies == 1 || c.bad))
  }

  ghost predicate ServerInv(c: State) {
    && !c.role.initiator
    && (c.replySent <==> c.sent != [])
    && (!c.role.streaming ==> |c.sent| <= 1)
  }

  lemma ClientSends(c: State, payload: Bytes, packet: Option<Bytes>, wrote: bool)
    requires ClientInv(c) && packet == Packet(c.role.cmd, payload)
    ensures ClientInv(Sent(c, packet, wrote))
  {
    var d := Sent(c, packet, wrote);
    if c.reqSent {
      var before :| SentFor(c, before);
      assert SentFor(d, before);
    } else if d.reqSent {
      Emptys([packet.value]);
      assert SentFor(d, payload);
    }
  }

  lemma NothingSent(c: State, d: State)
    requires ClientInv(c) && d.role == c.role && d.sent == c.sent && d.reqSent == c.reqSent
    requires !d.role.streaming ==>
               d.replies <= 1 && (d.replies == 1 ==> d.terminal) && (d.terminal ==> d.replies == 1 || d.bad)
    ensures ClientInv(d)
  {
    if c.reqSent {
      var payload :| SentFor(c, payload);
      assert SentFor(d, payload);
    }
  }

  lemma RoleStays(c: State, op: Op)
    ensures Do(c, op).role == c.role && (c.argsSent ==> Do(c, op).argsSent)
  {
    match op
    case Send(payload, wrote) => SentRole(c, PacketOf(c.role, payload), wrote);
    case RecvServer =>
    case RecvClient(_) =>
    case HalfClose =>
    case Finish(message, wrote) => FinishedRole(c, message, wrote);
    case CloseCall =>
  }

  lemma SentRole(c: State, packet: Option<Bytes>, wrote: bool)
    ensures var d := Sent(c, packet, wrote); d.role == c.role && d.argsSent == c.argsSent
  {
  }

  lemma FinishedRole(c: State, message: Option<Bytes>, wrote: bool)
    ensures var d := Finished(c, message, wrote); d.role == c.role && d.argsSent == c.argsSent
  {
  }

  lemma ClientRecvKeeps(c: State, got: bool)
    requires ClientInv(c)
    ensures ClientInv(ClientRecvd(c, got))
  {
    NothingSent(c, ClientRecvd(c, got));
  }

  lemma ClientCloseKeeps(c: State)
    requires ClientInv(c)
    ensures ClientInv(ClosedCall(c)) && ClientInv(HalfClosed(c))
  {
    NothingSent(c, ClosedCall(c));
    NothingSent(c, HalfClosed(c));
  }

  lemma ClientIsNoServer(c: State, message: Option<Bytes>, wrote: bool)
    requires c.role.initiator
    ensures ServerRecvd(c) == c && Finished(c, message, wrote) == c
  {
  }

  lemma ClientStep(c: State, op: Op)
    requires ClientInv(c)
    ensures ClientInv(Do(c, op))
  {
    match op
    case Send(payload, wrote) => ClientSends(c, payload, PacketOf(c.role, payload), wrote);
    case RecvClient(got) => ClientRecvKeeps(c, got);
    case CloseCall => ClientCloseKeeps(c);
    case HalfClose => ClientCloseKeeps(c);
    case RecvServer => ClientIsNoServer(c, None, false);
    case Finish(message, wrote) => ClientIsNoServer(c, message, wrote);
  }

  lemma {:induction false} ClientKeeps(c: State, ops: seq<Op>, d: State)
    requires ClientInv(c) && Calls(c, ops, d)
    ensures ClientInv(d) && d.role == c.role
    decreases |ops|
  {
    if ops != [] {
      ClientStep(c, ops[0]);
      RoleStays(c, ops[0]);
      ClientKeeps(Do(c, ops[0]), ops[1..], d);
    }
  }

  lemma ServerStep(c: State, op: Op)
    requires ServerInv(c)
    ensures ServerInv(Do(c, op))
  {
  }

  lemma {:induction false} ServerKeeps(c: State, ops: seq<Op>, d: State)
    requires ServerInv(c) && Calls(c, ops, d)
    ensures ServerInv(d) && d.role == c.role
    decreases |ops|
  {
    if ops != [] {
      ServerStep(c, ops[0]);
      RoleStays(c, ops[0]);
      ServerKeeps(Do(c, ops[0]), ops[1..], d);
    }
  }

  /** Whatever a caller does with a client call, and in whatever order, at most one request packet is
      written; and a closed call leaves its session reusable exactly when it was unary, its one reply has
      been taken off the connection and neither reading nor writing failed. */
  lemma ClientCall(role: Role, ops: seq<Op>, d: State)
    requires role.initiator && Calls(NewCall(role), ops, d)
    ensures d.role == role && (d.sent == [] || exists payload :: SentFor(d, payload))
    ensures !Poisons(d) && !d.bad <==> !role.streaming && d.replies == 1 && !d.bad
    ensures !role.streaming ==> d.replies <= 1
  {
    ClientKeeps(NewCall(role), ops, d);
  }

  /** A unary server call writes at most one reply, Finish's error included; and a closed call leaves its
      session reusable exactly when it was unary, replied or finished, and no write failed. */
  lemma ServerCall(role: Role, ops: seq<Op>, d: State)
    requires !role.initiator && Calls(NewCall(role), ops, d)
    ensures !role.streaming ==> |d.sent| <= 1
    ensures !Poisons(d) && !d.bad <==> !role.streaming && (d.sent != [] || d.finished) && !d.bad
  {
    ServerKeeps(NewCall(role), ops, d);
  }

  /** A server's Recv gives the arguments once and the end of the stream ever after. */
  lemma {:induction false} ArgsOnce(c: State, ops: seq<Op>, d: State)
    requires !c.role.initiator && c.argsSent && Calls(c, ops, d)
    ensures ServerRecvError(d) == Some(if d.closed then CallClosed else EndOfStream)
    decreases |ops|
  {
    if ops != [] {
      RoleStays(c, ops[0]);
      ArgsOnce(Do(c, ops[0]), ops[1..], d);
    }
  }

  /** Nothing more is written by a closed call, by a client call that was half closed, or by a server call that
      finished. */
  lemma {:induction false} NothingMoreSent(c: State, ops: seq<Op>, d: State)
    requires Mute(c) && Calls(c, ops, d)
    ensures d.sent == c.sent
    decreases |ops|
  {
    if ops != [] {
      MuteStep(c, ops[0]);
      NothingMoreSent(Do(c, ops[0]), ops[1..], d);
    }
  }

  ghost predicate Mute(c: State) {
    c.closed || (if c.role.initiator then c.halfClosed else c.finished)
  }

  lemma MuteSends(c: State, packet: Option<Bytes>, wrote: bool)
    requires Mute(c)
    ensures Sent(c, packet, wrote) == c
  {
    assert Refused(c).Some?;
  }

  lemma MuteFinishes(c: State, message: Option<Bytes>, wrote: bool)
    requires Mute(c)
    ensures Finished(c, message, wrote) == c
  {
  }

  lemma MuteRecvs(c: State, got: bool)
    requires Mute(c)
    ensures Mute(ServerRecvd(c)) && ServerRecvd(c).sent == c.sent
    ensures Mute(ClientRecvd(c, got)) && ClientRecvd(c, got).sent == c.sent
  {
  }

  lemma MuteStep(c: State, op: Op)
    requires Mute(c)
    ensures Mute(Do(c, op)) && Do(c, op).sent == c.sent
  {
    match op
    case Send(payload, wrote) => MuteSends(c, PacketOf(c.role, payload), wrote);
    case RecvServer => MuteRecvs(c, true);
    case RecvClient(got) => MuteRecvs(c, got);
    case HalfClose =>
    case Finish(message, wrote) => MuteFinishes(c, message, wrote);
    case CloseCall =>
  }

  /** A server's packet is the payload as it is. */
  lemma ServerSendsPayload(c: State, payload: Bytes)
    requires !c.role.initiator && !c.closed && !c.finished && (!c.role.streaming ==> !c.replySent)
    ensures Do(c, Send(payload, true)).sent == c.sent + [payload]
  {
  }

  /** An error given to Finish goes out as an error reply that says so, when there was no reply. */
  lemma FinishSends(c: State, message: Bytes)
    requires !c.role.initiator && !c.closed && !c.finished && !c.replySent
    ensures Do(c, Finish(Some(message), true)).sent == c.sent + [Ascii("-ERR ") + message + Ascii("\r\n")]
  {
    assert Ascii("-ERR ") == [MINUS] + ERR_PREFIX;
    assert Ascii("\r\n") == CRLF;
    Assoc([MINUS], ERR_PREFIX, message);
  }

  /** A streaming client call takes one reply after the other until reading fails or it is closed. */
  lemma StreamGoesOn(c: State)
    requires c.role.initiator && c.role.streaming && !c.closed && !c.terminal
    ensures ClientRecvError(c, true).None? && !ClientRecvd(c, true).terminal
    ensures ClientRecvd(c, false).terminal && ClientRecvError(ClientRecvd(c, false), true) == Some(EndOfStream)
  {
  }

  // ------------------------------------------------------------------
  // What a caller is told
  // ------------------------------------------------------------------

  predicate WasFinished(ops: seq<Op>) {
    exists k :: 0 <= k < |ops| && ops[k].Finish?
  }

  lemma FinishedFirst(ops: seq<Op>)
    requires ops != []
    ensures WasFinished(ops) <==> ops[0].Finish? || WasFinished(ops[1..])
  {
    if WasFinished(ops) && !ops[0].Finish? {
      var k :| 0 <= k < |ops| && ops[k].Finish?;
      assert ops[1..][k - 1].Finish?;
    }
    if WasFinished(ops[1..]) {
      var k :| 0 <= k < |ops[1..]| && ops[1..][k].Finish?;
      assert ops[k + 1].Finish?;
    }
  }

  /** The flags of a call that is not closed, one by one. */
  ghost predicate Recorded(c: State, shut: bool, half: bool, fin: bool, d: State) {
    && d.role == c.role
    && (d.closed <==> c.closed || shut)
    && (!d.closed && d.role.initiator ==> (d.halfClosed <==> c.halfClosed || half))
    && (!d.closed && !d.role.initiator ==> (d.finished <==> c.finished || fin))
  }

  ghost predicate SentFlags(c: State) {
    if c.role.initiator then c.reqSent <==> c.sent != [] else c.replySent <==> c.sent != []
  }

  lemma SentRecords(c: State, packet: Option<Bytes>, wrote: bool)
    ensures Recorded(c, false, false, false, Sent(c, packet, wrote))
    ensures SentFlags(c) ==> SentFlags(Sent(c, packet, wrote))
  {
    var d := Sent(c, packet, wrote);
    if SendError(c, packet, wrote).None? {
      assert d.sent == c.sent + [packet.value];
    } else {
      assert d.sent == c.sent;
    }
  }

  lemma FinishRecords(c: State, message: Option<Bytes>, wrote: bool)
    ensures var d := Finished(c, message, wrote); Recorded(c, false, false, true, d) && (SentFlags(c) ==> SentFlags(d))
  {
  }

  lemma RecvRecords(c: State, got: bool)
    ensures var d := ClientRecvd(c, got); Recorded(c, false, false, false, d) && (SentFlags(c) ==> SentFlags(d))
  {
  }

  lemma StepRecords(c: State, op: Op)
    ensures Recorded(c, op == CloseCall, op == HalfClose, op.Finish?, Do(c, op))
    ensures SentFlags(c) ==> SentFlags(Do(c, op))
  {
    match op
    case Send(payload, wrote) => SentRecords(c, PacketOf(c.role, payload), wrote);
    case RecvServer =>
    case RecvClient(got) => RecvRecords(c, got);
    case HalfClose =>
    case Finish(message, wrote) => FinishRecords(c, message, wrote);
    case CloseCall =>
  }

  lemma {:induction false} RunRecords(c: State, ops: seq<Op>, d: State)
    requires SentFlags(c) && Calls(c, ops, d)
    ensures SentFlags(d) && Recorded(c, CloseCall in ops, HalfClose in ops, WasFinished(ops), d)
    decreases |ops|
  {
    if ops != [] {
      StepRecords(c, ops[0]);
      RunRecords(Do(c, ops[0]), ops[1..], d);
      FinishedFirst(ops);
    }
  }

  /** What Send tells, after whatever was done with the call: that the call is closed, once it was; that there is
      nothing more to send, of a client that sent its request or was half closed, of a server that finished, or
      that replied and is unary; that the payload is none, of a client when it is no list of arguments; and
      otherwise whether the connection took the packet. */
  lemma SendTells(role: Role, ops: seq<Op>, d: State, payload: Bytes, wrote: bool)
    requires Calls(NewCall(role), ops, d)
    ensures SendError(d, PacketOf(role, payload), wrote) ==
              if CloseCall in ops then Some(CallClosed)
              else if role.initiator && (d.sent != [] || HalfClose in ops) then Some(SendFinished)
              else if !role.initiator && (WasFinished(ops) || (!role.streaming && d.sent != [])) then Some(SendFinished)
              else if role.initiator && payload != [] && DecodeArgs(payload).BadArgs? then Some(BadPayload)
              else if wrote then None
              else Some(WriteFailed)
  {
    RunRecords(NewCall(role), ops, d);
  }

  /** What Finish tells, in the same way: a server may finish once. */
  lemma FinishTells(role: Role, ops: seq<Op>, d: State, message: Option<Bytes>, wrote: bool)
    requires Calls(NewCall(role), ops, d)
    ensures FinishError(d, d.replySent || message.None?, wrote) ==
              if role.initiator then Some(Unimplemented)
              else if CloseCall in ops then Some(CallClosed)
              else if WasFinished(ops) then Some(SendFinished)
              else if wrote || message.None? || d.sent != [] then None
              else Some(WriteFailed)
  {
    RunRecords(NewCall(role), ops, d);
  }

  // ------------------------------------------------------------------
  // The call object
  // ------------------------------------------------------------------

  /** What a call needs of its session: writing, and the two marks it leaves. */
  class Wire {
    var written: seq<Bytes>
    var reusable: bool
    var busy: bool
    var exclusive: bool

    /** writeRaw; `wrote` is the carrier's answer. */
    method Write(packet: Bytes, wrote: bool)
      modifies this`written, this`reusable
      ensures written == (if wrote then old(written) + [packet] else old(written))
      ensures reusable == (wrote && old(reusable))
    {
      if wrote {
        written := written + [packet];
      } else {
        reusable := false;
      }
    }

    method MarkBad()
      modifies this`reusable
      ensures !reusable
    {
      reusable := false;
    }

    /** endCall */
    method EndCall(poison: bool)
      modifies this`busy, this`reusable
      ensures !busy && reusable == (old(reusable) && !poison && !exclusive)
    {
      busy := false;
      if poison || exclusive {
        reusable := false;
      }
    }
  }

  class Call {
    const sess: Wire
    const role: Role
    var argsSent: bool
    var reqSent: bool
    var halfClosed: bool
    var replySent: bool
    var finished: bool
    var closed: bool
    var terminal: bool
    ghost var sent: seq<Bytes>
    ghost var replies: nat
    ghost var bad: bool

    ghost function View(): State
      reads this
    {
      State(role, argsSent, reqSent, halfClosed, replySent, finished, closed, terminal, sent, replies, bad)
    }

    constructor (sess: Wire, role: Role)
      ensures View() == NewCall(role) && this.sess == sess
    {
      this.sess, this.role := sess, role;
      argsSent, reqSent, halfClosed, replySent := false, false, false, false;
      finished, closed, terminal, sent, replies, bad := false, false, false, [], 0, false;
    }

    method SendPacket(packet: Bytes, wrote: bool)
      modifies this`sent, this`bad, sess`written, sess`reusable
      ensures bad == (old(bad) || !wrote)
      ensures sent == (if wrote then old(sent) + [packet] else old(sent))
      ensures sess.written == (if wrote then old(sess.written) + [packet] else old(sess.written))
      ensures sess.reusable == (wrote && old(sess.reusable))
    {
      sess.Write(packet, wrote);
      if wrote {
        sent := sent + [packet];
      } else {
        bad := true;
      }
    }

    /** Send */
    method Send(payload: Bytes, wrote: bool) returns (err: Option<Problem>)
      modifies this`reqSent, this`replySent, this`sent, this`bad, sess`written, sess`reusable
      ensures View() == Sent(old(View()), PacketOf(role, payload), wrote)
      ensures err == SendError(old(View()), PacketOf(role, payload), wrote)
      ensures old(sent) <= sent && sess.written == old(sess.written) + sent[|old(sent)|..]
      ensures sess.reusable == (old(sess.reusable) && err != Some(WriteFailed))
    {
      if closed {
        return Some(CallClosed);
      }
      if role.initiator && (reqSent || halfClosed) {
        return Some(SendFinished);
      }
      if !role.initiator && !role.streaming && (replySent || finished) {
        return Some(SendFinished);
      }
      if !role.initiator && role.streaming && finished {
        return Some(SendFinished);
      }
      if role.initiator {
        err := SendClient(payload, wrote);
      } else {
        SendPacket(payload, wrote);
        if !wrote {
          return Some(WriteFailed);
        }
        replySent := true;
        return None;
      }
    }

    method SendClient(payload: Bytes, wrote: bool) returns (err: Option<Problem>)
      requires role.initiator && Refused(View()).None?
      modifies this`reqSent, this`sent, this`bad, sess`written, sess`reusable
      ensures View() == Sent(old(View()), PacketOf(role, payload), wrote)
      ensures err == SendError(old(View()), PacketOf(role, payload), wrote)
      ensures old(sent) <= sent && sess.written == old(sess.written) + sent[|old(sent)|..]
      ensures sess.reusable == (old(sess.reusable) && err != Some(WriteFailed))
    {
      var given: seq<Bytes> := [];
      if |payload| > 0 {
        var d := DecodeArgsLoop(payload);
        if d.BadArgs? {
          return Some(BadPayload);
        }
        given := d.list;
      }
      Emptys([role.cmd]);
      var packet := EncodeArrayLoop([role.cmd] + given);
      SendPacket(packet, wrote);
      if !wrote {
        return Some(WriteFailed);
      }
      reqSent := true;
      return None;
    }

    /** Recv of a responder: the arguments, as a payload. */
    method RecvServer() returns (payload: Bytes, err: Option<Problem>)
      requires !role.initiator
      modifies this`argsSent
      ensures View() == ServerRecvd(old(View())) && err == ServerRecvError(old(View()))
      ensures err.None? ==> payload == EncodeArray(role.args)
    {
      payload := [];
      if closed {
        return [], Some(CallClosed);
      }
      if argsSent {
        return [], Some(EndOfStream);
      }
      argsSent := true;
      payload := EncodeArrayLoop(role.args);
      err := None;
    }

    /** Recv of an initiator, `value` being what readValue gave. */
    method RecvClient(value: Option<Value>) returns (payload: Bytes, err: Option<Problem>)
      requires role.initiator
      modifies this`terminal, this`replies, this`bad, sess`reusable
      ensures View() == ClientRecvd(old(View()), value.Some?)
      ensures err == match ClientRecvError(old(View()), value.Some?)
                     case Some(e) => Some(e)
                     case None => if value.value.Fault? then Some(Status(value.value.str)) else None
      ensures err.None? ==> payload == Marshal(value.value)
      ensures sess.reusable == (old(sess.reusable) && err != Some(NoReply))
    {
      payload := [];
      if closed {
        return [], Some(CallClosed);
      }
      if terminal {
        return [], Some(EndOfStream);
      }
      if value.None? {
        terminal := true;
        bad := true;
        sess.MarkBad();
        return [], Some(NoReply);
      }
      if !role.streaming {
        terminal := true;
      }
      replies := replies + 1;
      if value.value.Fault? {
        return [], Some(Status(value.value.str));
      }
      payload := MarshalValue(value.value);
      err := None;
    }

    /** Finish; `message` is what the error says. */
    method Finish(message: Option<Bytes>, wrote: bool) returns (err: Option<Problem>)
      modifies this`finished, this`replySent, this`sent, this`bad, sess`written, sess`reusable
      ensures View() == Finished(old(View()), message, wrote)
      ensures err == FinishError(old(View()), old(replySent) || message.None?, wrote)
      ensures old(sent) <= sent && sess.written == old(sess.written) + sent[|old(sent)|..]
      ensures sess.reusable == (old(sess.reusable) && err != Some(WriteFailed))
    {
      if role.initiator {
        return Some(Unimplemented);
      }
      if closed {
        return Some(CallClosed);
      }
      if finished {
        return Some(SendFinished);
      }
      finished := true;
      if replySent || message.None? {
        return None;
      }
      SendPacket(Denial(message.value), wrote);
      if !wrote {
        return Some(WriteFailed);
      }
      replySent := true;
      return None;
    }

    /** Close: the session gets its slot back once, poisoned or not. */
    method Close()
      modifies this`closed, this`terminal, sess`busy, sess`reusable
      ensures View() == ClosedCall(old(View()))
      ensures if old(closed) then sess.busy == old(sess.busy) && sess.reusable == old(sess.reusable)
              else !sess.busy && sess.reusable == (old(sess.reusable) && !Poisons(old(View())) && !sess.exclusive)
    {
      if closed {
        return;
      }
      closed := true;
      var poison := false;
      if role.initiator {
        if role.streaming {
          poison := true;
          terminal := true;
        } else {
          poison := !terminal;
        }
      } else {
        poison := !replySent && !finished;
        if role.streaming {
          poison := true;
        }
      }
      sess.EndCall(poison);
    }
  }
}

/** Any number of callers, the reclaim ticker and Close interleaving the lock regions of one pool.

    A caller is one run of Acquire or OpenCall followed by its Release; a goroutine
    that holds several sessions is several callers. Between regions the lock is free. */
module PoolRuns {
  import opened Seqs
  import opened PoolSpec

  /** Plain is Acquire; Attempt is an OpenCall chain with the sessions that answered Busy. */
  datatype Chain = Plain | Attempt(n: nat, skip: set<Conn>)

  function SkipOf(ch: Chain): set<Conn> {
    if ch.Plain? then {} else ch.skip
  }

  /** Where a caller is. `viaDial` says that the error it reports is the one a dial ended with. */
  datatype Caller =
    | Ready(ep: Endpoint, chain: Chain)
    | Dialing(ep: Endpoint, chain: Chain, leads: Option<nat>)
    | Settling(ep: Endpoint, chain: Chain, leads: Option<nat>, outcome: Outcome)
    | Waiting(ep: Endpoint, chain: Chain, flight: nat)
    | Dropping(conn: Conn)
    | Opening(ep: Endpoint, chain: Chain, conn: Conn)
    | Returning(ep: Endpoint, chain: Chain, conn: Conn, giveUp: Option<Error>)
    | Holding(conn: Conn)
    | Finished(err: Option<Error>, viaDial: bool)

  /** `closing` are the sessions Close took and has not closed yet, `closed` those closed without the lock,
      `delivered` everything `dial` ever returned. */
  datatype Sys = Sys(
    pool: State,
    callers: map<nat, Caller>,
    delivered: set<Conn>,
    closing: set<Conn>,
    closed: multiset<Conn>)

  const START := Sys(INIT, map[], {}, {}, multiset{})

  datatype Event =
    | Begin(i: nat, ep: Endpoint, chained: bool)
    | EnterPool(i: nat, now1: int, reusable1: set<Conn>, now2: int, reusable2: set<Conn>)
    | DialReturns(i: nat, outcome: Outcome)
    | SettleDial(i: nat, now: int)
    | CloseDropped(i: nat)
    | Wake(i: nat, now: int, reusable: set<Conn>)
    | Cancel(i: nat)
    | CallOpened(i: nat)
    | CallRefused(i: nat, err: Error)
    | GiveBack(i: nat, now: int, reusable: set<Conn>)
    | HandBack(i: nat, now: int, reusable: set<Conn>)
    | TickAt(now: int, reusable: set<Conn>)
    | ShutPool
    | CloseOne(conn: Conn)

  function Took(ep: Endpoint, ch: Chain, c: Conn): Caller {
    if ch.Plain? then Holding(c) else Opening(ep, ch, c)
  }

  function Granted(ep: Endpoint, ch: Chain, g: Grant): Caller {
    match g
    case Refused(e) => Finished(Some(e), false)
    case Lent(c) => Took(ep, ch, c)
    case Join(f) => Waiting(ep, ch, f)
    case Again => Ready(ep, ch)
    case Dial(leads) => Dialing(ep, ch, leads)
  }

  function Settled(ep: Endpoint, ch: Chain, l: Landing): Caller {
    match l
    case Landed(c) => Took(ep, ch, c)
    case Failed(e) => Finished(Some(e), true)
    case Drop(c) => Dropping(c)
  }

  /** What the OpenCall loop does with the error of sess.OpenCall. */
  function AfterRefusal(ep: Endpoint, ch: Chain, c: Conn, err: Error): Caller {
    if ch.Plain? then Returning(ep, ch, c, Some(err))
    else if err == Busy then Returning(ep, Attempt(ch.n + 1, ch.skip + {c}), c, None)
    else if err == Spent then Returning(ep, Attempt(ch.n + 1, ch.skip), c, None)
    else Returning(ep, ch, c, Some(err))
  }

  function AfterReturn(cfg: Options, ep: Endpoint, ch: Chain, giveUp: Option<Error>): Caller {
    if giveUp.Some? then Finished(giveUp, false)
    else if ch.Attempt? && cfg.maxSessions > 0 && ch.n >= cfg.maxSessions then Finished(Some(Exhausted), false)
    else Ready(ep, ch)
  }

  function Move(s: Sys, i: nat, pc: Caller, pool: State): Sys {
    s.(pool := pool, callers := s.callers[i := pc])
  }

  /** One step of the system; None when the event cannot happen in `s`. */
  function Step(cfg: Options, s: Sys, e: Event): Option<Sys> {
    match e
    case Begin(i, ep, chained) =>
      if i in s.callers then None
      else Some(Move(s, i, Ready(ep, if chained then Attempt(0, {}) else Plain), s.pool))
    case EnterPool(i, now1, r1, now2, r2) =>
      if i in s.callers && s.callers[i].Ready? then
        var Ready(ep, ch) := s.callers[i];
        var (t, g) := Enter(cfg, s.pool, ep, SkipOf(ch), now1, r1, now2, r2);
        Some(Move(s, i, Granted(ep, ch, g), t))
      else None
    case DialReturns(i, o) =>
      if i in s.callers && s.callers[i].Dialing? && (o.Delivered? ==> o.conn !in s.delivered) then
        var Dialing(ep, ch, leads) := s.callers[i];
        Some(Move(s, i, Settling(ep, ch, leads, o), s.pool)
             .(delivered := s.delivered + (if o.Delivered? then {o.conn} else {})))
      else None
    case SettleDial(i, now) =>
      if i in s.callers && s.callers[i].Settling?
         && (s.callers[i].leads.Some? ==> s.callers[i].leads.value < |s.pool.log|) then
        var Settling(ep, ch, leads, o) := s.callers[i];
        var (t, l) := Settle(s.pool, ep, leads, o, now);
        Some(Move(s, i, Settled(ep, ch, l), t))
      else None
    case CloseDropped(i) =>
      if i in s.callers && s.callers[i].Dropping? then
        Some(Move(s, i, Finished(Some(PoolClosed), false), s.pool)
             .(closed := s.closed + multiset{s.callers[i].conn}))
      else None
    case Wake(i, now, r) =>
      if i in s.callers && s.callers[i].Waiting? && s.callers[i].flight < |s.pool.log|
         && s.pool.log[s.callers[i].flight].closes > 0 then
        var Waiting(ep, ch, f) := s.callers[i];
        if s.pool.log[f].err.Some? then Some(Move(s, i, Finished(s.pool.log[f].err, true), s.pool))
        else
          var (t, g) := Rejoin(cfg, s.pool, ep, SkipOf(ch), now, r);
          Some(Move(s, i, Granted(ep, ch, g), t))
      else None
    case Cancel(i) =>
      if i in s.callers && s.callers[i].Waiting? then
        Some(Move(s, i, Finished(Some(Cancelled), false), s.pool))
      else None
    case CallOpened(i) =>
      if i in s.callers && s.callers[i].Opening? then
        Some(Move(s, i, Holding(s.callers[i].conn), s.pool))
      else None
    case CallRefused(i, err) =>
      if i in s.callers && s.callers[i].Opening? then
        var Opening(ep, ch, c) := s.callers[i];
        Some(Move(s, i, AfterRefusal(ep, ch, c, err), s.pool))
      else None
    case GiveBack(i, now, r) =>
      if i in s.callers && s.callers[i].Returning? then
        var Returning(ep, ch, c, giveUp) := s.callers[i];
        Some(Move(s, i, AfterReturn(cfg, ep, ch, giveUp), Release(cfg, s.pool, c, now, r)))
      else None
    case HandBack(i, now, r) =>
      if i in s.callers && s.callers[i].Holding? then
        Some(Move(s, i, Finished(None, false), Release(cfg, s.pool, s.callers[i].conn, now, r)))
      else None
    case TickAt(now, r) =>
      Some(s.(pool := Tick(cfg, s.pool, now, r)))
    case ShutPool =>
      var (t, cs) := Shut(s.pool);
      Some(s.(pool := t, closing := s.closing + cs))
    case CloseOne(c) =>
      if c in s.closing then Some(s.(closing := s.closing - {c}, closed := s.closed + multiset{c})) else None
  }

  /** The state after a run, None when some event was not possible. */
  function Run(cfg: Options, s: Sys, es: seq<Event>): Option<Sys>
    decreases |es|
  {
    if es == [] then Some(s)
    else
      match Step(cfg, s, es[0])
      case None => None
      case Some(t) => Run(cfg, t, es[1..])
  }

  // ------------------------------------------------------------------
  // Counting callers
  // ------------------------------------------------------------------

  datatype Role = Leases(conn: Conn) | Hands(conn: Conn) | Dials(ep: Endpoint) | Leads(flight: nat)

  /** Leases: owes the pool a Release. Hands: has a session the pool does not know (yet, or any more).
      Dials: holds a reservation. Leads: must close the flight. */
  predicate Plays(pc: Caller, r: Role) {
    match r
    case Leases(c) => (pc.Opening? || pc.Returning? || pc.Holding?) && pc.conn == c
    case Hands(c) => (pc.Dropping? && pc.conn == c) || (pc.Settling? && pc.outcome == Delivered(c))
    case Dials(ep) => (pc.Dialing? || pc.Settling?) && pc.ep == ep
    case Leads(f) => (pc.Dialing? || pc.Settling?) && pc.leads == Some(f)
  }

  ghost function Playing(callers: map<nat, Caller>, r: Role): set<nat> {
    set i | i in callers && Plays(callers[i], r)
  }

  ghost function Count(callers: map<nat, Caller>, r: Role): nat {
    |Playing(callers, r)|
  }

  function One(b: bool): nat { if b then 1 else 0 }

  lemma SwapOne(before: set<nat>, after: set<nat>, i: nat)
    requires forall j :: j != i ==> (j in before <==> j in after)
    ensures |after| == |before| - One(i in before) + One(i in after)
  {
    assert before - {i} == after - {i};
    assert i in before ==> |before - {i}| == |before| - 1;
    assert i !in before ==> before - {i} == before;
    assert i in after ==> |after - {i}| == |after| - 1;
    assert i !in after ==> after - {i} == after;
  }

  lemma CountMove(callers: map<nat, Caller>, i: nat, pc: Caller, r: Role)
    ensures Count(callers[i := pc], r)
         == Count(callers, r) - One(i in callers && Plays(callers[i], r)) + One(Plays(pc, r))
  {
    SwapOne(Playing(callers, r), Playing(callers[i := pc], r), i);
  }

  lemma CountMoves(callers: map<nat, Caller>, i: nat, pc: Caller)
    ensures forall r ::
      Count(callers[i := pc], r)
        == Count(callers, r) - One(i in callers && Plays(callers[i], r)) + One(Plays(pc, r))
  {
    forall r
      ensures Count(callers[i := pc], r)
           == Count(callers, r) - One(i in callers && Plays(callers[i], r)) + One(Plays(pc, r))
    {
      CountMove(callers, i, pc, r);
    }
  }

  lemma CountsOne(callers: map<nat, Caller>, i: nat, r: Role)
    requires i in callers && Plays(callers[i], r)
    ensures Count(callers, r) >= 1
    ensures forall j :: j in callers && j != i && Plays(callers[j], r) ==> Count(callers, r) >= 2
  {
    assert i in Playing(callers, r);
    forall j | j in callers && j != i && Plays(callers[j], r) ensures Count(callers, r) >= 2 {
      assert {i, j} <= Playing(callers, r);
      SubsetSize({i, j}, Playing(callers, r));
    }
  }

  lemma SubsetSize<T>(a: set<T>, b: set<T>)
    requires a <= b
    ensures |a| <= |b|
  {
    assert b == a + (b - a);
  }

  lemma CountsSome(callers: map<nat, Caller>, r: Role) returns (i: nat)
    requires Count(callers, r) > 0
    ensures i in callers && Plays(callers[i], r)
  {
    i :| i in Playing(callers, r);
  }

  // ------------------------------------------------------------------
  // The invariant
  // ------------------------------------------------------------------

  /** Every delivered session is in exactly one place: a dialer's hand, the pool, Close's list, or closed. */
  ghost predicate Ledger(s: Sys) {
    forall c :: Count(s.callers, Hands(c)) + One(c in s.pool.bySess) + One(c in s.closing)
                + s.pool.discarded[c] + s.closed[c] == One(c in s.delivered)
  }

  /** A tracked session's refcount is the number of leases out. */
  ghost predicate RefcountInv(s: Sys) {
    forall c :: c in s.pool.bySess ==> s.pool.bySess[c].refcount == Count(s.callers, Leases(c))
  }

  /** A connection never carries more than `capPer` leases, open pool or closed. */
  ghost predicate CarryInv(cfg: Options, s: Sys) {
    CapPer(cfg) > 0 ==> forall c :: Count(s.callers, Leases(c)) <= CapPer(cfg)
  }

  /** A leased session is tracked as long as the pool is open, and was not discarded by a return or a reclaim. */
  ghost predicate HeldInv(s: Sys) {
    forall c :: Count(s.callers, Leases(c)) > 0 ==>
      && c in s.delivered
      && (c in s.pool.bySess || s.pool.closed)
      && s.pool.discarded[c] == 0
      && Count(s.callers, Hands(c)) == 0
  }

  ghost predicate LeaseInv(cfg: Options, s: Sys) {
    RefcountInv(s) && CarryInv(cfg, s) && HeldInv(s)
  }

  /** While the pool is open the reservations are the dials in flight, and sessions plus reservations respect
      the cap. */
  ghost predicate DialInv(cfg: Options, s: Sys) {
    !s.pool.closed ==> forall ep ::
      && BucketAt(s.pool, ep).pending == Count(s.callers, Dials(ep))
      && (cfg.maxSessions > 0 ==> |BucketAt(s.pool, ep).entries| + BucketAt(s.pool, ep).pending <= cfg.maxSessions)
  }

  ghost predicate FlightOk(s: Sys, f: nat)
    requires f < |s.pool.log|
  {
    var fl := s.pool.log[f];
    && fl.closes <= 1
    && (fl.closes == 0 <==> fl.endpoint in s.pool.flights && s.pool.flights[fl.endpoint] == f)
    && Count(s.callers, Leads(f)) == 1 - fl.closes
  }

  /** A flight is registered until it is closed, it is closed at most once, and it has its one leader until then. */
  ghost predicate LogInv(s: Sys) {
    && (forall f :: 0 <= f < |s.pool.log| ==> FlightOk(s, f))
    && (forall ep :: ep in s.pool.flights ==>
          s.pool.flights[ep] < |s.pool.log| && s.pool.log[s.pool.flights[ep]].endpoint == ep)
  }

  ghost predicate FliesInv(cfg: Options, s: Sys) {
    forall i :: i in s.callers ==> FliesOk(cfg, s.pool, s.callers[i])
  }

  /** A multiplexed endpoint has a dial in flight exactly when it has a registered flight, and never two. */
  ghost predicate SingleDialInv(cfg: Options, s: Sys) {
    CapPer(cfg) < 0 ==> forall ep :: Count(s.callers, Dials(ep)) == One(ep in s.pool.flights)
  }

  ghost predicate FlightInv(cfg: Options, s: Sys) {
    LogInv(s) && FliesInv(cfg, s) && SingleDialInv(cfg, s)
  }

  ghost predicate FliesOk(cfg: Options, p: State, pc: Caller) {
    && (pc.Dialing? || pc.Settling? ==>
          && (pc.leads.Some? <==> CapPer(cfg) < 0)
          && (pc.leads.Some? ==> pc.leads.value < |p.log| && p.log[pc.leads.value].endpoint == pc.ep))
    && (pc.Waiting? ==> pc.flight < |p.log|)
  }

  /** An OpenCall chain starts at most `maxSessions` acquires, is never on a session that answered it
      Busy, and reports Busy or Spent only when a dial ended with that very error. */
  ghost predicate ChainOk(cfg: Options, s: Sys, pc: Caller) {
    && (pc.Finished? && pc.err in {Some(Busy), Some(Spent)} ==> pc.viaDial)
    && (pc.Returning? ==> pc.giveUp !in {Some(Busy), Some(Spent)})
    && (!pc.Dropping? && !pc.Holding? && !pc.Finished? && pc.chain.Attempt? ==>
          && pc.chain.skip <= s.delivered
          && |pc.chain.skip| <= pc.chain.n
          && (cfg.maxSessions > 0 ==>
                if pc.Returning? && pc.giveUp.None? then pc.chain.n <= cfg.maxSessions
                else pc.chain.n < cfg.maxSessions))
    && (pc.Opening? ==> pc.chain.Attempt? && pc.conn !in pc.chain.skip)
    && (pc.Returning? ==> pc.chain.Attempt?)
    && (pc.Settling? && pc.outcome.Delivered? && pc.chain.Attempt? ==> pc.outcome.conn !in pc.chain.skip)
  }

  ghost predicate ChainInv(cfg: Options, s: Sys) {
    forall i :: i in s.callers ==> ChainOk(cfg, s, s.callers[i])
  }

  ghost predicate Inv(cfg: Options, s: Sys) {
    && RepInv(cfg, s.pool)
    && Ledger(s)
    && LeaseInv(cfg, s)
    && DialInv(cfg, s)
    && FlightInv(cfg, s)
    && ChainInv(cfg, s)
  }

  // ------------------------------------------------------------------
  // Moves that change no count
  // ------------------------------------------------------------------

  ghost predicate SameRoles(s: Sys, i: nat, pc: Caller) {
    forall r :: Plays(pc, r) <==> (i in s.callers && Plays(s.callers[i], r))
  }

  lemma NeutralCounts(s: Sys, i: nat, pc: Caller)
    requires SameRoles(s, i, pc)
    ensures forall r :: Count(s.callers[i := pc], r) == Count(s.callers, r)
  {
    CountMoves(s.callers, i, pc);
  }

  lemma NeutralKeeps(cfg: Options, s: Sys, i: nat, pc: Caller)
    requires Ledger(s) && LeaseInv(cfg, s) && DialInv(cfg, s) && FlightInv(cfg, s)
    requires SameRoles(s, i, pc) && FliesOk(cfg, s.pool, pc)
    ensures var t := Move(s, i, pc, s.pool);
            Ledger(t) && LeaseInv(cfg, t) && DialInv(cfg, t) && FlightInv(cfg, t)
  {
    NeutralCounts(s, i, pc);
    var t := Move(s, i, pc, s.pool);
    forall f | 0 <= f < |t.pool.log| ensures FlightOk(t, f) { assert FlightOk(s, f); }
  }

  lemma ChainMove(cfg: Options, s: Sys, i: nat, pc: Caller, t: Sys)
    requires ChainInv(cfg, s) && t.callers == s.callers[i := pc] && s.delivered <= t.delivered
    requires ChainOk(cfg, t, pc)
    ensures ChainInv(cfg, t)
  {
    forall j | j in t.callers ensures ChainOk(cfg, t, t.callers[j]) {
      assert j != i ==> ChainOk(cfg, s, s.callers[j]);
    }
  }

  // ------------------------------------------------------------------
  // Moves that lend, join or reserve
  // ------------------------------------------------------------------

  ghost predicate GrantMove(cfg: Options, s: Sys, i: nat, ep: Endpoint, ch: Chain, t: State, g: Grant) {
    && i in s.callers && (s.callers[i].Ready? || s.callers[i].Waiting?)
    && s.callers[i].ep == ep && s.callers[i].chain == ch
    && EnterSpec(cfg, s.pool, ep, SkipOf(ch), t, g)
  }

  lemma GrantCounts(s: Sys, i: nat, ep: Endpoint, ch: Chain, g: Grant)
    requires i in s.callers && (s.callers[i].Ready? || s.callers[i].Waiting?)
    ensures var m := s.callers[i := Granted(ep, ch, g)];
            && (forall c :: Count(m, Hands(c)) == Count(s.callers, Hands(c)))
            && (forall c :: Count(m, Leases(c)) == Count(s.callers, Leases(c)) + One(g == Lent(c)))
            && (forall e :: Count(m, Dials(e)) == Count(s.callers, Dials(e)) + One(g.Dial? && e == ep))
            && (forall f: nat :: Count(m, Leads(f)) == Count(s.callers, Leads(f)) + One(g.Dial? && g.leads == Some(f)))
  {
    CountMoves(s.callers, i, Granted(ep, ch, g));
  }

  lemma GrantLedger(cfg: Options, s: Sys, i: nat, ep: Endpoint, ch: Chain, t: State, g: Grant)
    requires Ledger(s) && GrantMove(cfg, s, i, ep, ch, t, g)
    ensures Ledger(Move(s, i, Granted(ep, ch, g), t))
  {
    GrantCounts(s, i, ep, ch, g);
  }

  lemma GrantHeld(cfg: Options, s: Sys, i: nat, ep: Endpoint, ch: Chain, t: State, g: Grant)
    requires RefcountInv(s) && HeldInv(s) && Ledger(s) && GrantMove(cfg, s, i, ep, ch, t, g)
    ensures HeldInv(Move(s, i, Granted(ep, ch, g), t))
  {
    GrantCounts(s, i, ep, ch, g);
  }

  lemma GrantRefcounts(cfg: Options, s: Sys, i: nat, ep: Endpoint, ch: Chain, t: State, g: Grant)
    requires RefcountInv(s) && GrantMove(cfg, s, i, ep, ch, t, g)
    ensures RefcountInv(Move(s, i, Granted(ep, ch, g), t))
  {
    GrantCounts(s, i, ep, ch, g);
  }

  lemma GrantCarry(cfg: Options, s: Sys, i: nat, ep: Endpoint, ch: Chain, t: State, g: Grant)
    requires RefcountInv(s) && CarryInv(cfg, s) && GrantMove(cfg, s, i, ep, ch, t, g)
    ensures CarryInv(cfg, Move(s, i, Granted(ep, ch, g), t))
  {
    GrantCounts(s, i, ep, ch, g);
  }

  lemma GrantDials(cfg: Options, s: Sys, i: nat, ep: Endpoint, ch: Chain, t: State, g: Grant)
    requires DialInv(cfg, s) && GrantMove(cfg, s, i, ep, ch, t, g)
    ensures DialInv(cfg, Move(s, i, Granted(ep, ch, g), t))
  {
    GrantCounts(s, i, ep, ch, g);
  }

  lemma GrantFlights(cfg: Options, s: Sys, i: nat, ep: Endpoint, ch: Chain, t: State, g: Grant)
    requires FlightInv(cfg, s) && GrantMove(cfg, s, i, ep, ch, t, g)
    ensures FlightInv(cfg, Move(s, i, Granted(ep, ch, g), t))
  {
    GrantCounts(s, i, ep, ch, g);
    var u := Move(s, i, Granted(ep, ch, g), t);
    forall f | 0 <= f < |t.log| ensures FlightOk(u, f) {
      if f < |s.pool.log| {
        assert FlightOk(s, f);
      } else if Count(s.callers, Leads(f)) > 0 {
        LeaderKnown(cfg, s, f);
      }
    }
    forall j | j in u.callers ensures FliesOk(cfg, t, u.callers[j]) {
      assert j != i ==> FliesOk(cfg, s.pool, s.callers[j]);
    }
  }

  lemma LeaderKnown(cfg: Options, s: Sys, f: nat)
    requires FlightInv(cfg, s) && Count(s.callers, Leads(f)) > 0
    ensures f < |s.pool.log|
  {
    var j := CountsSome(s.callers, Leads(f));
    assert FliesOk(cfg, s.pool, s.callers[j]);
  }

  lemma GrantChains(cfg: Options, s: Sys, i: nat, ep: Endpoint, ch: Chain, t: State, g: Grant)
    requires ChainInv(cfg, s) && GrantMove(cfg, s, i, ep, ch, t, g)
    ensures ChainInv(cfg, Move(s, i, Granted(ep, ch, g), t))
  {
    assert ChainOk(cfg, s, s.callers[i]);
    ChainMove(cfg, s, i, Granted(ep, ch, g), Move(s, i, Granted(ep, ch, g), t));
  }

  lemma GrantKeeps(cfg: Options, s: Sys, i: nat, ep: Endpoint, ch: Chain, t: State, g: Grant)
    requires Inv(cfg, s) && RepInv(cfg, t) && GrantMove(cfg, s, i, ep, ch, t, g)
    ensures Inv(cfg, Move(s, i, Granted(ep, ch, g), t))
  {
    GrantLedger(cfg, s, i, ep, ch, t, g);
    GrantRefcounts(cfg, s, i, ep, ch, t, g);
    GrantCarry(cfg, s, i, ep, ch, t, g);
    GrantHeld(cfg, s, i, ep, ch, t, g);
    GrantDials(cfg, s, i, ep, ch, t, g);
    GrantFlights(cfg, s, i, ep, ch, t, g);
    GrantChains(cfg, s, i, ep, ch, t, g);
  }

  // ------------------------------------------------------------------
  // The move after a dial
  // ------------------------------------------------------------------

  ghost predicate SettleMove(s: Sys, i: nat, t: State, l: Landing) {
    && i in s.callers && s.callers[i].Settling?
    && (s.callers[i].leads.Some? ==> s.callers[i].leads.value < |s.pool.log|)
    && l == LandingOf(s.pool.closed, s.callers[i].outcome)
    && SettleSpec(s.pool, s.callers[i].ep, s.callers[i].leads, t, l)
  }

  function SettledSys(s: Sys, i: nat, t: State, l: Landing): Sys
    requires i in s.callers && s.callers[i].Settling?
  {
    Move(s, i, Settled(s.callers[i].ep, s.callers[i].chain, l), t)
  }

  lemma SettleCounts(s: Sys, i: nat, l: Landing)
    requires i in s.callers && s.callers[i].Settling? && l == LandingOf(s.pool.closed, s.callers[i].outcome)
    ensures var pc := s.callers[i];
            var m := s.callers[i := Settled(pc.ep, pc.chain, l)];
            && (forall c :: Count(m, Hands(c)) == Count(s.callers, Hands(c)) - One(l == Landed(c)))
            && (forall c :: Count(m, Leases(c)) == Count(s.callers, Leases(c)) + One(l == Landed(c)))
            && (forall e :: Count(m, Dials(e)) == Count(s.callers, Dials(e)) - One(e == pc.ep))
            && (forall f: nat :: Count(m, Leads(f)) == Count(s.callers, Leads(f)) - One(pc.leads == Some(f)))
  {
    CountMoves(s.callers, i, Settled(s.callers[i].ep, s.callers[i].chain, l));
  }

  /** A session just dialed is in the dialer's hand and nowhere else. */
  lemma InHand(s: Sys, i: nat, c: Conn)
    requires Ledger(s) && i in s.callers && s.callers[i].Settling? && s.callers[i].outcome == Delivered(c)
    ensures c in s.delivered && c !in s.pool.bySess && c !in s.closing
    ensures s.pool.discarded[c] == 0 && s.closed[c] == 0 && Count(s.callers, Hands(c)) == 1
  {
    CountsOne(s.callers, i, Hands(c));
  }

  lemma SettleLedger(s: Sys, i: nat, t: State, l: Landing)
    requires Ledger(s) && SettleMove(s, i, t, l)
    ensures Ledger(SettledSys(s, i, t, l))
  {
    SettleCounts(s, i, l);
    if l.Landed? {
      InHand(s, i, l.conn);
    }
  }

  lemma NotLeasedYet(s: Sys, i: nat, c: Conn)
    requires Ledger(s) && HeldInv(s)
    requires i in s.callers && s.callers[i].Settling? && s.callers[i].outcome == Delivered(c)
    ensures c !in s.pool.bySess && Count(s.callers, Leases(c)) == 0
  {
    InHand(s, i, c);
  }

  lemma SettleRefcounts(s: Sys, i: nat, t: State, l: Landing)
    requires Ledger(s) && RefcountInv(s) && HeldInv(s) && SettleMove(s, i, t, l)
    ensures RefcountInv(SettledSys(s, i, t, l))
  {
    SettleCounts(s, i, l);
    if l.Landed? {
      NotLeasedYet(s, i, l.conn);
    }
    var callers := SettledSys(s, i, t, l).callers;
    forall c | c in t.bySess ensures t.bySess[c].refcount == Count(callers, Leases(c)) {
      if l != Landed(c) {
        assert c in s.pool.bySess;
      }
    }
  }

  lemma SettleCarry(cfg: Options, s: Sys, i: nat, t: State, l: Landing)
    requires Ledger(s) && CarryInv(cfg, s) && HeldInv(s) && SettleMove(s, i, t, l)
    ensures CarryInv(cfg, SettledSys(s, i, t, l))
  {
    SettleCounts(s, i, l);
    if l.Landed? {
      NotLeasedYet(s, i, l.conn);
    }
  }

  lemma SettleHeld(s: Sys, i: nat, t: State, l: Landing)
    requires Ledger(s) && HeldInv(s) && SettleMove(s, i, t, l)
    ensures HeldInv(SettledSys(s, i, t, l))
  {
    SettleCounts(s, i, l);
    if l.Landed? {
      InHand(s, i, l.conn);
    }
  }

  lemma SettleDials(cfg: Options, s: Sys, i: nat, t: State, l: Landing)
    requires DialInv(cfg, s) && SettleMove(s, i, t, l)
    ensures DialInv(cfg, SettledSys(s, i, t, l))
  {
    SettleCounts(s, i, l);
  }

  lemma SettleLog(s: Sys, i: nat, t: State, l: Landing)
    requires LogInv(s) && SettleMove(s, i, t, l)
    requires var pc := s.callers[i]; pc.leads.Some? ==> s.pool.log[pc.leads.value].endpoint == pc.ep
    ensures LogInv(SettledSys(s, i, t, l))
  {
    SettleCounts(s, i, l);
    var pc := s.callers[i];
    var u := SettledSys(s, i, t, l);
    if pc.leads.Some? {
      assert FlightOk(s, pc.leads.value);
      CountsOne(s.callers, i, Leads(pc.leads.value));
    }
    forall f | 0 <= f < |t.log| ensures FlightOk(u, f) {
      assert FlightOk(s, f);
    }
  }

  lemma SettleSingle(cfg: Options, s: Sys, i: nat, t: State, l: Landing)
    requires FlightInv(cfg, s) && SettleMove(s, i, t, l)
    ensures SingleDialInv(cfg, SettledSys(s, i, t, l))
  {
    SettleCounts(s, i, l);
    assert FliesOk(cfg, s.pool, s.callers[i]);
    CountsOne(s.callers, i, Dials(s.callers[i].ep));
  }

  lemma SettleFlies(cfg: Options, s: Sys, i: nat, t: State, l: Landing)
    requires FliesInv(cfg, s) && SettleMove(s, i, t, l)
    ensures FliesInv(cfg, SettledSys(s, i, t, l))
  {
    var u := SettledSys(s, i, t, l);
    forall j | j in u.callers ensures FliesOk(cfg, t, u.callers[j]) {
      assert j != i ==> FliesOk(cfg, s.pool, s.callers[j]);
    }
  }

  lemma SettleChains(cfg: Options, s: Sys, i: nat, t: State, l: Landing)
    requires ChainInv(cfg, s) && SettleMove(s, i, t, l)
    ensures ChainInv(cfg, SettledSys(s, i, t, l))
  {
    assert ChainOk(cfg, s, s.callers[i]);
    ChainMove(cfg, s, i, Settled(s.callers[i].ep, s.callers[i].chain, l), SettledSys(s, i, t, l));
  }

  lemma SettleKeepsInv(cfg: Options, s: Sys, i: nat, now: int)
    requires Inv(cfg, s) && Step(cfg, s, SettleDial(i, now)).Some?
    ensures Inv(cfg, Step(cfg, s, SettleDial(i, now)).value)
  {
    var pc := s.callers[i];
    var (t, l) := Settle(s.pool, pc.ep, pc.leads, pc.outcome, now);
    SettleDoes(s.pool, pc.ep, pc.leads, pc.outcome, now);
    if pc.outcome.Delivered? {
      InHand(s, i, pc.outcome.conn);
    }
    SettleKeeps(cfg, s.pool, pc.ep, pc.leads, pc.outcome, now);
    SettleLedger(s, i, t, l);
    SettleRefcounts(s, i, t, l);
    SettleCarry(cfg, s, i, t, l);
    SettleHeld(s, i, t, l);
    SettleDials(cfg, s, i, t, l);
    assert FliesOk(cfg, s.pool, pc);
    SettleLog(s, i, t, l);
    SettleSingle(cfg, s, i, t, l);
    SettleFlies(cfg, s, i, t, l);
    SettleChains(cfg, s, i, t, l);
  }

  // ------------------------------------------------------------------
  // Moves that give a lease back
  // ------------------------------------------------------------------

  ghost predicate ReturnMove(s: Sys, i: nat, c: Conn, pc: Caller, t: State) {
    && i in s.callers && (s.callers[i].Holding? || s.callers[i].Returning?) && s.callers[i].conn == c
    && (pc.Finished? || pc.Ready?)
    && (if c in s.pool.bySess then ReleaseSpec(s.pool, c, t) else t == s.pool)
  }

  lemma ReturnCounts(s: Sys, i: nat, c: Conn, pc: Caller)
    requires i in s.callers && (s.callers[i].Holding? || s.callers[i].Returning?) && s.callers[i].conn == c
    requires pc.Finished? || pc.Ready?
    ensures var m := s.callers[i := pc];
            && (forall d :: Count(m, Hands(d)) == Count(s.callers, Hands(d)))
            && (forall d :: Count(m, Leases(d)) == Count(s.callers, Leases(d)) - One(d == c))
            && (forall e :: Count(m, Dials(e)) == Count(s.callers, Dials(e)))
            && (forall f: nat :: Count(m, Leads(f)) == Count(s.callers, Leads(f)))
  {
    CountMoves(s.callers, i, pc);
  }

  lemma ReturnLedger(s: Sys, i: nat, c: Conn, pc: Caller, t: State)
    requires Ledger(s) && ReturnMove(s, i, c, pc, t)
    ensures Ledger(Move(s, i, pc, t))
  {
    ReturnCounts(s, i, c, pc);
  }

  lemma ReturnLeases(cfg: Options, s: Sys, i: nat, c: Conn, pc: Caller, t: State)
    requires RefcountInv(s) && CarryInv(cfg, s) && ReturnMove(s, i, c, pc, t)
    ensures RefcountInv(Move(s, i, pc, t)) && CarryInv(cfg, Move(s, i, pc, t))
  {
    ReturnCounts(s, i, c, pc);
  }

  lemma ReturnHeld(s: Sys, i: nat, c: Conn, pc: Caller, t: State)
    requires RefcountInv(s) && HeldInv(s) && ReturnMove(s, i, c, pc, t)
    ensures HeldInv(Move(s, i, pc, t))
  {
    ReturnCounts(s, i, c, pc);
  }

  lemma ReturnDials(cfg: Options, s: Sys, i: nat, c: Conn, pc: Caller, t: State)
    requires DialInv(cfg, s) && ReturnMove(s, i, c, pc, t)
    ensures DialInv(cfg, Move(s, i, pc, t))
  {
    ReturnCounts(s, i, c, pc);
  }

  lemma ReturnFlights(cfg: Options, s: Sys, i: nat, c: Conn, pc: Caller, t: State)
    requires FlightInv(cfg, s) && ReturnMove(s, i, c, pc, t)
    ensures FlightInv(cfg, Move(s, i, pc, t))
  {
    ReturnCounts(s, i, c, pc);
    var u := Move(s, i, pc, t);
    forall f | 0 <= f < |t.log| ensures FlightOk(u, f) {
      assert FlightOk(s, f);
    }
    forall j | j in u.callers ensures FliesOk(cfg, t, u.callers[j]) {
      assert j != i ==> FliesOk(cfg, s.pool, s.callers[j]);
    }
  }

  lemma ReturnKeeps(cfg: Options, s: Sys, i: nat, pc: Caller, now: int, reusable: set<Conn>)
    requires Inv(cfg, s)
    requires i in s.callers && (s.callers[i].Holding? || s.callers[i].Returning?)
    requires (pc.Finished? || pc.Ready?) && ChainOk(cfg, s, pc)
    ensures Inv(cfg, Move(s, i, pc, Release(cfg, s.pool, s.callers[i].conn, now, reusable)))
  {
    var c := s.callers[i].conn;
    var t := Release(cfg, s.pool, c, now, reusable);
    CountsOne(s.callers, i, Leases(c));
    if c in s.pool.bySess {
      assert Listed(s.pool, c);
      ReleaseDoes(cfg, s.pool, c, now, reusable);
    }
    ReleaseKeeps(cfg, s.pool, c, now, reusable);
    ReturnLedger(s, i, c, pc, t);
    ReturnLeases(cfg, s, i, c, pc, t);
    ReturnHeld(s, i, c, pc, t);
    ReturnDials(cfg, s, i, c, pc, t);
    ReturnFlights(cfg, s, i, c, pc, t);
    ChainMove(cfg, s, i, pc, Move(s, i, pc, t));
  }

  // ------------------------------------------------------------------
  // Steps of the ticker and of Close
  // ------------------------------------------------------------------

  lemma TickKeepsInv(cfg: Options, s: Sys, now: int, reusable: set<Conn>)
    requires Inv(cfg, s)
    ensures Inv(cfg, Step(cfg, s, TickAt(now, reusable)).value)
  {
    TickDoes(cfg, s.pool, now, reusable);
    TickKeeps(cfg, s.pool, now, reusable);
    var t := Step(cfg, s, TickAt(now, reusable)).value;
    forall f | 0 <= f < |t.pool.log| ensures FlightOk(t, f) { assert FlightOk(s, f); }
    forall j | j in t.callers ensures FliesOk(cfg, t.pool, t.callers[j]) { assert FliesOk(cfg, s.pool, s.callers[j]); }
    forall j | j in t.callers ensures ChainOk(cfg, t, t.callers[j]) { assert ChainOk(cfg, s, s.callers[j]); }
  }

  lemma ShutKeepsInv(cfg: Options, s: Sys)
    requires Inv(cfg, s)
    ensures Inv(cfg, Step(cfg, s, ShutPool).value)
  {
    ShutKeeps(cfg, s.pool);
    var t := Step(cfg, s, ShutPool).value;
    forall f | 0 <= f < |t.pool.log| ensures FlightOk(t, f) { assert FlightOk(s, f); }
    forall j | j in t.callers ensures FliesOk(cfg, t.pool, t.callers[j]) { assert FliesOk(cfg, s.pool, s.callers[j]); }
    forall j | j in t.callers ensures ChainOk(cfg, t, t.callers[j]) { assert ChainOk(cfg, s, s.callers[j]); }
  }

  lemma CloseOneKeepsInv(cfg: Options, s: Sys, c: Conn)
    requires Inv(cfg, s) && c in s.closing
    ensures Inv(cfg, Step(cfg, s, CloseOne(c)).value)
  {
    var t := Step(cfg, s, CloseOne(c)).value;
    forall f | 0 <= f < |t.pool.log| ensures FlightOk(t, f) { assert FlightOk(s, f); }
    forall j | j in t.callers ensures ChainOk(cfg, t, t.callers[j]) { assert ChainOk(cfg, s, s.callers[j]); }
  }

  // ------------------------------------------------------------------
  // Steps outside the lock
  // ------------------------------------------------------------------

  lemma DroppedCounts(s: Sys, i: nat, pc: Caller)
    requires i in s.callers && s.callers[i].Dropping? && pc.Finished?
    ensures var m := s.callers[i := pc];
            && (forall c :: Count(m, Hands(c)) == Count(s.callers, Hands(c)) - One(c == s.callers[i].conn))
            && (forall c :: Count(m, Leases(c)) == Count(s.callers, Leases(c)))
            && (forall e :: Count(m, Dials(e)) == Count(s.callers, Dials(e)))
            && (forall f: nat :: Count(m, Leads(f)) == Count(s.callers, Leads(f)))
  {
    CountMoves(s.callers, i, pc);
  }

  lemma CloseDroppedKeepsInv(cfg: Options, s: Sys, i: nat)
    requires Inv(cfg, s) && i in s.callers && s.callers[i].Dropping?
    ensures Inv(cfg, Step(cfg, s, CloseDropped(i)).value)
  {
    var pc := Finished(Some(PoolClosed), false);
    var t := Step(cfg, s, CloseDropped(i)).value;
    DroppedCounts(s, i, pc);
    assert Ledger(t);
    assert LeaseInv(cfg, t);
    forall f | 0 <= f < |t.pool.log| ensures FlightOk(t, f) { assert FlightOk(s, f); }
    ChainMove(cfg, s, i, pc, t);
  }

  lemma DialReturnsCounts(s: Sys, i: nat, o: Outcome)
    requires i in s.callers && s.callers[i].Dialing?
    ensures var pc := s.callers[i];
            var m := s.callers[i := Settling(pc.ep, pc.chain, pc.leads, o)];
            && (forall c :: Count(m, Hands(c)) == Count(s.callers, Hands(c)) + One(o == Delivered(c)))
            && (forall c :: Count(m, Leases(c)) == Count(s.callers, Leases(c)))
            && (forall e :: Count(m, Dials(e)) == Count(s.callers, Dials(e)))
            && (forall f: nat :: Count(m, Leads(f)) == Count(s.callers, Leads(f)))
  {
    CountMoves(s.callers, i, Settling(s.callers[i].ep, s.callers[i].chain, s.callers[i].leads, o));
  }

  lemma DialReturnsKeepsInv(cfg: Options, s: Sys, i: nat, o: Outcome)
    requires Inv(cfg, s) && Step(cfg, s, DialReturns(i, o)).Some?
    ensures Inv(cfg, Step(cfg, s, DialReturns(i, o)).value)
  {
    DialReturnsCounts(s, i, o);
    var t := Step(cfg, s, DialReturns(i, o)).value;
    assert Ledger(t);
    assert HeldInv(t);
    assert FliesOk(cfg, s.pool, s.callers[i]) && ChainOk(cfg, s, s.callers[i]);
    forall f | 0 <= f < |t.pool.log| ensures FlightOk(t, f) { assert FlightOk(s, f); }
    ChainMove(cfg, s, i, t.callers[i], t);
  }

  /** Begin, Cancel, CallOpened, CallRefused and joining a flight that failed change no count. */
  lemma QuietKeepsInv(cfg: Options, s: Sys, i: nat, pc: Caller)
    requires Inv(cfg, s) && SameRoles(s, i, pc) && FliesOk(cfg, s.pool, pc) && ChainOk(cfg, s, pc)
    ensures Inv(cfg, Move(s, i, pc, s.pool))
  {
    NeutralKeeps(cfg, s, i, pc);
    ChainMove(cfg, s, i, pc, Move(s, i, pc, s.pool));
  }

  // ------------------------------------------------------------------
  // Every step, every run
  // ------------------------------------------------------------------

  lemma EnterKeepsInv(cfg: Options, s: Sys, e: Event)
    requires Inv(cfg, s) && e.EnterPool? && Step(cfg, s, e).Some?
    ensures Inv(cfg, Step(cfg, s, e).value)
  {
    var Ready(ep, ch) := s.callers[e.i];
    var (t, g) := Enter(cfg, s.pool, ep, SkipOf(ch), e.now1, e.reusable1, e.now2, e.reusable2);
    EnterDoes(cfg, s.pool, ep, SkipOf(ch), e.now1, e.reusable1, e.now2, e.reusable2);
    EnterKeeps(cfg, s.pool, ep, SkipOf(ch), e.now1, e.reusable1, e.now2, e.reusable2);
    GrantKeeps(cfg, s, e.i, ep, ch, t, g);
  }

  lemma WakeKeepsInv(cfg: Options, s: Sys, i: nat, now: int, reusable: set<Conn>)
    requires Inv(cfg, s) && Step(cfg, s, Wake(i, now, reusable)).Some?
    ensures Inv(cfg, Step(cfg, s, Wake(i, now, reusable)).value)
  {
    var Waiting(ep, ch, f) := s.callers[i];
    if s.pool.log[f].err.Some? {
      QuietKeepsInv(cfg, s, i, Finished(s.pool.log[f].err, true));
    } else {
      var (t, g) := Rejoin(cfg, s.pool, ep, SkipOf(ch), now, reusable);
      RejoinDoes(cfg, s.pool, ep, SkipOf(ch), now, reusable);
      RejoinKeeps(cfg, s.pool, ep, SkipOf(ch), now, reusable);
      GrantKeeps(cfg, s, i, ep, ch, t, g);
    }
  }

  lemma RefusalChain(cfg: Options, s: Sys, pc: Caller, err: Error)
    requires pc.Opening? && ChainOk(cfg, s, pc) && pc.conn in s.delivered
    ensures ChainOk(cfg, s, AfterRefusal(pc.ep, pc.chain, pc.conn, err))
  {
    var skip := pc.chain.skip;
    assert |skip + {pc.conn}| <= |skip| + 1;
  }

  lemma HeldDelivered(s: Sys, i: nat, c: Conn)
    requires HeldInv(s) && i in s.callers && Plays(s.callers[i], Leases(c))
    ensures c in s.delivered
  {
    CountsOne(s.callers, i, Leases(c));
  }

  lemma OpeningFacts(cfg: Options, s: Sys, i: nat)
    requires Inv(cfg, s) && i in s.callers && s.callers[i].Opening?
    ensures ChainOk(cfg, s, s.callers[i]) && s.callers[i].conn in s.delivered
  {
    HeldDelivered(s, i, s.callers[i].conn);
  }

  lemma GiveBackKeepsInv(cfg: Options, s: Sys, i: nat, now: int, reusable: set<Conn>)
    requires Inv(cfg, s) && Step(cfg, s, GiveBack(i, now, reusable)).Some?
    ensures Inv(cfg, Step(cfg, s, GiveBack(i, now, reusable)).value)
  {
    assert ChainOk(cfg, s, s.callers[i]);
    ReturnKeeps(cfg, s, i, AfterReturn(cfg, s.callers[i].ep, s.callers[i].chain, s.callers[i].giveUp), now, reusable);
  }

  /** A caller that waits for another's dial may be cancelled at any time: it is told so, and the dial, the pool
      and all others stay as they are. */
  lemma WaiterCancelled(cfg: Options, s: Sys, i: nat)
    requires i in s.callers && s.callers[i].Waiting?
    ensures Step(cfg, s, Cancel(i)) == Some(Move(s, i, Finished(Some(Cancelled), false), s.pool))
  {
  }

  predicate IsQuiet(e: Event) {
    e.Begin? || e.Cancel? || e.CallOpened? || e.CallRefused?
  }

  /** A quiet step moves one caller and changes no count. */
  lemma QuietStepIs(cfg: Options, s: Sys, e: Event) returns (pc: Caller)
    requires IsQuiet(e) && Step(cfg, s, e).Some?
    requires e.CallOpened? || e.CallRefused? ==>
               ChainOk(cfg, s, s.callers[e.i]) && s.callers[e.i].conn in s.delivered
    ensures Step(cfg, s, e) == Some(Move(s, e.i, pc, s.pool))
    ensures SameRoles(s, e.i, pc) && FliesOk(cfg, s.pool, pc) && ChainOk(cfg, s, pc)
  {
    pc := Step(cfg, s, e).value.callers[e.i];
    if e.CallRefused? {
      RefusalChain(cfg, s, s.callers[e.i], e.err);
    }
  }

  lemma QuietStepKeepsInv(cfg: Options, s: Sys, e: Event)
    requires IsQuiet(e) && Inv(cfg, s) && Step(cfg, s, e).Some?
    ensures Inv(cfg, Step(cfg, s, e).value)
  {
    if e.CallOpened? || e.CallRefused? {
      OpeningFacts(cfg, s, e.i);
    }
    var pc := QuietStepIs(cfg, s, e);
    QuietKeepsInv(cfg, s, e.i, pc);
  }

  lemma HandBackKeepsInv(cfg: Options, s: Sys, i: nat, now: int, reusable: set<Conn>)
    requires Inv(cfg, s) && i in s.callers && s.callers[i].Holding?
    ensures Inv(cfg, Step(cfg, s, HandBack(i, now, reusable)).value)
  {
    ReturnKeeps(cfg, s, i, Finished(None, false), now, reusable);
  }

  lemma StepKeepsInv(cfg: Options, s: Sys, e: Event)
    requires Inv(cfg, s) && Step(cfg, s, e).Some?
    ensures Inv(cfg, Step(cfg, s, e).value)
  {
    if IsQuiet(e) {
      QuietStepKeepsInv(cfg, s, e);
    } else {
      match e
      case EnterPool(_, _, _, _, _) => EnterKeepsInv(cfg, s, e);
      case DialReturns(i, o) => DialReturnsKeepsInv(cfg, s, i, o);
      case SettleDial(i, now) => SettleKeepsInv(cfg, s, i, now);
      case CloseDropped(i) => CloseDroppedKeepsInv(cfg, s, i);
      case Wake(i, now, r) => WakeKeepsInv(cfg, s, i, now, r);
      case GiveBack(i, now, r) => GiveBackKeepsInv(cfg, s, i, now, r);
      case HandBack(i, now, r) => HandBackKeepsInv(cfg, s, i, now, r);
      case TickAt(now, r) => TickKeepsInv(cfg, s, now, r);
      case ShutPool => ShutKeepsInv(cfg, s);
      case CloseOne(c) => CloseOneKeepsInv(cfg, s, c);
    }
  }

  lemma StartInv(cfg: Options)
    ensures Inv(cfg, START)
  {
    forall r: Role ensures Count(START.callers, r) == 0 {
      assert Playing(START.callers, r) == {};
    }
  }

  lemma {:induction false} RunKeepsInv(cfg: Options, s: Sys, es: seq<Event>)
    requires Inv(cfg, s) && Run(cfg, s, es).Some?
    ensures Inv(cfg, Run(cfg, s, es).value)
    decreases |es|
  {
    if es != [] {
      StepKeepsInv(cfg, s, es[0]);
      RunKeepsInv(cfg, Step(cfg, s, es[0]).value, es[1..]);
    }
  }

  /** Whatever the callers, the dials, the ticker and Close do, in whatever order. */
  lemma EveryRun(cfg: Options, es: seq<Event>)
    requires Run(cfg, START, es).Some?
    ensures Inv(cfg, Run(cfg, START, es).value)
  {
    StartInv(cfg);
    RunKeepsInv(cfg, START, es);
  }

  // ------------------------------------------------------------------
  // What the invariant means for callers
  // ------------------------------------------------------------------

  /** On a sequential or one-shot pool no connection is ever in two callers' hands. */
  lemma NeverShared(cfg: Options, es: seq<Event>, i: nat, j: nat, c: Conn)
    requires 0 <= cfg.maxCalls <= 1 && Run(cfg, START, es).Some?
    requires var m := Run(cfg, START, es).value.callers;
             i in m && j in m && Plays(m[i], Leases(c)) && Plays(m[j], Leases(c))
    ensures i == j
  {
    EveryRun(cfg, es);
    CountsOne(Run(cfg, START, es).value.callers, i, Leases(c));
  }

  /** No connection carries more calls than MaxCallsPerConn allows; zero means one, and a negative one any. */
  lemma CallLimitHolds(cfg: Options, es: seq<Event>, c: Conn)
    requires cfg.maxCalls >= 0 && Run(cfg, START, es).Some?
    ensures var n := Count(Run(cfg, START, es).value.callers, Leases(c));
            n <= 1 || n <= cfg.maxCalls
  {
    EveryRun(cfg, es);
  }

  /** While the pool is open, sessions and dials in flight of an endpoint together respect the cap. */
  lemma CapHolds(cfg: Options, es: seq<Event>, ep: Endpoint)
    requires cfg.maxSessions > 0 && Run(cfg, START, es).Some?
    ensures var s := Run(cfg, START, es).value;
            !s.pool.closed ==> |BucketAt(s.pool, ep).entries| + Count(s.callers, Dials(ep)) <= cfg.maxSessions
  {
    EveryRun(cfg, es);
  }

  /** A session leased by anyone while the pool is open is tracked and was closed by nobody but a
      caller whose OpenCall found it spent. */
  lemma NotClosedUnderCaller(cfg: Options, es: seq<Event>, i: nat, c: Conn)
    requires Run(cfg, START, es).Some?
    requires var s := Run(cfg, START, es).value;
             i in s.callers && Plays(s.callers[i], Leases(c))
    ensures var s := Run(cfg, START, es).value;
            && s.pool.discarded[c] == 0
            && (!s.pool.closed ==> c in s.pool.bySess && s.pool.bySess[c].refcount >= 1 && s.closed[c] == 0)
  {
    EveryRun(cfg, es);
    CountsOne(Run(cfg, START, es).value.callers, i, Leases(c));
  }

  /** A caller parked on a flight that has not landed has a leader to land it, and there is only one. */
  lemma WaiterHasLeader(cfg: Options, es: seq<Event>, i: nat) returns (leader: nat)
    requires Run(cfg, START, es).Some?
    requires var s := Run(cfg, START, es).value;
             i in s.callers && s.callers[i].Waiting?
    ensures var s := Run(cfg, START, es).value;
            var f := s.callers[i].flight;
            && f < |s.pool.log|
            && (s.pool.log[f].closes == 0 ==>
                  && leader in s.callers && Plays(s.callers[leader], Leads(f))
                  && forall j :: j in s.callers && Plays(s.callers[j], Leads(f)) ==> j == leader)
            && (s.pool.log[f].closes == 0 || Step(cfg, s, Wake(i, 0, {})).Some?)
  {
    EveryRun(cfg, es);
    var s := Run(cfg, START, es).value;
    assert FliesOk(cfg, s.pool, s.callers[i]);
    var f := s.callers[i].flight;
    assert FlightOk(s, f);
    leader := 0;
    if s.pool.log[f].closes == 0 {
      leader := CountsSome(s.callers, Leads(f));
      CountsOne(s.callers, leader, Leads(f));
    }
  }

  /** A multiplexed endpoint never has two dials in flight, and every flight's `done` is closed at most once. */
  lemma SingleFlight(cfg: Options, es: seq<Event>, i: nat, j: nat, ep: Endpoint)
    requires cfg.maxCalls < 0 && Run(cfg, START, es).Some?
    requires var m := Run(cfg, START, es).value.callers;
             i in m && j in m && Plays(m[i], Dials(ep)) && Plays(m[j], Dials(ep))
    ensures i == j
    ensures var log := Run(cfg, START, es).value.pool.log;
            forall f :: 0 <= f < |log| ==> log[f].closes <= 1
  {
    EveryRun(cfg, es);
    var s := Run(cfg, START, es).value;
    CountsOne(s.callers, i, Dials(ep));
    forall f | 0 <= f < |s.pool.log| ensures s.pool.log[f].closes <= 1 { assert FlightOk(s, f); }
  }

  lemma ClosedStep(cfg: Options, s: Sys, e: Event)
    requires s.pool.closed && Step(cfg, s, e).Some?
    ensures Step(cfg, s, e).value.pool.closed
  {
    if e.SettleDial? {
      SettleDoes(s.pool, s.callers[e.i].ep, s.callers[e.i].leads, s.callers[e.i].outcome, e.now);
    }
  }

  /** After Close nothing is tracked again, however the run goes on. */
  lemma {:induction false} ClosedForGood(cfg: Options, s: Sys, es: seq<Event>)
    requires Inv(cfg, s) && s.pool.closed && Run(cfg, s, es).Some?
    ensures Run(cfg, s, es).value.pool.closed && Run(cfg, s, es).value.pool.bySess == map[]
    decreases |es|
  {
    if es != [] {
      StepKeepsInv(cfg, s, es[0]);
      ClosedStep(cfg, s, es[0]);
      ClosedForGood(cfg, Step(cfg, s, es[0]).value, es[1..]);
    }
  }

  /** Close's list and what was closed without the lock only grow. */
  lemma {:induction false} ClosingStays(cfg: Options, s: Sys, es: seq<Event>, c: Conn)
    requires Run(cfg, s, es).Some? && One(c in s.closing) + s.closed[c] >= 1
    ensures var t := Run(cfg, s, es).value;
            One(c in t.closing) + t.closed[c] >= 1
    decreases |es|
  {
    if es != [] {
      ClosingStays(cfg, Step(cfg, s, es[0]).value, es[1..], c);
    }
  }

  /** Close closes every session the pool tracked, once: it is on Close's list or closed from there, in every run
      that goes on, and nobody else closes it, or tracks it. */
  lemma CloseClosesAll(cfg: Options, es: seq<Event>, more: seq<Event>, c: Conn)
    requires Run(cfg, START, es).Some? && c in Run(cfg, START, es).value.pool.bySess
    requires Run(cfg, START, es + ([ShutPool] + more)).Some?
    ensures var t := Run(cfg, START, es + ([ShutPool] + more)).value;
            && One(c in t.closing) + t.closed[c] == 1
            && t.pool.discarded[c] == 0 && c !in t.pool.bySess && Count(t.callers, Hands(c)) == 0
  {
    var s := Run(cfg, START, es).value;
    RunConcat(cfg, START, es, [ShutPool] + more);
    assert ([ShutPool] + more)[1..] == more;
    EveryRun(cfg, es);
    ClosingStays(cfg, Step(cfg, s, ShutPool).value, more, c);
    EveryRun(cfg, es + ([ShutPool] + more));
  }

  lemma ChainOfRun(cfg: Options, es: seq<Event>, i: nat)
    requires Run(cfg, START, es).Some? && i in Run(cfg, START, es).value.callers
    ensures var s := Run(cfg, START, es).value; ChainOk(cfg, s, s.callers[i])
  {
    EveryRun(cfg, es);
  }

  lemma HandOfRun(cfg: Options, es: seq<Event>, i: nat, c: Conn)
    requires Run(cfg, START, es).Some? && i in Run(cfg, START, es).value.callers
    requires Plays(Run(cfg, START, es).value.callers[i], Hands(c))
    ensures var s := Run(cfg, START, es).value; s.closed[c] == 0 && c !in s.pool.bySess && c !in s.closing
  {
    EveryRun(cfg, es);
    var s := Run(cfg, START, es).value;
    CountsOne(s.callers, i, Hands(c));
    assert Ledger(s);
  }

  // ------------------------------------------------------------------
  // The OpenCall chain
  // ------------------------------------------------------------------

  /** The number of times caller `i` called OpenCall on a session. */
  function Tries(es: seq<Event>, i: nat): nat {
    if es == [] then 0
    else One((es[0].CallOpened? || es[0].CallRefused?) && es[0].i == i) + Tries(es[1..], i)
  }

  ghost predicate TriesOk(cfg: Options, s: Sys, i: nat, k: nat) {
    if i !in s.callers then k == 0
    else
      var pc := s.callers[i];
      if pc.Dropping? || pc.Holding? || pc.Finished? then k <= cfg.maxSessions
      else if pc.chain.Plain? then k == 0
      else if pc.Returning? && pc.giveUp.Some? then k == pc.chain.n + 1
      else k == pc.chain.n
  }

  lemma TriesStep(cfg: Options, s: Sys, e: Event, i: nat, k: nat)
    requires cfg.maxSessions > 0 && ChainInv(cfg, s) && TriesOk(cfg, s, i, k) && Step(cfg, s, e).Some?
    ensures TriesOk(cfg, Step(cfg, s, e).value, i, k + One((e.CallOpened? || e.CallRefused?) && e.i == i))
  {
    assert i in s.callers ==> ChainOk(cfg, s, s.callers[i]);
  }

  lemma {:induction false} TriesRun(cfg: Options, s: Sys, es: seq<Event>, i: nat, k: nat)
    requires cfg.maxSessions > 0 && Inv(cfg, s) && TriesOk(cfg, s, i, k) && Run(cfg, s, es).Some?
    ensures TriesOk(cfg, Run(cfg, s, es).value, i, k + Tries(es, i))
    decreases |es|
  {
    if es != [] {
      TriesStep(cfg, s, es[0], i, k);
      StepKeepsInv(cfg, s, es[0]);
      var tried := One((es[0].CallOpened? || es[0].CallRefused?) && es[0].i == i);
      TriesRun(cfg, Step(cfg, s, es[0]).value, es[1..], i, k + tried);
    }
  }

  /** An OpenCall tries at most MaxSessionsPerEndpoint sessions, whatever else goes on in the pool. */
  lemma TriesBounded(cfg: Options, es: seq<Event>, i: nat)
    requires cfg.maxSessions > 0 && Run(cfg, START, es).Some?
    ensures Tries(es, i) <= cfg.maxSessions
  {
    StartInv(cfg);
    TriesRun(cfg, START, es, i, 0);
    RunKeepsInv(cfg, START, es);
    var s := Run(cfg, START, es).value;
    assert i in s.callers ==> ChainOk(cfg, s, s.callers[i]);
  }

  /** Caller `i` will not be on `c` again: its chain skips it, or is over. */
  predicate Avoids(pc: Caller, c: Conn) {
    pc.Dropping? || pc.Holding? || pc.Finished? || (pc.chain.Attempt? && c in pc.chain.skip)
  }

  lemma AvoidsStep(cfg: Options, s: Sys, e: Event, i: nat, c: Conn)
    requires i in s.callers && Avoids(s.callers[i], c) && Step(cfg, s, e).Some?
    ensures var t := Step(cfg, s, e).value; i in t.callers && Avoids(t.callers[i], c)
  {
    if e.TickAt? || e.ShutPool? || e.CloseOne? || e.i != i {
      OthersStay(cfg, s, e, i);
    }
  }

  lemma {:induction false} AvoidsRun(cfg: Options, s: Sys, es: seq<Event>, i: nat, c: Conn)
    requires i in s.callers && Avoids(s.callers[i], c) && Run(cfg, s, es).Some?
    ensures var t := Run(cfg, s, es).value; i in t.callers && Avoids(t.callers[i], c)
    decreases |es|
  {
    if es != [] {
      AvoidsStep(cfg, s, es[0], i, c);
      AvoidsRun(cfg, Step(cfg, s, es[0]).value, es[1..], i, c);
    }
  }

  /** A session that answered Busy is not tried again by that OpenCall: when caller `i` later calls OpenCall on
      a session, it is another one. */
  lemma BusyNotTriedAgain(cfg: Options, es: seq<Event>, i: nat, more: seq<Event>, e: Event)
    requires Run(cfg, START, es + ([CallRefused(i, Busy)] + more)).Some? && Run(cfg, START, es).Some?
    requires var s := Run(cfg, START, es).value; i in s.callers && s.callers[i].Opening?
    requires e == CallOpened(i) || (e.CallRefused? && e.i == i)
    requires Step(cfg, Run(cfg, START, es + ([CallRefused(i, Busy)] + more)).value, e).Some?
    ensures var s := Run(cfg, START, es).value;
            var t := Run(cfg, START, es + ([CallRefused(i, Busy)] + more)).value;
            t.callers[i].Opening? && t.callers[i].conn != s.callers[i].conn
  {
    var s := Run(cfg, START, es).value;
    var c := s.callers[i].conn;
    var refused := CallRefused(i, Busy);
    RunOver(cfg, es, refused, more);
    ChainOfRun(cfg, es, i);
    AvoidsRun(cfg, Step(cfg, s, refused).value, more, i, c);
    ChainOfRun(cfg, es + ([refused] + more), i);
  }

  // ------------------------------------------------------------------
  // What each caller gets
  // ------------------------------------------------------------------

  predicate ActsOn(e: Event, i: nat) {
    !e.TickAt? && !e.ShutPool? && !e.CloseOne? && e.i == i
  }

  predicate NoneActsOn(es: seq<Event>, i: nat) {
    forall e :: e in es ==> !ActsOn(e, i)
  }

  lemma {:induction false} UntouchedRun(cfg: Options, s: Sys, es: seq<Event>, i: nat)
    requires i in s.callers && NoneActsOn(es, i) && Run(cfg, s, es).Some?
    ensures var t := Run(cfg, s, es).value; i in t.callers && t.callers[i] == s.callers[i]
    decreases |es|
  {
    if es != [] {
      assert es[0] in es;
      OthersStay(cfg, s, es[0], i);
      assert forall e :: e in es[1..] ==> e in es;
      UntouchedRun(cfg, Step(cfg, s, es[0]).value, es[1..], i);
    }
  }

  /** A caller that was lent or dialed `c` uses it: an Acquire holds it, an OpenCall calls OpenCall on it. */
  predicate Uses(before: Caller, after: Caller, c: Conn)
    requires before.Ready? || before.Settling? || before.Waiting?
  {
    if before.chain.Plain? then after == Holding(c) else after == Opening(before.ep, before.chain, c)
  }

  /** A caller that enters acquire uses the first session on offer when there is one.  Else, on a pool that shares
      connections, it waits for the endpoint's dial when there is one; else it dials, and leads that dial for
      others where they are shared, when there is room; else it is told that sessions are exhausted.  Of a
      closed pool it is told so. */
  lemma AcquireGives(cfg: Options, s: Sys, e: Event)
    requires Inv(cfg, s) && e.EnterPool? && Step(cfg, s, e).Some?
    ensures var before, after := s.callers[e.i], Step(cfg, s, e).value.callers[e.i];
            var ep, skip := before.ep, SkipOf(before.chain);
            var r := Reclaim(cfg, s.pool, e.now1, e.reusable1);
            var shared := cfg.maxCalls < 0 && ep in s.pool.flights;
            if s.pool.closed then after == Finished(Some(PoolClosed), false)
            else if Offers(cfg, r, ep, skip, e.now2, e.reusable2) then
              exists c :: FirstOffered(cfg, r, ep, c, skip, e.now2, e.reusable2) && Uses(before, after, c)
            else if shared then after == Waiting(ep, before.chain, s.pool.flights[ep])
            else if HasRoom(cfg, r, ep) then
              after.Dialing? && after.ep == ep && after.chain == before.chain
              && (after.leads.Some? <==> cfg.maxCalls < 0)
            else after == Finished(Some(Exhausted), false)
  {
    var Ready(ep, ch) := s.callers[e.i];
    EnterStep(cfg, s, e);
    if !s.pool.closed {
      PoolInv(cfg, s);
      EnterAnswers(cfg, s.pool, ep, SkipOf(ch), e.now1, e.reusable1, e.now2, e.reusable2);
    }
  }

  lemma PoolInv(cfg: Options, s: Sys)
    requires Inv(cfg, s)
    ensures RepInv(cfg, s.pool)
  {
  }

  lemma EnterStep(cfg: Options, s: Sys, e: Event)
    requires e.EnterPool? && Step(cfg, s, e).Some?
    ensures var pc := s.callers[e.i];
            && pc.Ready?
            && var g := Enter(cfg, s.pool, pc.ep, SkipOf(pc.chain), e.now1, e.reusable1, e.now2, e.reusable2).1;
               && Step(cfg, s, e).value.callers[e.i] == Granted(pc.ep, pc.chain, g)
               && (s.pool.closed ==> g == Refused(PoolClosed))
  {
  }

  /** What comes of a dial for the caller that dialed. */
  lemma DialerGets(cfg: Options, s: Sys, e: Event)
    requires e.SettleDial? && Step(cfg, s, e).Some?
    ensures var before, after := s.callers[e.i], Step(cfg, s, e).value.callers[e.i];
            match before.outcome
            case Delivered(c) => if s.pool.closed then after == Dropping(c) else Uses(before, after, c)
            case DialFailed(err) => after == Finished(Some(if s.pool.closed then PoolClosed else err), true)
            case DialPanicked => after == Finished(Some(Panicked), true)
  {
    SettleTells(s.pool, s.callers[e.i].ep, s.callers[e.i].leads, s.callers[e.i].outcome, e.now);
  }

  /** A flight that was closed keeps what it says. */
  lemma FlightStep(cfg: Options, s: Sys, e: Event, f: nat)
    requires Inv(cfg, s) && f < |s.pool.log| && s.pool.log[f].closes == 1 && Step(cfg, s, e).Some?
    ensures var t := Step(cfg, s, e).value; f < |t.pool.log| && t.pool.log[f] == s.pool.log[f]
  {
    assert FlightOk(s, f);
    if e.SettleDial? {
      var pc := s.callers[e.i];
      SettleDoes(s.pool, pc.ep, pc.leads, pc.outcome, e.now);
      if pc.leads == Some(f) {
        CountsOne(s.callers, e.i, Leads(f));
        assert false;
      }
    } else {
      LogGrows(cfg, s, e);
    }
  }

  lemma LogGrows(cfg: Options, s: Sys, e: Event)
    requires Inv(cfg, s) && !e.SettleDial? && Step(cfg, s, e).Some?
    ensures s.pool.log <= Step(cfg, s, e).value.pool.log
  {
    if e.EnterPool? {
      var Ready(ep, ch) := s.callers[e.i];
      EnterDoes(cfg, s.pool, ep, SkipOf(ch), e.now1, e.reusable1, e.now2, e.reusable2);
    } else if e.GiveBack? || e.HandBack? {
      ReleaseQuiet(cfg, s.pool, s.callers[e.i].conn, e.now, e.reusable);
    }
  }

  lemma {:induction false} FlightStays(cfg: Options, s: Sys, es: seq<Event>, f: nat)
    requires Inv(cfg, s) && f < |s.pool.log| && s.pool.log[f].closes == 1 && Run(cfg, s, es).Some?
    ensures var t := Run(cfg, s, es).value; f < |t.pool.log| && t.pool.log[f] == s.pool.log[f]
    decreases |es|
  {
    if es != [] {
      FlightStep(cfg, s, es[0], f);
      StepKeepsInv(cfg, s, es[0]);
      FlightStays(cfg, Step(cfg, s, es[0]).value, es[1..], f);
    }
  }

  /** A caller that is back from a flight without an error does as one that enters, but for dialing. */
  ghost predicate GoesOn(cfg: Options, p: State, before: Caller, after: Caller, now: int, reusable: set<Conn>)
    requires before.Waiting?
  {
    var ep, skip := before.ep, SkipOf(before.chain);
    if p.closed then after == Finished(Some(PoolClosed), false)
    else if Offers(cfg, p, ep, skip, now, reusable) then
      exists c :: FirstOffered(cfg, p, ep, c, skip, now, reusable) && Uses(before, after, c)
    else if HasRoom(cfg, p, ep) then after == Ready(ep, before.chain)
    else after == Finished(Some(Exhausted), false)
  }

  lemma WakeGets(cfg: Options, u: Sys, e: Event)
    requires RepInv(cfg, u.pool) && e.Wake? && e.i in u.callers && u.callers[e.i].Waiting?
    requires u.callers[e.i].flight < |u.pool.log| && u.pool.log[u.callers[e.i].flight].closes == 1
    ensures Step(cfg, u, e).Some?
    ensures var before, after := u.callers[e.i], Step(cfg, u, e).value.callers[e.i];
            var told := u.pool.log[before.flight].err;
            if told.Some? then after == Finished(told, true)
            else GoesOn(cfg, u.pool, before, after, e.now, e.reusable)
  {
    if !u.pool.closed {
      RejoinAnswers(cfg, u.pool, u.callers[e.i].ep, SkipOf(u.callers[e.i].chain), e.now, e.reusable);
    }
  }

  lemma SettledFlight(cfg: Options, s: Sys, j: nat, now: int)
    requires Inv(cfg, s) && j in s.callers && s.callers[j].Settling? && s.callers[j].leads.Some?
    ensures var f, o := s.callers[j].leads.value, s.callers[j].outcome;
            && f < |s.pool.log| && Step(cfg, s, SettleDial(j, now)).Some?
            && var log := Step(cfg, s, SettleDial(j, now)).value.pool.log;
               && f < |log| && log[f].closes == 1
               && log[f].err == if o.DialPanicked? then Some(Panicked)
                                else if s.pool.closed then Some(PoolClosed)
                                else if o.DialFailed? then Some(o.err)
                                else None
  {
    var pc := s.callers[j];
    var f := pc.leads.value;
    assert FliesOk(cfg, s.pool, pc) && FlightOk(s, f);
    CountsOne(s.callers, j, Leads(f));
    SettleTells(s.pool, pc.ep, pc.leads, pc.outcome, now);
  }

  lemma RunOver(cfg: Options, es: seq<Event>, e: Event, more: seq<Event>)
    requires Run(cfg, START, es).Some? && Run(cfg, START, es + ([e] + more)).Some?
    ensures var s := Run(cfg, START, es).value;
            && Step(cfg, s, e).Some?
            && Run(cfg, START, es + ([e] + more)) == Run(cfg, Step(cfg, s, e).value, more)
  {
    RunConcat(cfg, START, es, [e] + more);
    assert ([e] + more)[1..] == more;
  }

  /** However much later it wakes, a caller that shared a dial is told how the dial ended: nothing when the session
      came into an open pool, and then it goes on; else the panic, that the pool was closed, or the very error
      of the dial. */
  lemma JoinerGets(cfg: Options, es: seq<Event>, j: nat, now: int, more: seq<Event>, e: Event)
    requires Run(cfg, START, es).Some? && Run(cfg, START, es + ([SettleDial(j, now)] + more)).Some?
    requires var s := Run(cfg, START, es).value;
             var u := Run(cfg, START, es + ([SettleDial(j, now)] + more)).value;
             && e.Wake? && e.i in u.callers && u.callers[e.i].Waiting?
             && j in s.callers && s.callers[j].Settling? && s.callers[j].leads == Some(u.callers[e.i].flight)
    ensures var s := Run(cfg, START, es).value;
            var u := Run(cfg, START, es + ([SettleDial(j, now)] + more)).value;
            var o := s.callers[j].outcome;
            && Step(cfg, u, e).Some?
            && var after := Step(cfg, u, e).value.callers[e.i];
               if o.DialPanicked? then after == Finished(Some(Panicked), true)
               else if s.pool.closed then after == Finished(Some(PoolClosed), true)
               else if o.DialFailed? then after == Finished(Some(o.err), true)
               else GoesOn(cfg, u.pool, u.callers[e.i], after, e.now, e.reusable)
  {
    var s := Run(cfg, START, es).value;
    var settle := SettleDial(j, now);
    RunOver(cfg, es, settle, more);
    EveryRun(cfg, es);
    SettledFlight(cfg, s, j, now);
    StepKeepsInv(cfg, s, settle);
    FlightStays(cfg, Step(cfg, s, settle).value, more, s.callers[j].leads.value);
    EveryRun(cfg, es + ([settle] + more));
    WakeGets(cfg, Run(cfg, START, es + ([settle] + more)).value, e);
  }

  // ------------------------------------------------------------------
  // What an OpenCall makes of its session's answer
  // ------------------------------------------------------------------

  /** What a caller that was told `err` on `c` does next, having called OpenCall `tries` times. */
  ghost predicate GivesBack(cfg: Options, before: Caller, err: Error, tries: nat, after: Caller)
    requires before.Opening?
  {
    if err == Busy || err == Spent then
      if cfg.maxSessions > 0 && tries >= cfg.maxSessions then after == Finished(Some(Exhausted), false)
      else
        && after.Ready? && after.ep == before.ep && after.chain.Attempt?
        && SkipOf(after.chain) == SkipOf(before.chain) + (if err == Busy then {before.conn} else {})
    else after == Finished(Some(err), false)
  }

  lemma RefusalGets(cfg: Options, pc: Caller, err: Error, tries: nat)
    requires pc.Opening? && pc.chain.Attempt?
    requires var r := AfterRefusal(pc.ep, pc.chain, pc.conn, err);
             cfg.maxSessions > 0 && (err == Busy || err == Spent) ==> r.chain.n == tries
    ensures var r := AfterRefusal(pc.ep, pc.chain, pc.conn, err);
            && r.Returning? && r.conn == pc.conn
            && GivesBack(cfg, pc, err, tries, AfterReturn(cfg, r.ep, r.chain, r.giveUp))
  {
  }

  lemma GiveBackGets(cfg: Options, u: Sys, i: nat, e: Event)
    requires i in u.callers && u.callers[i].Returning?
    ensures ActsOn(e, i) && Step(cfg, u, e).Some? ==> e.GiveBack?
    ensures e.GiveBack? && e.i == i ==>
              var pc := u.callers[i];
              Step(cfg, u, e) == Some(Move(u, i, AfterReturn(cfg, pc.ep, pc.chain, pc.giveUp),
                                           Release(cfg, u.pool, pc.conn, e.now, e.reusable)))
  {
  }

  /** Caller `i` was told `err` by OpenCall on a session.  Whatever others do meanwhile, what it does next is to
      give that session back, and it can.  Busy and Spent let it go on, Busy without that session, unless its
      OpenCalls are used up; any other error ends the chain and is what the caller is told. */
  lemma RefusedGoesOn(cfg: Options, es: seq<Event>, i: nat, err: Error, more: seq<Event>, e: Event)
    requires Run(cfg, START, es).Some? && Run(cfg, START, es + ([CallRefused(i, err)] + more)).Some?
    requires var m := Run(cfg, START, es).value.callers; i in m && m[i].Opening?
    requires NoneActsOn(more, i)
    ensures var before := Run(cfg, START, es).value.callers[i];
            var so := es + ([CallRefused(i, err)] + more);
            var u := Run(cfg, START, so).value;
            && (ActsOn(e, i) && Step(cfg, u, e).Some? ==> e.GiveBack?)
            && (e.GiveBack? && e.i == i ==>
                  && Step(cfg, u, e).Some?
                  && Step(cfg, u, e).value.pool == Release(cfg, u.pool, before.conn, e.now, e.reusable)
                  && i in Step(cfg, u, e).value.callers
                  && GivesBack(cfg, before, err, Tries(so, i), Step(cfg, u, e).value.callers[i]))
  {
    var s := Run(cfg, START, es).value;
    var refused := CallRefused(i, err);
    var so := es + ([refused] + more);
    RunOver(cfg, es, refused, more);
    ChainOfRun(cfg, es, i);
    UntouchedRun(cfg, Step(cfg, s, refused).value, more, i);
    if cfg.maxSessions > 0 && (err == Busy || err == Spent) {
      ReturningTries(cfg, so, i);
    }
    RefusalGets(cfg, s.callers[i], err, Tries(so, i));
    GiveBackGets(cfg, Run(cfg, START, so).value, i, e);
  }

  /** When OpenCall succeeds, the caller holds that very session, and what it does next is to hand it back, which
      ends it without an error. */
  lemma OpenedHolds(cfg: Options, es: seq<Event>, i: nat, more: seq<Event>, e: Event)
    requires Run(cfg, START, es).Some? && Run(cfg, START, es + ([CallOpened(i)] + more)).Some?
    requires var m := Run(cfg, START, es).value.callers; i in m && m[i].Opening?
    requires NoneActsOn(more, i)
    ensures var before := Run(cfg, START, es).value.callers[i];
            var u := Run(cfg, START, es + ([CallOpened(i)] + more)).value;
            && i in u.callers && u.callers[i] == Holding(before.conn)
            && (ActsOn(e, i) && Step(cfg, u, e).Some? ==> e.HandBack?)
            && (e.HandBack? && e.i == i ==>
                  && Step(cfg, u, e).Some?
                  && Step(cfg, u, e).value.pool == Release(cfg, u.pool, before.conn, e.now, e.reusable)
                  && Step(cfg, u, e).value.callers[i] == Finished(None, false))
  {
    var s := Run(cfg, START, es).value;
    RunOver(cfg, es, CallOpened(i), more);
    UntouchedRun(cfg, Step(cfg, s, CallOpened(i)).value, more, i);
  }

  /** When the pool was closed under a dial that brought a session, what the dialer does next is to close that
      session, once, and it is told that the pool is closed. */
  lemma LateSessionCloses(cfg: Options, es: seq<Event>, i: nat, now: int, more: seq<Event>, e: Event)
    requires Run(cfg, START, es).Some? && Run(cfg, START, es + ([SettleDial(i, now)] + more)).Some?
    requires var s := Run(cfg, START, es).value;
             s.pool.closed && i in s.callers && s.callers[i].Settling? && s.callers[i].outcome.Delivered?
    requires NoneActsOn(more, i)
    ensures var c := Run(cfg, START, es).value.callers[i].outcome.conn;
            var u := Run(cfg, START, es + ([SettleDial(i, now)] + more)).value;
            && u.closed[c] == 0 && c !in u.pool.bySess && c !in u.closing
            && (ActsOn(e, i) && Step(cfg, u, e).Some? ==> e.CloseDropped?)
            && (e == CloseDropped(i) ==>
                  && Step(cfg, u, e).Some?
                  && Step(cfg, u, e).value.closed == u.closed + multiset{c}
                  && Step(cfg, u, e).value.callers[i] == Finished(Some(PoolClosed), false))
  {
    var s := Run(cfg, START, es).value;
    var c := s.callers[i].outcome.conn;
    var so := es + ([SettleDial(i, now)] + more);
    var u := Run(cfg, START, so).value;
    RunOver(cfg, es, SettleDial(i, now), more);
    DialerGets(cfg, s, SettleDial(i, now));
    UntouchedRun(cfg, Step(cfg, s, SettleDial(i, now)).value, more, i);
    HandOfRun(cfg, so, i, c);
  }

  // ------------------------------------------------------------------
  // Who closes a session
  // ------------------------------------------------------------------

  /** The OpenCall loop closes a session that answered Spent. */
  predicate SpentOn(s: Sys, e: Event, c: Conn) {
    && e.CallRefused? && e.err == Spent
    && e.i in s.callers && s.callers[e.i].Opening? && s.callers[e.i].conn == c
  }

  /** How often `c` was closed in a run: by a region, without the lock, or by an OpenCall. */
  function Closings(cfg: Options, s: Sys, es: seq<Event>, c: Conn): int
    requires Run(cfg, s, es).Some?
    decreases |es|
  {
    if es == [] then 0
    else
      var t := Step(cfg, s, es[0]).value;
      (t.pool.discarded[c] - s.pool.discarded[c]) + (t.closed[c] - s.closed[c]) + One(SpentOn(s, es[0], c))
      + Closings(cfg, t, es[1..], c)
  }

  /** How often an OpenCall found `c` spent. */
  function SpentAnswers(cfg: Options, s: Sys, es: seq<Event>, c: Conn): nat
    requires Run(cfg, s, es).Some?
    decreases |es|
  {
    if es == [] then 0
    else One(SpentOn(s, es[0], c)) + SpentAnswers(cfg, Step(cfg, s, es[0]).value, es[1..], c)
  }

  lemma {:induction false} ClosingsAre(cfg: Options, s: Sys, es: seq<Event>, c: Conn)
    requires Run(cfg, s, es).Some?
    ensures var t := Run(cfg, s, es).value;
            Closings(cfg, s, es, c)
              == (t.pool.discarded[c] - s.pool.discarded[c]) + (t.closed[c] - s.closed[c]) + SpentAnswers(cfg, s, es, c)
    decreases |es|
  {
    if es != [] {
      ClosingsAre(cfg, Step(cfg, s, es[0]).value, es[1..], c);
    }
  }

  /** While the pool is open, a session that anyone leases was closed by nobody but the OpenCalls that found it
      spent, once by each. */
  lemma OnlySpentCloses(cfg: Options, es: seq<Event>, i: nat, c: Conn)
    requires Run(cfg, START, es).Some?
    requires var s := Run(cfg, START, es).value;
             !s.pool.closed && i in s.callers && Plays(s.callers[i], Leases(c))
    ensures Closings(cfg, START, es, c) == SpentAnswers(cfg, START, es, c)
  {
    NotClosedUnderCaller(cfg, es, i, c);
    ClosingsAre(cfg, START, es, c);
  }

  // ------------------------------------------------------------------
  // When Exhausted is the answer
  // ------------------------------------------------------------------

  /** The endpoint is at its cap and nothing of it can be lent. */
  ghost predicate Full(cfg: Options, p: State, ep: Endpoint, skip: set<Conn>, now: int, reusable: set<Conn>) {
    !p.closed && AtCap(cfg, p, ep) && NoneLendable(cfg, p, ep, skip, now, reusable)
  }

  /** The event `e` finds caller `i`, which has tried `tries` sessions, at the end of its means: a region finds
      the endpoint full (at the top of acquire also with no dial to join), the chain has used up its attempts,
      or a dial or a session said so itself. */
  ghost predicate RunsOut(cfg: Options, s: Sys, e: Event, i: nat, tries: nat)
    requires i in s.callers && Step(cfg, s, e).Some?
  {
    var pc := s.callers[i];
    match e
    case EnterPool(j, now1, r1, now2, r2) =>
      && j == i && !s.pool.closed && !(CapPer(cfg) < 0 && pc.ep in s.pool.flights)
      && Full(cfg, Reclaim(cfg, s.pool, now1, r1), pc.ep, SkipOf(pc.chain), now2, r2)
    case Wake(j, now, r) =>
      && j == i
      && (var err := s.pool.log[pc.flight].err;
          if err.Some? then err == Some(Exhausted) else Full(cfg, s.pool, pc.ep, SkipOf(pc.chain), now, r))
    case SettleDial(j, _) => j == i && !s.pool.closed && pc.outcome == DialFailed(Exhausted)
    case GiveBack(j, _, _) =>
      && j == i
      && (if pc.giveUp.Some? then pc.giveUp == Some(Exhausted)
          else cfg.maxSessions > 0 && tries >= cfg.maxSessions)
    case _ => false
  }

  lemma ReturningTries(cfg: Options, es: seq<Event>, i: nat)
    requires cfg.maxSessions > 0 && Run(cfg, START, es).Some?
    requires var m := Run(cfg, START, es).value.callers; i in m && m[i].Returning? && m[i].giveUp.None?
    ensures var pc := Run(cfg, START, es).value.callers[i]; pc.chain.Attempt? && pc.chain.n == Tries(es, i)
  {
    var s := Run(cfg, START, es).value;
    EveryRun(cfg, es);
    StartInv(cfg);
    TriesRun(cfg, START, es, i, 0);
    assert ChainOk(cfg, s, s.callers[i]);
  }

  lemma RunsOutEnter(cfg: Options, s: Sys, e: Event)
    requires Inv(cfg, s) && e.EnterPool? && Step(cfg, s, e).Some?
    ensures RunsOut(cfg, s, e, e.i, 0) <==> Step(cfg, s, e).value.callers[e.i] == Finished(Some(Exhausted), false)
  {
    var Ready(ep, ch) := s.callers[e.i];
    ReclaimDoes(cfg, s.pool, e.now1, e.reusable1);
    ExhaustedExactly(cfg, s.pool, ep, SkipOf(ch), e.now1, e.reusable1, e.now2, e.reusable2);
  }

  lemma RunsOutWake(cfg: Options, s: Sys, e: Event)
    requires Inv(cfg, s) && e.Wake? && Step(cfg, s, e).Some?
    ensures RunsOut(cfg, s, e, e.i, 0) <==>
            var pc := Step(cfg, s, e).value.callers[e.i];
            pc.Finished? && pc.err == Some(Exhausted)
  {
    var Waiting(ep, ch, f) := s.callers[e.i];
    RejoinExhaustedExactly(cfg, s.pool, ep, SkipOf(ch), e.now, e.reusable);
  }

  lemma RunsOutGiveBack(cfg: Options, s: Sys, e: Event, tries: nat)
    requires ChainInv(cfg, s) && e.GiveBack? && Step(cfg, s, e).Some?
    requires var pc := s.callers[e.i];
             cfg.maxSessions > 0 && pc.giveUp.None? ==> pc.chain.Attempt? && pc.chain.n == tries
    ensures RunsOut(cfg, s, e, e.i, tries) <==>
            var pc := Step(cfg, s, e).value.callers[e.i];
            pc.Finished? && pc.err == Some(Exhausted)
  {
    assert ChainOk(cfg, s, s.callers[e.i]);
  }

  /** An event changes no caller but its own. */
  lemma OthersStay(cfg: Options, s: Sys, e: Event, i: nat)
    requires i in s.callers && Step(cfg, s, e).Some?
    requires e.TickAt? || e.ShutPool? || e.CloseOne? || e.i != i
    ensures var t := Step(cfg, s, e).value; i in t.callers && t.callers[i] == s.callers[i]
  {
  }

  lemma QuietNeverRunsOut(cfg: Options, s: Sys, e: Event)
    requires e.DialReturns? || e.CloseDropped? || e.Cancel? || e.CallOpened? || e.CallRefused? || e.HandBack?
    requires Step(cfg, s, e).Some?
    ensures var pc := Step(cfg, s, e).value.callers[e.i];
            !(pc.Finished? && pc.err == Some(Exhausted))
  {
  }

  lemma RunsOutStep(cfg: Options, s: Sys, e: Event, tries: nat)
    requires Inv(cfg, s) && !e.TickAt? && !e.ShutPool? && !e.CloseOne?
    requires e.i in s.callers && Step(cfg, s, e).Some?
    requires var pc := s.callers[e.i];
             cfg.maxSessions > 0 && pc.Returning? && pc.giveUp.None? ==> pc.chain.Attempt? && pc.chain.n == tries
    ensures RunsOut(cfg, s, e, e.i, tries) <==>
            var pc := Step(cfg, s, e).value.callers[e.i];
            pc.Finished? && pc.err == Some(Exhausted)
  {
    match e
    case EnterPool(_, _, _, _, _) => RunsOutEnter(cfg, s, e);
    case Wake(_, _, _) => RunsOutWake(cfg, s, e);
    case GiveBack(_, _, _) => RunsOutGiveBack(cfg, s, e, tries);
    case SettleDial(_, _) =>
    case Begin(_, _, _) =>
    case _ => QuietNeverRunsOut(cfg, s, e);
  }

  /** A caller is told ErrSessionsExhausted, by whatever event of whatever run, if and only if that event finds
      it at the end of its means. */
  lemma ExhaustedAnswersExactly(cfg: Options, es: seq<Event>, e: Event, i: nat)
    requires Run(cfg, START, es).Some? && Step(cfg, Run(cfg, START, es).value, e).Some?
    requires var m := Run(cfg, START, es).value.callers; i in m && !m[i].Finished?
    ensures var s := Run(cfg, START, es).value;
            var pc := Step(cfg, s, e).value.callers[i];
            (pc.Finished? && pc.err == Some(Exhausted)) <==> RunsOut(cfg, s, e, i, Tries(es, i))
  {
    var s := Run(cfg, START, es).value;
    if e.TickAt? || e.ShutPool? || e.CloseOne? || e.i != i {
      OthersStay(cfg, s, e, i);
    } else {
      EveryRun(cfg, es);
      if cfg.maxSessions > 0 && s.callers[i].Returning? && s.callers[i].giveUp.None? {
        ReturningTries(cfg, es, i);
      }
      RunsOutStep(cfg, s, e, Tries(es, i));
    }
  }

  lemma {:induction false} RunConcat(cfg: Options, s: Sys, a: seq<Event>, b: seq<Event>)
    requires Run(cfg, s, a).Some?
    ensures Run(cfg, s, a + b) == Run(cfg, Run(cfg, s, a).value, b)
    decreases |a|
  {
    if a == [] {
      Emptys(b);
    } else {
      assert (a + b)[1..] == a[1..] + b;
      RunConcat(cfg, Step(cfg, s, a[0]).value, a[1..], b);
    }
  }

  const ONE_EACH := Options(1, 1, 0, 0, 1)

  lemma OneDialing(ep: Endpoint)
    ensures var es := [Begin(0, ep, true), EnterPool(0, 0, {}, 0, {})];
            var r := Run(ONE_EACH, START, es);
            && r.Some? && r.value == START.(pool := INIT.(buckets := map[ep := Bucket([], [], 1)]),
                                            callers := map[0 := Dialing(ep, Attempt(0, {}), None)])
  {
    var e1, e2 := Begin(0, ep, true), EnterPool(0, 0, {}, 0, {});
    var s1 := Step(ONE_EACH, START, e1).value;
    assert s1.callers[0] == Ready(ep, Attempt(0, {}));
    assert Reclaim(ONE_EACH, INIT, 0, {}) == INIT;
    var touched := Touch(INIT, ep);
    assert touched.buckets == map[ep := EMPTY_BUCKET];
    var reserved := AddPending(touched, ep, 1);
    assert reserved.buckets == map[ep := Bucket([], [], 1)];
    assert Miss(ONE_EACH, INIT, ep) == (reserved, Dial(None));
    assert Enter(ONE_EACH, INIT, ep, {}, 0, {}, 0, {}) == (INIT.(buckets := map[ep := Bucket([], [], 1)]), Dial(None));
    assert Run(ONE_EACH, s1, [e2]) == Step(ONE_EACH, s1, e2);
    RunOne(ONE_EACH, START, [e1, e2]);
  }

  const LANDED := Entry(Endpoint(""), 1, 0, 0, false)

  lemma OneOpening(s: Sys, ep: Endpoint)
    requires s == START.(pool := INIT.(buckets := map[ep := Bucket([], [], 1)]),
                         callers := map[0 := Dialing(ep, Attempt(0, {}), None)])
    ensures var r := Run(ONE_EACH, s, [DialReturns(0, Delivered(7)), SettleDial(0, 0)]);
            && r.Some? && 0 in r.value.callers && r.value.callers[0] == Opening(ep, Attempt(0, {}), 7)
            && r.value.pool == INIT.(buckets := map[ep := Bucket([7], [], 0)],
                                     bySess := map[7 := LANDED.(endpoint := ep)])
  {
    var e3, e4 := DialReturns(0, Delivered(7)), SettleDial(0, 0);
    var s3 := Step(ONE_EACH, s, e3).value;
    assert s3.callers[0] == Settling(ep, Attempt(0, {}), None, Delivered(7));
    assert [] + [7] == [7];
    var t := Settle(s3.pool, ep, None, Delivered(7), 0).0;
    assert t.buckets == map[ep := Bucket([7], [], 0)];
    assert t.bySess == map[7 := LANDED.(endpoint := ep)];
    assert Run(ONE_EACH, s3, [e4]) == Step(ONE_EACH, s3, e4);
    RunOne(ONE_EACH, s, [e3, e4]);
  }

  lemma SpentEmpties(s: Sys, ep: Endpoint)
    requires 0 in s.callers && s.callers[0] == Opening(ep, Attempt(0, {}), 7)
    requires s.pool == INIT.(buckets := map[ep := Bucket([7], [], 0)], bySess := map[7 := LANDED.(endpoint := ep)])
    ensures var r := Run(ONE_EACH, s, [CallRefused(0, Spent), GiveBack(0, 0, {})]);
            && r.Some? && 0 in r.value.callers && r.value.callers[0] == Finished(Some(Exhausted), false)
            && r.value.pool.bySess == map[] && BucketAt(r.value.pool, ep) == EMPTY_BUCKET
  {
    var e5, e6 := CallRefused(0, Spent), GiveBack(0, 0, {});
    var s5 := Step(ONE_EACH, s, e5).value;
    assert s5.callers[0] == Returning(ep, Attempt(1, {}), 7, None);
    ReleaseIs(ONE_EACH, s.pool, 7, 0, {});
    assert Without([7], {7}) == [] by { assert [7][1..] == []; }
    assert Without([], {7}) == [];
    assert Release(ONE_EACH, s.pool, 7, 0, {}) == Discard(s.pool, 7);
    assert Run(ONE_EACH, s5, [e6]) == Step(ONE_EACH, s5, e6);
    RunOne(ONE_EACH, s, [e5, e6]);
  }

  /** One Spent answer uses up a chain of one attempt: Exhausted is the answer though the endpoint is empty. */
  lemma OneSpentExhausts(ep: Endpoint)
    ensures var es := [Begin(0, ep, true), EnterPool(0, 0, {}, 0, {})]
                      + [DialReturns(0, Delivered(7)), SettleDial(0, 0)];
            var r := Run(ONE_EACH, START, es + [CallRefused(0, Spent), GiveBack(0, 0, {})]);
            && r.Some? && 0 in r.value.callers && r.value.callers[0] == Finished(Some(Exhausted), false)
            && r.value.pool.bySess == map[] && BucketAt(r.value.pool, ep) == EMPTY_BUCKET
  {
    var dial := [Begin(0, ep, true), EnterPool(0, 0, {}, 0, {})];
    var land := [DialReturns(0, Delivered(7)), SettleDial(0, 0)];
    OneDialing(ep);
    OneOpening(Run(ONE_EACH, START, dial).value, ep);
    RunConcat(ONE_EACH, START, dial, land);
    SpentEmpties(Run(ONE_EACH, START, dial + land).value, ep);
    RunConcat(ONE_EACH, START, dial + land, [CallRefused(0, Spent), GiveBack(0, 0, {})]);
  }

  lemma RunOne(cfg: Options, s: Sys, es: seq<Event>)
    requires es != [] && Step(cfg, s, es[0]).Some?
    ensures Run(cfg, s, es) == Run(cfg, Step(cfg, s, es[0]).value, es[1..])
  {
  }

  predicate Sentinel(e: Option<Error>) {
    e == Some(Busy) || e == Some(Spent)
  }

  ghost predicate QuietLog(log: seq<Flight>) {
    forall f :: 0 <= f < |log| ==> !Sentinel(log[f].err)
  }

  predicate QuietCaller(pc: Caller) {
    pc.Finished? ==> !Sentinel(pc.err)
  }

  /** No flight holds one of the two sentinels, and no caller was told one. */
  ghost predicate NoSentinel(s: Sys) {
    QuietLog(s.pool.log) && forall i :: i in s.callers ==> QuietCaller(s.callers[i])
  }

  /** Some caller was told one. */
  ghost predicate Told(s: Sys) {
    exists i :: i in s.callers && !QuietCaller(s.callers[i])
  }

  /** A dial that ended with a sentinel is settled while the pool is open. */
  predicate Leaks(s: Sys, e: Event) {
    && e.SettleDial? && e.i in s.callers && s.callers[e.i].Settling? && !s.pool.closed
    && s.callers[e.i].outcome.DialFailed? && Sentinel(Some(s.callers[e.i].outcome.err))
  }

  /** That happens somewhere in the run. */
  ghost predicate LeakyRun(cfg: Options, s: Sys, es: seq<Event>)
    decreases |es|
  {
    es != [] && (Leaks(s, es[0]) || (Step(cfg, s, es[0]).Some? && LeakyRun(cfg, Step(cfg, s, es[0]).value, es[1..])))
  }

  /** Lending, joining and reserving neither invent a sentinel nor write to a flight. */
  lemma RegionsQuiet(cfg: Options, p: State, ep: Endpoint, skip: set<Conn>,
                     now1: int, reusable1: set<Conn>, now2: int, reusable2: set<Conn>)
    requires QuietLog(p.log)
    ensures var (t, g) := Enter(cfg, p, ep, skip, now1, reusable1, now2, reusable2);
            QuietLog(t.log) && (g.Refused? ==> !Sentinel(Some(g.err)))
    ensures var (t, g) := Rejoin(cfg, p, ep, skip, now2, reusable2);
            QuietLog(t.log) && (g.Refused? ==> !Sentinel(Some(g.err)))
  {
  }

  lemma ReleaseQuiet(cfg: Options, p: State, c: Conn, now: int, reusable: set<Conn>)
    ensures Release(cfg, p, c, now, reusable).log == p.log
  {
  }

  lemma NoSentinelMove(s: Sys, i: nat, pc: Caller, t: Sys)
    requires NoSentinel(s) && QuietCaller(pc) && t.callers == s.callers[i := pc] && QuietLog(t.pool.log)
    ensures NoSentinel(t)
  {
  }

  lemma NoSentinelStep(cfg: Options, s: Sys, e: Event)
    requires ChainInv(cfg, s) && NoSentinel(s) && !Leaks(s, e) && Step(cfg, s, e).Some?
    ensures NoSentinel(Step(cfg, s, e).value)
  {
    var t := Step(cfg, s, e).value;
    if !e.TickAt? && !e.ShutPool? && !e.CloseOne? {
      if e.i in s.callers {
        assert QuietCaller(s.callers[e.i]) && ChainOk(cfg, s, s.callers[e.i]);
      }
      QuietAfter(cfg, s, e);
      NoSentinelMove(s, e.i, t.callers[e.i], t);
    }
  }

  ghost predicate QuietlyMoved(s: Sys, i: nat, t: Sys) {
    && i in t.callers && t.callers == s.callers[i := t.callers[i]]
    && QuietCaller(t.callers[i]) && QuietLog(t.pool.log)
  }

  lemma QuietRegion(cfg: Options, s: Sys, e: Event)
    requires e.EnterPool? || e.Wake? || e.GiveBack? || e.HandBack?
    requires QuietLog(s.pool.log) && Step(cfg, s, e).Some?
    requires QuietCaller(s.callers[e.i]) && ChainOk(cfg, s, s.callers[e.i])
    ensures QuietlyMoved(s, e.i, Step(cfg, s, e).value)
  {
    match e
    case EnterPool(i, now1, r1, now2, r2) =>
      RegionsQuiet(cfg, s.pool, s.callers[i].ep, SkipOf(s.callers[i].chain), now1, r1, now2, r2);
    case Wake(i, now, r) =>
      RegionsQuiet(cfg, s.pool, s.callers[i].ep, SkipOf(s.callers[i].chain), now, r, now, r);
    case GiveBack(i, now, r) => ReleaseQuiet(cfg, s.pool, s.callers[i].conn, now, r);
    case HandBack(i, now, r) => ReleaseQuiet(cfg, s.pool, s.callers[i].conn, now, r);
  }

  lemma QuietAfter(cfg: Options, s: Sys, e: Event)
    requires !e.TickAt? && !e.ShutPool? && !e.CloseOne?
    requires QuietLog(s.pool.log) && !Leaks(s, e) && Step(cfg, s, e).Some?
    requires e.i in s.callers ==> QuietCaller(s.callers[e.i]) && ChainOk(cfg, s, s.callers[e.i])
    ensures QuietlyMoved(s, e.i, Step(cfg, s, e).value)
  {
    if e.EnterPool? || e.Wake? || e.GiveBack? || e.HandBack? {
      QuietRegion(cfg, s, e);
    }
  }

  lemma {:induction false} QuietRun(cfg: Options, s: Sys, es: seq<Event>)
    requires Inv(cfg, s) && NoSentinel(s) && Run(cfg, s, es).Some? && !LeakyRun(cfg, s, es)
    ensures NoSentinel(Run(cfg, s, es).value)
    decreases |es|
  {
    if es != [] {
      NoSentinelStep(cfg, s, es[0]);
      StepKeepsInv(cfg, s, es[0]);
      QuietRun(cfg, Step(cfg, s, es[0]).value, es[1..]);
    }
  }

  lemma LeakTells(cfg: Options, s: Sys, e: Event)
    requires Leaks(s, e) && Step(cfg, s, e).Some?
    ensures Told(Step(cfg, s, e).value)
  {
    assert !QuietCaller(Step(cfg, s, e).value.callers[e.i]);
  }

  /** What a finished caller was told stays as it is. */
  lemma FinishedStays(cfg: Options, s: Sys, e: Event, i: nat)
    requires i in s.callers && s.callers[i].Finished? && Step(cfg, s, e).Some?
    ensures var t := Step(cfg, s, e).value;
            i in t.callers && t.callers[i] == s.callers[i]
  {
  }

  lemma {:induction false} ToldStays(cfg: Options, s: Sys, es: seq<Event>)
    requires Told(s) && Run(cfg, s, es).Some?
    ensures Told(Run(cfg, s, es).value)
    decreases |es|
  {
    if es != [] {
      var i :| i in s.callers && !QuietCaller(s.callers[i]);
      FinishedStays(cfg, s, es[0], i);
      ToldStays(cfg, Step(cfg, s, es[0]).value, es[1..]);
    }
  }

  lemma {:induction false} LeakyRunTells(cfg: Options, s: Sys, es: seq<Event>)
    requires LeakyRun(cfg, s, es) && Run(cfg, s, es).Some?
    ensures Told(Run(cfg, s, es).value)
    decreases |es|
  {
    var t := Step(cfg, s, es[0]).value;
    if Leaks(s, es[0]) {
      LeakTells(cfg, s, es[0]);
      ToldStays(cfg, t, es[1..]);
    } else {
      LeakyRunTells(cfg, t, es[1..]);
    }
  }

  /** ErrConnBusy or ErrConnSpent reaches some caller, the dialer or one that joined its flight, if and only if
      somewhere in the run a dial that ended with it was settled while the pool was open. */
  lemma LeakExactly(cfg: Options, s: Sys, es: seq<Event>)
    requires Inv(cfg, s) && NoSentinel(s) && Run(cfg, s, es).Some?
    ensures Told(Run(cfg, s, es).value) <==> LeakyRun(cfg, s, es)
  {
    if LeakyRun(cfg, s, es) {
      LeakyRunTells(cfg, s, es);
    } else {
      QuietRun(cfg, s, es);
    }
  }

  /** No dial of the run ended with one of the two sentinels. */
  predicate CleanDial(e: Event) {
    e.DialReturns? && e.outcome.DialFailed? ==> !Sentinel(Some(e.outcome.err))
  }

  ghost predicate CleanHands(s: Sys) {
    forall i :: i in s.callers && s.callers[i].Settling? && s.callers[i].outcome.DialFailed? ==>
      !Sentinel(Some(s.callers[i].outcome.err))
  }

  lemma CleanStep(cfg: Options, s: Sys, e: Event)
    requires CleanHands(s) && CleanDial(e) && Step(cfg, s, e).Some?
    ensures CleanHands(Step(cfg, s, e).value) && !Leaks(s, e)
  {
  }

  lemma {:induction false} CleanRunLeaksNothing(cfg: Options, s: Sys, es: seq<Event>)
    requires CleanHands(s) && (forall e :: e in es ==> CleanDial(e)) && Run(cfg, s, es).Some?
    ensures !LeakyRun(cfg, s, es)
    decreases |es|
  {
    if es != [] {
      assert es[0] in es;
      CleanStep(cfg, s, es[0]);
      CleanRunLeaksNothing(cfg, Step(cfg, s, es[0]).value, es[1..]);
    }
  }

  /** So the two reach no caller of a run none of whose dials ended with one. */
  lemma NoLeakWhenDialsClean(cfg: Options, s: Sys, es: seq<Event>)
    requires Inv(cfg, s) && NoSentinel(s) && CleanHands(s) && (forall e :: e in es ==> CleanDial(e))
    requires Run(cfg, s, es).Some?
    ensures NoSentinel(Run(cfg, s, es).value)
  {
    CleanRunLeaksNothing(cfg, s, es);
    QuietRun(cfg, s, es);
  }

  /** The documentation says the sentinels never leak; a DialFunc that fails with ErrConnBusy leaks it. */
  lemma BusyCanLeak(ep: Endpoint)
    ensures var es := [Begin(0, ep, true), EnterPool(0, 0, {}, 0, {})]
                      + [DialReturns(0, DialFailed(Busy)), SettleDial(0, 0)];
            var r := Run(ONE_EACH, START, es);
            r.Some? && 0 in r.value.callers && r.value.callers[0] == Finished(Some(Busy), true)
  {
    var dial := [Begin(0, ep, true), EnterPool(0, 0, {}, 0, {})];
    var land := [DialReturns(0, DialFailed(Busy)), SettleDial(0, 0)];
    OneDialing(ep);
    var s := Run(ONE_EACH, START, dial).value;
    var s3 := Step(ONE_EACH, s, land[0]).value;
    assert s3.callers[0] == Settling(ep, Attempt(0, {}), None, DialFailed(Busy));
    assert Run(ONE_EACH, s3, [land[1]]) == Step(ONE_EACH, s3, land[1]);
    RunOne(ONE_EACH, s, land);
    RunConcat(ONE_EACH, START, dial, land);
  }
}

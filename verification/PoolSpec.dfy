/** The connection pool of `internal/sessionpool/pool.go` on values.

    One function per lock region: what the region does to the pool's state and
    what it answers. `PoolImpl` proves that the pool's methods do exactly this to
    the heap, `PoolRuns` lets any number of callers interleave the regions. */
module PoolSpec {
  import opened Seqs

  type Conn = nat
  datatype Endpoint = Endpoint(name: string)

  datatype Options = Options(
    maxSessions: int,
    maxIdle: int,
    idleTimeout: int,
    maxLifetime: int,
    maxCalls: int)

  /** Calls one connection carries at a time, -1 when it is unlimited. */
  function CapPer(cfg: Options): int {
    if cfg.maxCalls < 0 then -1 else if cfg.maxCalls > 1 then cfg.maxCalls else 1
  }

  datatype Error = PoolClosed | Exhausted | Busy | Spent | Cancelled | Panicked | Other(code: int)

  datatype Entry = Entry(endpoint: Endpoint, refcount: int, createdAt: int, idleSince: int, inIdle: bool)

  datatype Bucket = Bucket(entries: seq<Conn>, idle: seq<Conn>, pending: int)

  /** `closes` counts the times the flight's `done` channel was closed; Go panics on the second. */
  datatype Flight = Flight(endpoint: Endpoint, closes: nat, err: Option<Error>)

  /** `flights` names the registered flight of an endpoint, `log` holds every flight ever started,
      `discarded` the sessions the pool closed while it held its lock. */
  datatype State = State(
    closed: bool,
    buckets: map<Endpoint, Bucket>,
    bySess: map<Conn, Entry>,
    flights: map<Endpoint, nat>,
    log: seq<Flight>,
    discarded: multiset<Conn>)

  const EMPTY_BUCKET := Bucket([], [], 0)

  const INIT := State(false, map[], map[], map[], [], multiset{})

  function BucketAt(s: State, ep: Endpoint): Bucket {
    if ep in s.buckets then s.buckets[ep] else EMPTY_BUCKET
  }

  // ------------------------------------------------------------------
  // Pieces of a region
  // ------------------------------------------------------------------

  /** A bucket springs into being when it is first asked for. */
  function Touch(s: State, ep: Endpoint): State {
    s.(buckets := s.buckets[ep := BucketAt(s, ep)])
  }

  function AddPending(s: State, ep: Endpoint, n: int): State {
    var b := BucketAt(s, ep);
    s.(buckets := s.buckets[ep := b.(pending := b.pending + n)])
  }

  function AtCap(cfg: Options, s: State, ep: Endpoint): bool {
    cfg.maxSessions > 0 && |BucketAt(s, ep).entries| + BucketAt(s, ep).pending >= cfg.maxSessions
  }

  function Expired(cfg: Options, e: Entry, now: int): bool {
    cfg.maxLifetime > 0 && now - e.createdAt >= cfg.maxLifetime
  }

  /** `reusable` holds the sessions that answer true to Reusable() in this region. */
  function Fit(cfg: Options, e: Entry, c: Conn, now: int, reusable: set<Conn>): bool {
    !Expired(cfg, e, now) && c in reusable && (CapPer(cfg) > 0 ==> e.refcount < CapPer(cfg))
  }

  function Lendable(cfg: Options, s: State, c: Conn, now: int, reusable: set<Conn>): bool
    requires c in s.bySess
  {
    Fit(cfg, s.bySess[c], c, now, reusable)
  }

  predicate Takes(cfg: Options, s: State, c: Conn, now: int, skip: set<Conn>, reusable: set<Conn>) {
    c in s.bySess && c !in skip && Lendable(cfg, s, c, now, reusable)
  }

  /** The first entry, in list order, that is not skipped and can be lent. */
  function FirstLendable(cfg: Options, s: State, cs: seq<Conn>,
                         now: int, skip: set<Conn>, reusable: set<Conn>): (r: Option<Conn>)
    ensures r.Some? ==> r.value in s.bySess
  {
    if cs == [] then None
    else if Takes(cfg, s, cs[0], now, skip, reusable) then Some(cs[0])
    else FirstLendable(cfg, s, cs[1..], now, skip, reusable)
  }

  function Lend(s: State, c: Conn): State
    requires c in s.bySess
  {
    var e := s.bySess[c];
    var b := BucketAt(s, e.endpoint);
    s.(bySess := s.bySess[c := e.(refcount := e.refcount + 1, inIdle := false)],
       buckets := s.buckets[e.endpoint := b.(idle := Without(b.idle, {c}))])
  }

  function DropFrom(b: Bucket, gone: set<Conn>): Bucket {
    b.(entries := Without(b.entries, gone), idle := Without(b.idle, gone))
  }

  /** Untrack one session and close it. */
  function Discard(s: State, c: Conn): State
    requires c in s.bySess
  {
    var ep := s.bySess[c].endpoint;
    s.(buckets := if ep in s.buckets then s.buckets[ep := DropFrom(s.buckets[ep], {c})] else s.buckets,
       bySess := s.bySess - {c},
       discarded := s.discarded + multiset{c})
  }

  predicate IsDead(cfg: Options, e: Entry, c: Conn, now: int, reusable: set<Conn>) {
    && e.inIdle && e.refcount <= 0
    && (|| Expired(cfg, e, now)
        || (cfg.idleTimeout > 0 && now - e.idleSince >= cfg.idleTimeout)
        || c !in reusable)
  }

  function Dead(cfg: Options, s: State, now: int, reusable: set<Conn>): set<Conn> {
    set c | c in s.bySess && IsDead(cfg, s.bySess[c], c, now, reusable)
  }

  function DropAll(s: State, gone: set<Conn>): State {
    s.(buckets := map ep | ep in s.buckets :: DropFrom(s.buckets[ep], gone),
       bySess := s.bySess - gone,
       discarded := s.discarded + multiset(gone))
  }

  /** What the walk over all buckets comes to, in whatever order the map yields them:
      the idle sessions past a limit go, nothing else changes. */
  function Reclaim(cfg: Options, s: State, now: int, reusable: set<Conn>): State {
    DropAll(s, Dead(cfg, s, now, reusable))
  }

  // ------------------------------------------------------------------
  // Lock regions of acquire
  // ------------------------------------------------------------------

  datatype Grant = Refused(err: Error) | Lent(conn: Conn) | Join(flight: nat) | Again | Dial(leads: Option<nat>)

  function StartFlight(s: State, ep: Endpoint): State {
    s.(flights := s.flights[ep := |s.log|], log := s.log + [Flight(ep, 0, None)])
  }

  /** Nothing could be lent: wait for the endpoint's dial, give up at the cap, or reserve a dial. */
  function Miss(cfg: Options, s: State, ep: Endpoint): (State, Grant) {
    var t := Touch(s, ep);
    if CapPer(cfg) < 0 && ep in t.flights then (t, Join(t.flights[ep]))
    else if AtCap(cfg, t, ep) then (t, Refused(Exhausted))
    else if CapPer(cfg) < 0 then (AddPending(StartFlight(t, ep), ep, 1), Dial(Some(|t.log|)))
    else (AddPending(t, ep, 1), Dial(None))
  }

  function Look(cfg: Options, s: State, ep: Endpoint, skip: set<Conn>, now: int, reusable: set<Conn>): (State, Grant) {
    match FirstLendable(cfg, s, BucketAt(s, ep).entries, now, skip, reusable)
    case Some(c) => (Lend(s, c), Lent(c))
    case None => Miss(cfg, s, ep)
  }

  /** The region at the top of acquire's loop. */
  function Enter(cfg: Options, s: State, ep: Endpoint, skip: set<Conn>,
                 now1: int, reusable1: set<Conn>, now2: int, reusable2: set<Conn>): (State, Grant)
  {
    if s.closed then (s, Refused(PoolClosed))
    else
      Look(cfg, Reclaim(cfg, s, now1, reusable1), ep, skip, now2, reusable2)
  }

  /** The region a caller enters after the flight it joined landed without an error. */
  function Rejoin(cfg: Options, s: State, ep: Endpoint, skip: set<Conn>, now: int, reusable: set<Conn>): (State, Grant)
  {
    if s.closed then (s, Refused(PoolClosed))
    else
      match FirstLendable(cfg, s, BucketAt(s, ep).entries, now, skip, reusable)
      case Some(c) => (Lend(s, c), Lent(c))
      case None =>
        var t := Touch(s, ep);
        if AtCap(cfg, t, ep) then (t, Refused(Exhausted)) else (t, Again)
  }

  datatype Outcome = Delivered(conn: Conn) | DialFailed(err: Error) | DialPanicked

  /** What the dialer must do next: use the session, report an error, or close the session and report. */
  datatype Landing = Landed(conn: Conn) | Failed(err: Error) | Drop(conn: Conn)

  function LandingOf(closed: bool, o: Outcome): Landing {
    match o
    case Delivered(c) => if closed then Drop(c) else Landed(c)
    case DialFailed(e) => Failed(if closed then PoolClosed else e)
    case DialPanicked => Failed(Panicked)
  }

  function Track(s: State, ep: Endpoint, c: Conn, now: int): State {
    var b := BucketAt(s, ep);
    s.(buckets := s.buckets[ep := b.(entries := b.entries + [c])],
       bySess := s.bySess[c := Entry(ep, 1, now, 0, false)])
  }

  /** Unregister the flight and close its `done`, with the error its joiners will report. */
  function Land(s: State, ep: Endpoint, f: nat, err: Option<Error>): State
    requires f < |s.log|
  {
    s.(flights := s.flights - {ep},
       log := s.log[f := s.log[f].(closes := s.log[f].closes + 1, err := err)])
  }

  function FlightError(l: Landing): Option<Error> {
    match l
    case Landed(_) => None
    case Failed(e) => Some(e)
    case Drop(_) => Some(PoolClosed)
  }

  /** The region after the dial, on every way out of it. */
  function Settle(s: State, ep: Endpoint, leads: Option<nat>, o: Outcome, now: int): (State, Landing)
    requires leads.Some? ==> leads.value < |s.log|
  {
    var l := LandingOf(s.closed, o);
    var t := AddPending(s, ep, -1);
    var u := if l.Landed? then Track(t, ep, l.conn, now) else t;
    (if leads.Some? then Land(u, ep, leads.value, FlightError(l)) else u, l)
  }

  // ------------------------------------------------------------------
  // Other lock regions
  // ------------------------------------------------------------------

  /** The four-state return. */
  function Return(cfg: Options, s: State, c: Conn, now: int, reusable: set<Conn>): State
    requires c in s.bySess
  {
    var e := s.bySess[c];
    if e.refcount > 0 then s
    else if c !in reusable || Expired(cfg, e, now) then Discard(s, c)
    else
      var t := Touch(s, e.endpoint);
      var b := t.buckets[e.endpoint];
      if cfg.maxIdle >= 0 && |b.idle| >= cfg.maxIdle then Discard(t, c)
      else t.(bySess := t.bySess[c := e.(inIdle := true, idleSince := now)],
              buckets := t.buckets[e.endpoint := b.(idle := b.idle + [c])])
  }

  function Release(cfg: Options, s: State, c: Conn, now: int, reusable: set<Conn>): State {
    if c !in s.bySess || s.bySess[c].refcount == 0 then s
    else
      var e := s.bySess[c];
      Return(cfg, s.(bySess := s.bySess[c := e.(refcount := e.refcount - 1)]), c, now, reusable)
  }

  function Tick(cfg: Options, s: State, now: int, reusable: set<Conn>): State {
    if s.closed then s else Reclaim(cfg, s, now, reusable)
  }

  /** Close's region; it answers the sessions to close once the lock is dropped. */
  function Shut(s: State): (State, set<Conn>) {
    if s.closed then (s, {})
    else (s.(closed := true, buckets := map[], bySess := map[]), s.bySess.Keys)
  }

  // ------------------------------------------------------------------
  // Representation invariant
  // ------------------------------------------------------------------

  ghost predicate BucketOk(cfg: Options, s: State, ep: Endpoint)
    requires ep in s.buckets
  {
    var b := s.buckets[ep];
    && NoDup(b.entries) && NoDup(b.idle)
    && (forall c :: c in b.entries ==> c in s.bySess && s.bySess[c].endpoint == ep)
    && (forall c :: c in b.idle <==> c in b.entries && c in s.bySess && s.bySess[c].inIdle)
    && (cfg.maxIdle >= 0 ==> |b.idle| <= cfg.maxIdle)
  }

  ghost predicate Listed(s: State, c: Conn)
    requires c in s.bySess
  {
    s.bySess[c].endpoint in s.buckets && c in s.buckets[s.bySess[c].endpoint].entries
  }

  ghost predicate Counted(e: Entry) {
    e.refcount >= 0 && (e.refcount == 0 <==> e.inIdle)
  }

  /** The session index and the entry lists describe the same sessions without duplicates, the idle
      queue is a duplicate-free part of the entry list holding exactly the entries marked idle,
      a tracked session is idle exactly when nobody leases it, and a closed pool tracks nothing. */
  ghost predicate RepInv(cfg: Options, s: State) {
    && (forall ep {:trigger BucketOk(cfg, s, ep)} :: ep in s.buckets ==> BucketOk(cfg, s, ep))
    && (forall c {:trigger Listed(s, c)} {:trigger Counted(s.bySess[c])} ::
          c in s.bySess ==> Listed(s, c) && Counted(s.bySess[c]))
    && (s.closed ==> s.bySess == map[])
  }

  // ------------------------------------------------------------------
  // What each piece keeps
  // ------------------------------------------------------------------

  lemma DropFromFacts(b: Bucket, gone: set<Conn>)
    requires NoDup(b.entries) && NoDup(b.idle)
    ensures var d := DropFrom(b, gone);
            && NoDup(d.entries) && NoDup(d.idle)
            && (forall c :: c in d.entries <==> c in b.entries && c !in gone)
            && (forall c :: c in d.idle <==> c in b.idle && c !in gone)
            && |d.entries| <= |b.entries| && |d.idle| <= |b.idle|
  {
    WithoutNoDup(b.entries, gone);
    WithoutNoDup(b.idle, gone);
    WithoutMembers(b.entries, gone);
    WithoutMembers(b.idle, gone);
  }

  lemma DropAllKeeps(cfg: Options, s: State, gone: set<Conn>)
    requires RepInv(cfg, s)
    ensures RepInv(cfg, DropAll(s, gone))
    ensures forall ep :: |BucketAt(DropAll(s, gone), ep).entries| <= |BucketAt(s, ep).entries|
  {
    var t := DropAll(s, gone);
    forall ep | ep in s.buckets
      ensures BucketOk(cfg, t, ep)
      ensures |BucketAt(t, ep).entries| <= |BucketAt(s, ep).entries|
    {
      assert BucketOk(cfg, s, ep);
      DropFromFacts(s.buckets[ep], gone);
    }
    forall c | c in t.bySess
      ensures Listed(t, c) && Counted(t.bySess[c])
    {
      assert Listed(s, c);
      var ep := s.bySess[c].endpoint;
      assert BucketOk(cfg, s, ep);
      DropFromFacts(s.buckets[ep], gone);
    }
  }

  lemma LendKeeps(cfg: Options, s: State, c: Conn)
    requires RepInv(cfg, s) && c in s.bySess
    ensures RepInv(cfg, Lend(s, c))
  {
    var t := Lend(s, c);
    var ep := s.bySess[c].endpoint;
    assert Listed(s, c);
    assert BucketOk(cfg, s, ep);
    WithoutNoDup(s.buckets[ep].idle, {c});
    WithoutMembers(s.buckets[ep].idle, {c});
    assert BucketOk(cfg, t, ep);
    forall e | e in t.buckets && e != ep ensures BucketOk(cfg, t, e) {
      assert BucketOk(cfg, s, e);
    }
    forall d | d in t.bySess ensures Listed(t, d) && Counted(t.bySess[d]) {
      assert Listed(s, d) && Counted(s.bySess[d]);
    }
  }

  /** The sessions and every bucket's lists are the same; buckets may have been created. */
  ghost predicate SameLists(s: State, t: State) {
    && t.closed == s.closed && t.bySess == s.bySess
    && s.buckets.Keys <= t.buckets.Keys
    && (forall e :: e in t.buckets ==>
          t.buckets[e].entries == BucketAt(s, e).entries && t.buckets[e].idle == BucketAt(s, e).idle)
  }

  lemma MissSameLists(cfg: Options, s: State, ep: Endpoint)
    ensures SameLists(s, Touch(s, ep)) && SameLists(s, Miss(cfg, s, ep).0)
  {
    var (t, g) := Miss(cfg, s, ep);
    if g.Dial? {
      var u := Touch(s, ep);
      assert t.buckets == AddPending(u, ep, 1).buckets;
    }
  }

  lemma ListsKeep(cfg: Options, s: State, t: State)
    requires RepInv(cfg, s) && SameLists(s, t)
    ensures RepInv(cfg, t)
  {
    forall e | e in t.buckets ensures BucketOk(cfg, t, e) {
      if e in s.buckets {
        assert BucketOk(cfg, s, e);
      }
    }
    forall d | d in t.bySess ensures Listed(t, d) && Counted(t.bySess[d]) {
      assert Listed(s, d) && Counted(s.bySess[d]);
    }
  }

  lemma TrackKeeps(cfg: Options, s: State, ep: Endpoint, c: Conn, now: int)
    requires RepInv(cfg, s) && !s.closed && c !in s.bySess
    ensures RepInv(cfg, Track(s, ep, c, now))
  {
    var t := Track(s, ep, c, now);
    forall e | e in t.buckets && e != ep ensures BucketOk(cfg, t, e) {
      assert BucketOk(cfg, s, e);
    }
    assert ep in s.buckets ==> BucketOk(cfg, s, ep);
    assert t.buckets[ep].idle == BucketAt(s, ep).idle;
    assert BucketOk(cfg, t, ep);
    forall d | d in t.bySess ensures Listed(t, d) && Counted(t.bySess[d]) {
      assert d != c ==> Listed(s, d) && Counted(s.bySess[d]);
    }
  }

  // ------------------------------------------------------------------
  // What each region does
  // ------------------------------------------------------------------

  lemma {:induction false} FirstLendableIs(cfg: Options, s: State, cs: seq<Conn>,
                                           now: int, skip: set<Conn>, reusable: set<Conn>)
    ensures var r := FirstLendable(cfg, s, cs, now, skip, reusable);
            && (r.Some? ==>
                  r.value in cs && r.value in s.bySess && r.value !in skip && Lendable(cfg, s, r.value, now, reusable))
            && (r.None? <==> forall c :: c in cs && c in s.bySess && c !in skip ==> !Lendable(cfg, s, c, now, reusable))
  {
    if cs != [] {
      FirstLendableIs(cfg, s, cs[1..], now, skip, reusable);
      assert cs == [cs[0]] + cs[1..];
    }
  }

  /** The search answers the entry at `i` when that is the first it may take, and none when it may take none. */
  lemma {:induction false} FirstLendableExactly(cfg: Options, s: State, cs: seq<Conn>, i: nat,
                                                now: int, skip: set<Conn>, reusable: set<Conn>)
    requires i <= |cs| && forall j :: 0 <= j < i ==> !Takes(cfg, s, cs[j], now, skip, reusable)
    requires i < |cs| ==> Takes(cfg, s, cs[i], now, skip, reusable)
    ensures FirstLendable(cfg, s, cs, now, skip, reusable) == if i < |cs| then Some(cs[i]) else None
    decreases i
  {
    if i > 0 {
      assert forall j :: 0 <= j < i - 1 ==> cs[1..][j] == cs[j + 1];
      FirstLendableExactly(cfg, s, cs[1..], i - 1, now, skip, reusable);
    }
  }

  /** Sessions that left the index in a region were idle, nobody's, and closed once each. */
  ghost predicate OnlyIdleDiscarded(s: State, t: State) {
    && (forall c :: c in s.bySess && c !in t.bySess ==> s.bySess[c].refcount == 0)
    && (forall c :: t.discarded[c] == s.discarded[c] + (if c in s.bySess && c !in t.bySess then 1 else 0))
  }

  /** The leases of the tracked sessions, where `lent` gained `n`. */
  ghost predicate LeasesMoved(s: State, t: State, lent: Option<Conn>, n: int) {
    && t.bySess.Keys <= s.bySess.Keys
    && (forall c :: c in t.bySess ==>
          t.bySess[c].refcount == s.bySess[c].refcount + (if lent == Some(c) then n else 0))
  }

  ghost predicate PendingMoved(s: State, t: State, ep: Option<Endpoint>, n: int) {
    forall e :: BucketAt(t, e).pending == BucketAt(s, e).pending + (if ep == Some(e) then n else 0)
  }

  ghost predicate EntriesShrink(s: State, t: State) {
    forall e :: |BucketAt(t, e).entries| <= |BucketAt(s, e).entries|
  }

  lemma ReclaimDoes(cfg: Options, s: State, now: int, reusable: set<Conn>)
    requires RepInv(cfg, s)
    ensures var t := Reclaim(cfg, s, now, reusable);
            && RepInv(cfg, t)
            && t.(buckets := s.buckets, bySess := s.bySess, discarded := s.discarded) == s
            && OnlyIdleDiscarded(s, t) && LeasesMoved(s, t, None, 1)
            && PendingMoved(s, t, None, 1) && EntriesShrink(s, t)
  {
    var dead := Dead(cfg, s, now, reusable);
    DropAllKeeps(cfg, s, dead);
    var t := Reclaim(cfg, s, now, reusable);
    forall c | c in dead ensures s.bySess[c].refcount == 0 {
      assert Counted(s.bySess[c]);
    }
  }

  lemma SameKeys(s: State, r: State, t: State)
    requires OnlyIdleDiscarded(s, r)
    requires t.bySess.Keys == r.bySess.Keys && t.discarded == r.discarded
    ensures OnlyIdleDiscarded(s, t)
  {
  }

  lemma NoneGone(s: State)
    ensures OnlyIdleDiscarded(s, s)
  {
  }

  lemma LendDoes(s: State, c: Conn)
    requires c in s.bySess && Listed(s, c)
    ensures var t := Lend(s, c);
            && t.(buckets := s.buckets, bySess := s.bySess) == s
            && t.bySess.Keys == s.bySess.Keys && LeasesMoved(s, t, Some(c), 1)
            && PendingMoved(s, t, None, 1) && EntriesShrink(s, t)
  {
    assert Lend(s, c).bySess.Keys == s.bySess.Keys;
  }

  /** Entering acquire: what is lent, refused, joined or reserved, and what that does to the pool. */
  ghost predicate EnterSpec(cfg: Options, s: State, ep: Endpoint, skip: set<Conn>, t: State, g: Grant) {
    && t.closed == s.closed
    && OnlyIdleDiscarded(s, t)
    && LeasesMoved(s, t, if g.Lent? then Some(g.conn) else None, 1)
    && PendingMoved(s, t, if g.Dial? then Some(ep) else None, 1)
    && EntriesShrink(s, t)
    && (s.closed <==> g == Refused(PoolClosed))
    && (g.Refused? ==> g.err in {PoolClosed, Exhausted})
    && (g.Lent? ==>
          && g.conn in t.bySess && g.conn !in skip && t.bySess[g.conn].endpoint == ep
          && (CapPer(cfg) > 0 ==> t.bySess[g.conn].refcount <= CapPer(cfg)))
    && (g.Dial? ==>
          && (cfg.maxSessions > 0 ==> |BucketAt(t, ep).entries| + BucketAt(t, ep).pending <= cfg.maxSessions)
          && (g.leads.Some? <==> CapPer(cfg) < 0))
    && (g.Join? ==> CapPer(cfg) < 0 && ep in s.flights && g.flight == s.flights[ep])
    && (if g.Dial? && g.leads.Some? then
          && ep !in s.flights
          && g.leads == Some(|s.log|)
          && t.flights == s.flights[ep := |s.log|]
          && t.log == s.log + [Flight(ep, 0, None)]
        else t.flights == s.flights && t.log == s.log)
  }

  lemma LentMeets(cfg: Options, s: State, r: State, ep: Endpoint, skip: set<Conn>,
                  c: Conn, now: int, reusable: set<Conn>)
    requires !s.closed && r.closed == s.closed && r.flights == s.flights && r.log == s.log
    requires OnlyIdleDiscarded(s, r) && LeasesMoved(s, r, None, 1) && PendingMoved(s, r, None, 1) && EntriesShrink(s, r)
    requires c in r.bySess && r.bySess[c].endpoint == ep && Listed(r, c)
    requires c !in skip && Lendable(cfg, r, c, now, reusable)
    ensures EnterSpec(cfg, s, ep, skip, Lend(r, c), Lent(c))
  {
    LendDoes(r, c);
    SameKeys(s, r, Lend(r, c));
  }

  lemma MissMeets(cfg: Options, s: State, r: State, ep: Endpoint, skip: set<Conn>)
    requires !s.closed && r.closed == s.closed && r.flights == s.flights && r.log == s.log
    requires OnlyIdleDiscarded(s, r) && LeasesMoved(s, r, None, 1) && PendingMoved(s, r, None, 1) && EntriesShrink(s, r)
    ensures var (t, g) := Miss(cfg, r, ep);
            EnterSpec(cfg, s, ep, skip, t, g)
  {
    var (t, g) := Miss(cfg, r, ep);
    SameKeys(s, r, t);
    MissMoves(cfg, r, ep);
    assert LeasesMoved(s, t, None, 1);
  }

  lemma PendingMoves(s: State, ep: Endpoint, n: int)
    ensures PendingMoved(s, AddPending(s, ep, n), Some(ep), n) && EntriesShrink(s, AddPending(s, ep, n))
    ensures PendingMoved(s, Touch(s, ep), None, n) && EntriesShrink(s, Touch(s, ep))
  {
  }

  lemma MissMoves(cfg: Options, r: State, ep: Endpoint)
    ensures var (t, g) := Miss(cfg, r, ep);
            PendingMoved(r, t, if g.Dial? then Some(ep) else None, 1) && EntriesShrink(r, t)
  {
    var t := Touch(r, ep);
    PendingMoves(r, ep, 1);
    PendingMoves(t, ep, 1);
    PendingMoves(StartFlight(t, ep), ep, 1);
  }

  lemma InBucket(cfg: Options, s: State, ep: Endpoint, c: Conn)
    requires RepInv(cfg, s) && c in BucketAt(s, ep).entries
    ensures c in s.bySess && s.bySess[c].endpoint == ep && Listed(s, c) && Counted(s.bySess[c])
  {
    assert BucketOk(cfg, s, ep);
  }

  lemma EnterKeeps(cfg: Options, s: State, ep: Endpoint, skip: set<Conn>,
                   now1: int, reusable1: set<Conn>, now2: int, reusable2: set<Conn>)
    requires RepInv(cfg, s)
    ensures RepInv(cfg, Enter(cfg, s, ep, skip, now1, reusable1, now2, reusable2).0)
  {
    if !s.closed {
      var r := Reclaim(cfg, s, now1, reusable1);
      DropAllKeeps(cfg, s, Dead(cfg, s, now1, reusable1));
      LookupKeeps(cfg, r, ep, skip, now2, reusable2);
    }
  }

  lemma LookupKeeps(cfg: Options, r: State, ep: Endpoint, skip: set<Conn>, now: int, reusable: set<Conn>)
    requires RepInv(cfg, r)
    ensures match FirstLendable(cfg, r, BucketAt(r, ep).entries, now, skip, reusable)
            case Some(c) => RepInv(cfg, Lend(r, c))
            case None => RepInv(cfg, Miss(cfg, r, ep).0) && RepInv(cfg, Touch(r, ep))
  {
    match FirstLendable(cfg, r, BucketAt(r, ep).entries, now, skip, reusable)
    case Some(c) => LendKeeps(cfg, r, c);
    case None =>
      MissSameLists(cfg, r, ep);
      ListsKeep(cfg, r, Miss(cfg, r, ep).0);
      ListsKeep(cfg, r, Touch(r, ep));
  }

  lemma EnterDoes(cfg: Options, s: State, ep: Endpoint, skip: set<Conn>,
                  now1: int, reusable1: set<Conn>, now2: int, reusable2: set<Conn>)
    requires RepInv(cfg, s)
    ensures var (t, g) := Enter(cfg, s, ep, skip, now1, reusable1, now2, reusable2);
            EnterSpec(cfg, s, ep, skip, t, g) && g != Again
  {
    if s.closed {
      NoneGone(s);
    } else {
      var r := Reclaim(cfg, s, now1, reusable1);
      ReclaimDoes(cfg, s, now1, reusable1);
      FirstLendableIs(cfg, r, BucketAt(r, ep).entries, now2, skip, reusable2);
      match FirstLendable(cfg, r, BucketAt(r, ep).entries, now2, skip, reusable2)
      case Some(c) =>
        InBucket(cfg, r, ep, c);
        LentMeets(cfg, s, r, ep, skip, c, now2, reusable2);
      case None =>
        MissMeets(cfg, s, r, ep, skip);
    }
  }

  lemma RejoinDoes(cfg: Options, s: State, ep: Endpoint, skip: set<Conn>, now: int, reusable: set<Conn>)
    requires RepInv(cfg, s)
    ensures var (t, g) := Rejoin(cfg, s, ep, skip, now, reusable);
            && EnterSpec(cfg, s, ep, skip, t, g) && !g.Join? && !g.Dial?
            && (g == Again ==> !AtCap(cfg, s, ep))
  {
    NoneGone(s);
    if !s.closed {
      FirstLendableIs(cfg, s, BucketAt(s, ep).entries, now, skip, reusable);
      match FirstLendable(cfg, s, BucketAt(s, ep).entries, now, skip, reusable)
      case Some(c) =>
        InBucket(cfg, s, ep, c);
        LentMeets(cfg, s, s, ep, skip, c, now, reusable);
      case None =>
        SameKeys(s, s, Touch(s, ep));
        PendingMoves(s, ep, 1);
    }
  }

  lemma RejoinKeeps(cfg: Options, s: State, ep: Endpoint, skip: set<Conn>, now: int, reusable: set<Conn>)
    requires RepInv(cfg, s)
    ensures RepInv(cfg, Rejoin(cfg, s, ep, skip, now, reusable).0)
  {
    LookupKeeps(cfg, s, ep, skip, now, reusable);
  }

  /** No tracked session of the endpoint is both unskipped and lendable. */
  ghost predicate NoneLendable(cfg: Options, s: State, ep: Endpoint, skip: set<Conn>, now: int, reusable: set<Conn>) {
    forall c :: c in s.bySess && s.bySess[c].endpoint == ep && c !in skip ==> !Lendable(cfg, s, c, now, reusable)
  }

  lemma SearchFindsNone(cfg: Options, s: State, ep: Endpoint, skip: set<Conn>, now: int, reusable: set<Conn>)
    requires RepInv(cfg, s)
    ensures FirstLendable(cfg, s, BucketAt(s, ep).entries, now, skip, reusable).None?
       <==> NoneLendable(cfg, s, ep, skip, now, reusable)
  {
    FirstLendableIs(cfg, s, BucketAt(s, ep).entries, now, skip, reusable);
    forall c | c in s.bySess ensures s.bySess[c].endpoint == ep <==> c in BucketAt(s, ep).entries {
      assert Listed(s, c);
      if c in BucketAt(s, ep).entries {
        InBucket(cfg, s, ep, c);
      }
    }
  }

  /** The region at the top of acquire answers Exhausted exactly when the endpoint is at its cap, no dial can
      be joined, and, after the reclaim, nothing can be lent. */
  lemma ExhaustedExactly(cfg: Options, s: State, ep: Endpoint, skip: set<Conn>,
                         now1: int, reusable1: set<Conn>, now2: int, reusable2: set<Conn>)
    requires RepInv(cfg, s)
    ensures var (t, g) := Enter(cfg, s, ep, skip, now1, reusable1, now2, reusable2);
            var r := Reclaim(cfg, s, now1, reusable1);
            g == Refused(Exhausted) <==>
              && !s.closed
              && !(CapPer(cfg) < 0 && ep in s.flights)
              && AtCap(cfg, r, ep)
              && NoneLendable(cfg, r, ep, skip, now2, reusable2)
  {
    var r := Reclaim(cfg, s, now1, reusable1);
    ReclaimDoes(cfg, s, now1, reusable1);
    SearchFindsNone(cfg, r, ep, skip, now2, reusable2);
  }

  /** The region after a joined flight landed answers it exactly when the endpoint is at its cap and nothing
      can be lent, whether or not another flight is registered by then. */
  lemma RejoinExhaustedExactly(cfg: Options, s: State, ep: Endpoint, skip: set<Conn>, now: int, reusable: set<Conn>)
    requires RepInv(cfg, s)
    ensures Rejoin(cfg, s, ep, skip, now, reusable).1 == Refused(Exhausted) <==>
              && !s.closed
              && AtCap(cfg, s, ep)
              && NoneLendable(cfg, s, ep, skip, now, reusable)
  {
    SearchFindsNone(cfg, s, ep, skip, now, reusable);
  }

  // ------------------------------------------------------------------
  // Settle, Release, Tick, Shut
  // ------------------------------------------------------------------

  ghost predicate SettleSpec(s: State, ep: Endpoint, leads: Option<nat>, t: State, l: Landing) {
    && t.closed == s.closed
    && t.discarded == s.discarded
    && PendingMoved(s, t, Some(ep), -1)
    && (forall e :: |BucketAt(t, e).entries| == |BucketAt(s, e).entries| + (if e == ep && l.Landed? then 1 else 0))
    && t.bySess.Keys == s.bySess.Keys + (if l.Landed? then {l.conn} else {})
    && (forall c :: c in s.bySess && !(l.Landed? && c == l.conn) ==> t.bySess[c] == s.bySess[c])
    && (l.Landed? ==> t.bySess[l.conn].refcount == 1 && t.bySess[l.conn].endpoint == ep)
    && (if leads.Some? && leads.value < |s.log| then
          && t.flights == s.flights - {ep}
          && var f := s.log[leads.value];
             t.log == s.log[leads.value := f.(closes := f.closes + 1, err := FlightError(l))]
        else t.flights == s.flights && t.log == s.log)
  }

  lemma SettleDoes(s: State, ep: Endpoint, leads: Option<nat>, o: Outcome, now: int)
    requires leads.Some? ==> leads.value < |s.log|
    ensures var (t, l) := Settle(s, ep, leads, o, now);
            SettleSpec(s, ep, leads, t, l)
  {
    PendingMoves(s, ep, -1);
    assert forall e :: BucketAt(AddPending(s, ep, -1), e).entries == BucketAt(s, e).entries;
  }

  lemma SettleKeeps(cfg: Options, s: State, ep: Endpoint, leads: Option<nat>, o: Outcome, now: int)
    requires RepInv(cfg, s)
    requires leads.Some? ==> leads.value < |s.log|
    requires o.Delivered? ==> o.conn !in s.bySess
    ensures RepInv(cfg, Settle(s, ep, leads, o, now).0)
  {
    var l := LandingOf(s.closed, o);
    var t := AddPending(s, ep, -1);
    ListsKeep(cfg, s, t);
    if l.Landed? {
      TrackKeeps(cfg, t, ep, l.conn, now);
    }
    var u := if l.Landed? then Track(t, ep, l.conn, now) else t;
    ListsKeep(cfg, u, Settle(s, ep, leads, o, now).0);
  }

  /** A release by a caller that holds a lease takes exactly that lease back, and closes the session only
      when it was the last one. */
  ghost predicate ReleaseSpec(s: State, c: Conn, t: State) {
    && t.closed == s.closed && t.flights == s.flights && t.log == s.log
    && OnlyLastDiscarded(s, c, t)
    && LeasesMoved(s, t, Some(c), -1)
    && PendingMoved(s, t, None, 1)
    && EntriesShrink(s, t)
  }

  ghost predicate OnlyLastDiscarded(s: State, c: Conn, t: State) {
    && (forall d :: d in s.bySess && d !in t.bySess ==> d == c && s.bySess[d].refcount == 1)
    && (forall d :: t.discarded[d] == s.discarded[d] + (if d in s.bySess && d !in t.bySess then 1 else 0))
  }

  lemma DiscardMoves(s: State, c: Conn)
    requires c in s.bySess && Listed(s, c)
    ensures PendingMoved(s, Discard(s, c), None, 1) && EntriesShrink(s, Discard(s, c))
  {
    var ep := s.bySess[c].endpoint;
    WithoutMembers(s.buckets[ep].entries, {c});
  }

  /** `c` with the new entry `e`, at the end of its idle queue. */
  function Parked(s: State, c: Conn, e: Entry): State {
    var b := BucketAt(s, e.endpoint);
    s.(bySess := s.bySess[c := e], buckets := s.buckets[e.endpoint := b.(idle := b.idle + [c])])
  }

  lemma UpdateTwice<K, V>(m: map<K, V>, k: K, v: V, w: V)
    ensures m[k := v][k := w] == m[k := w]
    ensures m[k := v] - {k} == m - {k}
    ensures k in m ==> m[k := m[k]] == m
  {
  }

  lemma TouchThenAdd(s: State, ep: Endpoint, n: int)
    ensures AddPending(Touch(s, ep), ep, n) == AddPending(s, ep, n)
  {
    var b := BucketAt(s, ep);
    UpdateTwice(s.buckets, ep, b, b.(pending := b.pending + n));
  }

  /** A session whose last lease came back may be kept: reusable, young enough, and its queue has room. */
  predicate Keepable(cfg: Options, s: State, c: Conn, now: int, reusable: set<Conn>)
    requires c in s.bySess
  {
    var e := s.bySess[c];
    && c in reusable && !Expired(cfg, e, now)
    && (cfg.maxIdle >= 0 ==> |BucketAt(s, e.endpoint).idle| < cfg.maxIdle)
  }

  /** A release by a lease holder: while others hold leases one goes; with the last one the session is parked
      when it may be kept and discarded when not. */
  lemma ReleaseIs(cfg: Options, s: State, c: Conn, now: int, reusable: set<Conn>)
    requires c in s.bySess && Listed(s, c) && s.bySess[c].refcount > 0
    ensures var e := s.bySess[c];
            Release(cfg, s, c, now, reusable) ==
              if e.refcount > 1 then s.(bySess := s.bySess[c := e.(refcount := e.refcount - 1)])
              else if Keepable(cfg, s, c, now, reusable) then
                Parked(s, c, e.(refcount := 0, inIdle := true, idleSince := now))
              else Discard(s, c)
  {
    var e := s.bySess[c];
    var d := e.(refcount := e.refcount - 1);
    var u := s.(bySess := s.bySess[c := d]);
    UpdateTwice(s.bySess, c, d, d.(inIdle := true, idleSince := now));
    UpdateTwice(s.buckets, e.endpoint, s.buckets[e.endpoint], s.buckets[e.endpoint]);
    assert Touch(u, e.endpoint) == u;
    assert Discard(u, c) == Discard(s, c);
  }

  lemma ReleaseDoes(cfg: Options, s: State, c: Conn, now: int, reusable: set<Conn>)
    requires c in s.bySess && Listed(s, c) && s.bySess[c].refcount > 0
    ensures ReleaseSpec(s, c, Release(cfg, s, c, now, reusable))
  {
    ReleaseIs(cfg, s, c, now, reusable);
    DiscardMoves(s, c);
  }

  lemma ReleaseKeeps(cfg: Options, s: State, c: Conn, now: int, reusable: set<Conn>)
    requires RepInv(cfg, s)
    ensures RepInv(cfg, Release(cfg, s, c, now, reusable))
  {
    if c in s.bySess && s.bySess[c].refcount != 0 {
      assert Counted(s.bySess[c]) && Listed(s, c);
      var e := s.bySess[c];
      ReleaseIs(cfg, s, c, now, reusable);
      if e.refcount > 1 {
        InfoKeeps(cfg, s, c, e.(refcount := e.refcount - 1));
      } else if Keepable(cfg, s, c, now, reusable) {
        IdleKeeps(cfg, s, c, e.(refcount := 0, inIdle := true, idleSince := now));
      } else {
        DiscardIsDrop(cfg, s, c);
        DropAllKeeps(cfg, s, {c});
      }
    }
  }

  lemma InfoKeeps(cfg: Options, s: State, c: Conn, e: Entry)
    requires RepInv(cfg, s) && c in s.bySess && Counted(e)
    requires e.endpoint == s.bySess[c].endpoint && e.inIdle == s.bySess[c].inIdle
    ensures RepInv(cfg, s.(bySess := s.bySess[c := e]))
  {
    var t := s.(bySess := s.bySess[c := e]);
    forall ep | ep in t.buckets ensures BucketOk(cfg, t, ep) { assert BucketOk(cfg, s, ep); }
    forall d | d in t.bySess ensures Listed(t, d) && Counted(t.bySess[d]) {
      assert Listed(s, d) && Counted(s.bySess[d]);
    }
  }

  lemma IdleKeeps(cfg: Options, s: State, c: Conn, e: Entry)
    requires RepInv(cfg, s) && c in s.bySess && !s.bySess[c].inIdle
    requires e.endpoint == s.bySess[c].endpoint && e.inIdle && e.refcount == 0
    requires cfg.maxIdle >= 0 ==> |BucketAt(s, e.endpoint).idle| < cfg.maxIdle
    ensures RepInv(cfg, Parked(s, c, e))
  {
    var t := Parked(s, c, e);
    var ep := e.endpoint;
    assert Listed(s, c) && BucketOk(cfg, s, ep);
    assert BucketOk(cfg, t, ep);
    forall f | f in t.buckets && f != ep ensures BucketOk(cfg, t, f) { assert BucketOk(cfg, s, f); }
    forall d | d in t.bySess ensures Listed(t, d) && Counted(t.bySess[d]) {
      assert Listed(s, d) && Counted(s.bySess[d]);
    }
  }

  /** Discarding one session is dropping it from everywhere: no other bucket mentions it. */
  lemma DiscardIsDrop(cfg: Options, s: State, c: Conn)
    requires RepInv(cfg, s) && c in s.bySess
    ensures Discard(s, c) == DropAll(s, {c})
  {
    var ep := s.bySess[c].endpoint;
    assert Listed(s, c);
    forall f | f in s.buckets && f != ep ensures DropFrom(s.buckets[f], {c}) == s.buckets[f] {
      assert BucketOk(cfg, s, f);
      WithoutNone(s.buckets[f].entries, {c});
      WithoutNone(s.buckets[f].idle, {c});
    }
    assert Discard(s, c).buckets == DropAll(s, {c}).buckets;
    assert multiset({c}) == multiset{c};
  }

  lemma DropNone(s: State)
    ensures DropAll(s, {}) == s
  {
    forall ep | ep in s.buckets ensures DropFrom(s.buckets[ep], {}) == s.buckets[ep] {
      WithoutNone(s.buckets[ep].entries, {});
      WithoutNone(s.buckets[ep].idle, {});
    }
    assert DropAll(s, {}).buckets == s.buckets;
    assert DropAll(s, {}).bySess == s.bySess;
    assert multiset(var e: set<Conn> := {}; e) == multiset{};
  }

  lemma DropAllTwice(s: State, g: set<Conn>, h: set<Conn>)
    requires g !! h
    ensures DropAll(DropAll(s, g), h) == DropAll(s, g + h)
  {
    var t, u := DropAll(DropAll(s, g), h), DropAll(s, g + h);
    forall ep | ep in s.buckets ensures t.buckets[ep] == u.buckets[ep] {
      WithoutTwice(s.buckets[ep].entries, g, h);
      WithoutTwice(s.buckets[ep].idle, g, h);
    }
    assert t.buckets == u.buckets;
    assert t.bySess == u.bySess;
    assert multiset(g) + multiset(h) == multiset(g + h);
    assert t.discarded == u.discarded;
  }

  // ------------------------------------------------------------------
  // The walk that Reclaim sums up
  // ------------------------------------------------------------------

  function ReclaimStep(cfg: Options, s: State, c: Conn, now: int, reusable: set<Conn>): State {
    if c in s.bySess && IsDead(cfg, s.bySess[c], c, now, reusable) then Discard(s, c) else s
  }

  /** One idle queue, a session at a time. */
  function ReclaimSeq(cfg: Options, s: State, cs: seq<Conn>, now: int, reusable: set<Conn>): State
    decreases |cs|
  {
    if cs == [] then s else ReclaimSeq(cfg, ReclaimStep(cfg, s, cs[0], now, reusable), cs[1..], now, reusable)
  }

  function DeadAmong(cfg: Options, s: State, cs: seq<Conn>, now: int, reusable: set<Conn>): set<Conn> {
    set c | c in cs && c in s.bySess && IsDead(cfg, s.bySess[c], c, now, reusable)
  }

  /** Dropping one dead session first and the rest of the queue's dead ones after it drops them all. */
  lemma DeadHead(cfg: Options, s: State, cs: seq<Conn>, now: int, reusable: set<Conn>)
    requires NoDup(cs) && cs != []
    ensures var c := cs[0];
            var dead := DeadAmong(cfg, s, cs, now, reusable);
            if c in s.bySess && IsDead(cfg, s.bySess[c], c, now, reusable) then
              && DropAll(DropAll(s, {c}), DeadAmong(cfg, DropAll(s, {c}), cs[1..], now, reusable)) == DropAll(s, dead)
            else dead == DeadAmong(cfg, s, cs[1..], now, reusable)
  {
    var c := cs[0];
    var t := DropAll(s, {c});
    var rest := DeadAmong(cfg, t, cs[1..], now, reusable);
    assert cs == [c] + cs[1..];
    assert c !in cs[1..];
    assert rest == DeadAmong(cfg, s, cs[1..], now, reusable);
    if c in s.bySess && IsDead(cfg, s.bySess[c], c, now, reusable) {
      DropAllTwice(s, {c}, rest);
      assert {c} + rest == DeadAmong(cfg, s, cs, now, reusable);
    }
  }

  lemma {:induction false} ReclaimSeqIs(cfg: Options, s: State, cs: seq<Conn>, now: int, reusable: set<Conn>)
    requires RepInv(cfg, s) && NoDup(cs)
    ensures ReclaimSeq(cfg, s, cs, now, reusable) == DropAll(s, DeadAmong(cfg, s, cs, now, reusable))
    decreases |cs|
  {
    if cs == [] {
      DropNone(s);
      assert DeadAmong(cfg, s, cs, now, reusable) == {};
    } else {
      DeadHead(cfg, s, cs, now, reusable);
      if cs[0] in s.bySess {
        DiscardIsDrop(cfg, s, cs[0]);
        DropAllKeeps(cfg, s, {cs[0]});
      }
      ReclaimSeqIs(cfg, ReclaimStep(cfg, s, cs[0], now, reusable), cs[1..], now, reusable);
    }
  }

  /** The dead sessions of the buckets in `eps`. */
  function DeadIn(cfg: Options, s: State, eps: set<Endpoint>, now: int, reusable: set<Conn>): set<Conn> {
    set c | c in Dead(cfg, s, now, reusable) && s.bySess[c].endpoint in eps
  }

  lemma DeadNext(cfg: Options, s: State, eps: set<Endpoint>, ep: Endpoint, now: int, reusable: set<Conn>)
    requires RepInv(cfg, s) && ep in s.buckets && ep !in eps
    requires RepInv(cfg, DropAll(s, DeadIn(cfg, s, eps, now, reusable)))
    ensures var gone := DeadIn(cfg, s, eps, now, reusable);
            var t := DropAll(s, gone);
            var more := DeadAmong(cfg, t, t.buckets[ep].idle, now, reusable);
            gone !! more && gone + more == DeadIn(cfg, s, eps + {ep}, now, reusable)
  {
    var gone := DeadIn(cfg, s, eps, now, reusable);
    var t := DropAll(s, gone);
    assert BucketOk(cfg, t, ep);
    forall c | c in DeadIn(cfg, s, {ep}, now, reusable) ensures c in t.buckets[ep].idle {
      assert c in t.bySess && Listed(t, c);
    }
  }

  /** With the buckets of `eps` walked, walking one more drops exactly its dead sessions. */
  lemma ReclaimNext(cfg: Options, s: State, eps: set<Endpoint>, ep: Endpoint, now: int, reusable: set<Conn>)
    requires RepInv(cfg, s) && ep in s.buckets && ep !in eps
    ensures var t := DropAll(s, DeadIn(cfg, s, eps, now, reusable));
            ReclaimSeq(cfg, t, t.buckets[ep].idle, now, reusable)
              == DropAll(s, DeadIn(cfg, s, eps + {ep}, now, reusable))
  {
    var gone := DeadIn(cfg, s, eps, now, reusable);
    var t := DropAll(s, gone);
    DropAllKeeps(cfg, s, gone);
    DeadNext(cfg, s, eps, ep, now, reusable);
    assert BucketOk(cfg, t, ep);
    ReclaimSeqIs(cfg, t, t.buckets[ep].idle, now, reusable);
    DropAllTwice(s, gone, DeadAmong(cfg, t, t.buckets[ep].idle, now, reusable));
  }

  lemma ReclaimDone(cfg: Options, s: State, now: int, reusable: set<Conn>)
    requires RepInv(cfg, s)
    ensures DropAll(s, DeadIn(cfg, s, {}, now, reusable)) == s
    ensures DropAll(s, DeadIn(cfg, s, s.buckets.Keys, now, reusable)) == Reclaim(cfg, s, now, reusable)
  {
    DropNone(s);
    assert DeadIn(cfg, s, {}, now, reusable) == {};
    forall c | c in Dead(cfg, s, now, reusable) ensures s.bySess[c].endpoint in s.buckets {
      assert Listed(s, c);
    }
    assert DeadIn(cfg, s, s.buckets.Keys, now, reusable) == Dead(cfg, s, now, reusable);
  }

  lemma TickDoes(cfg: Options, s: State, now: int, reusable: set<Conn>)
    requires RepInv(cfg, s)
    ensures var t := Tick(cfg, s, now, reusable);
            && t.closed == s.closed && t.flights == s.flights && t.log == s.log
            && OnlyIdleDiscarded(s, t) && LeasesMoved(s, t, None, 1)
            && PendingMoved(s, t, None, 1) && EntriesShrink(s, t)
  {
    if s.closed { NoneGone(s); } else { ReclaimDoes(cfg, s, now, reusable); }
  }

  /** Whatever a caller or the ticker makes the pool do, an open pool's lists never hold a session past its
      idle bound, and every session it untracked was idle. */
  lemma TickKeeps(cfg: Options, s: State, now: int, reusable: set<Conn>)
    requires RepInv(cfg, s)
    ensures RepInv(cfg, Tick(cfg, s, now, reusable))
  {
    DropAllKeeps(cfg, s, Dead(cfg, s, now, reusable));
  }

  lemma ShutKeeps(cfg: Options, s: State)
    requires RepInv(cfg, s)
    ensures RepInv(cfg, Shut(s).0)
  {
  }

  /** Close hands out for closing every tracked session and tracks none from then on; a second Close has
      nothing to hand out and changes nothing. */
  lemma ShutHandsOutAll(cfg: Options, s: State)
    requires RepInv(cfg, s)
    ensures var (t, cs) := Shut(s);
            && cs == s.bySess.Keys && t.bySess == map[] && t.closed
            && t.flights == s.flights && t.log == s.log && t.discarded == s.discarded
            && Shut(t) == (t, {})
  {
  }

  // ------------------------------------------------------------------
  // Exactly which sessions go, stay and are lent
  // ------------------------------------------------------------------

  /** A reclaim takes a session away exactly when nobody leases it and it is too old, idle for too long or
      no longer reusable; what stays is as it was. */
  lemma ReclaimExactly(cfg: Options, s: State, now: int, reusable: set<Conn>, c: Conn)
    requires RepInv(cfg, s) && c in s.bySess
    ensures var t := Reclaim(cfg, s, now, reusable);
            var e := s.bySess[c];
            && (c !in t.bySess <==>
                  && e.refcount == 0
                  && (|| (cfg.maxLifetime > 0 && now - e.createdAt >= cfg.maxLifetime)
                      || (cfg.idleTimeout > 0 && now - e.idleSince >= cfg.idleTimeout)
                      || c !in reusable))
            && (c in t.bySess ==> t.bySess[c] == e)
  {
    assert Counted(s.bySess[c]);
  }

  /** The last release keeps a session, idle from now on and last in its queue, exactly when it is reusable,
      young enough and the queue has room. */
  lemma LastReleaseExactly(cfg: Options, s: State, c: Conn, now: int, reusable: set<Conn>)
    requires RepInv(cfg, s) && c in s.bySess && s.bySess[c].refcount == 1
    ensures var t := Release(cfg, s, c, now, reusable);
            var e := s.bySess[c];
            && (c in t.bySess <==> Keepable(cfg, s, c, now, reusable))
            && (c in t.bySess ==>
                  && t.bySess[c] == e.(refcount := 0, inIdle := true, idleSince := now)
                  && BucketAt(t, e.endpoint).idle == BucketAt(s, e.endpoint).idle + [c])
            && BucketAt(t, e.endpoint).entries ==
               if c in t.bySess then BucketAt(s, e.endpoint).entries
               else Without(BucketAt(s, e.endpoint).entries, {c})
  {
    assert Listed(s, c);
  }

  /** What is lent says it is reusable, is within its lifetime, and carries one call more than before. */
  lemma LentIsFit(cfg: Options, s: State, ep: Endpoint, skip: set<Conn>,
                  now1: int, reusable1: set<Conn>, now2: int, reusable2: set<Conn>)
    requires RepInv(cfg, s)
    ensures var (t, g) := Enter(cfg, s, ep, skip, now1, reusable1, now2, reusable2);
            g.Lent? ==>
              && g.conn in s.bySess && g.conn in reusable2
              && t.bySess.Keys == Reclaim(cfg, s, now1, reusable1).bySess.Keys
              && !Expired(cfg, s.bySess[g.conn], now2)
              && t.bySess[g.conn] == s.bySess[g.conn].(refcount := s.bySess[g.conn].refcount + 1, inIdle := false)
              && g.conn !in BucketAt(t, ep).idle
  {
    var r := Reclaim(cfg, s, now1, reusable1);
    ReclaimDoes(cfg, s, now1, reusable1);
    var found := FirstLendable(cfg, r, BucketAt(r, ep).entries, now2, skip, reusable2);
    FirstLendableIs(cfg, r, BucketAt(r, ep).entries, now2, skip, reusable2);
    if !s.closed && found.Some? {
      ReclaimExactly(cfg, s, now1, reusable1, found.value);
      InBucket(cfg, r, ep, found.value);
      WithoutMembers(BucketAt(r, ep).idle, {found.value});
    }
  }

  /** A session that landed is tracked from now on, leased once, last among its endpoint's entries. */
  lemma LandedIsTracked(s: State, ep: Endpoint, leads: Option<nat>, c: Conn, now: int)
    requires (leads.Some? ==> leads.value < |s.log|) && !s.closed
    ensures var (t, l) := Settle(s, ep, leads, Delivered(c), now);
            && l == Landed(c)
            && t.bySess == s.bySess[c := Entry(ep, 1, now, 0, false)]
            && BucketAt(t, ep).entries == BucketAt(s, ep).entries + [c]
            && BucketAt(t, ep).idle == BucketAt(s, ep).idle
            && BucketAt(t, ep).pending == BucketAt(s, ep).pending - 1
            && (forall e :: e != ep ==> BucketAt(t, e) == BucketAt(s, e))
  {
  }

  /** A session's life, over three regions: dialed at `t0`, given back at `t1`, looked at by a reclaim at `t2`.
      Its lifetime runs from the dial and its idle time from the release. */
  lemma AgesFromLanding(cfg: Options, s: State, ep: Endpoint, leads: Option<nat>, c: Conn,
                        t0: int, t1: int, reusable1: set<Conn>, t2: int, reusable2: set<Conn>)
    requires RepInv(cfg, s) && !s.closed && c !in s.bySess && (leads.Some? ==> leads.value < |s.log|)
    ensures var landed := Settle(s, ep, leads, Delivered(c), t0).0;
            var returned := Release(cfg, landed, c, t1, reusable1);
            var left := Reclaim(cfg, returned, t2, reusable2);
            && c in landed.bySess
            && (c in returned.bySess <==>
                  && c in reusable1
                  && (cfg.maxLifetime > 0 ==> t1 - t0 < cfg.maxLifetime)
                  && (cfg.maxIdle >= 0 ==> |BucketAt(s, ep).idle| < cfg.maxIdle))
            && (c in left.bySess <==>
                  && c in returned.bySess && c in reusable2
                  && (cfg.maxLifetime > 0 ==> t2 - t0 < cfg.maxLifetime)
                  && (cfg.idleTimeout > 0 ==> t2 - t1 < cfg.idleTimeout))
  {
    var landed := Settle(s, ep, leads, Delivered(c), t0).0;
    LandedIsTracked(s, ep, leads, c, t0);
    SettleKeeps(cfg, s, ep, leads, Delivered(c), t0);
    LastReleaseExactly(cfg, landed, c, t1, reusable1);
    ReleaseKeeps(cfg, landed, c, t1, reusable1);
    var returned := Release(cfg, landed, c, t1, reusable1);
    if c in returned.bySess {
      ReclaimExactly(cfg, returned, t2, reusable2, c);
    }
  }

  // ------------------------------------------------------------------
  // What acquire answers, and when
  // ------------------------------------------------------------------

  /** One more call may go on a session: it says it is reusable, is within its lifetime, and carries fewer calls
      than one connection may; a negative MaxCallsPerConn is no limit, and zero means one. */
  ghost predicate TakesCall(cfg: Options, e: Entry, c: Conn, now: int, reusable: set<Conn>) {
    && c in reusable
    && (cfg.maxLifetime > 0 ==> now - e.createdAt < cfg.maxLifetime)
    && (cfg.maxCalls < 0 || e.refcount < 1 || e.refcount < cfg.maxCalls)
  }

  /** `c` may be lent to a caller that skips `skip`. */
  ghost predicate Offered(cfg: Options, s: State, c: Conn, skip: set<Conn>, now: int, reusable: set<Conn>) {
    c in s.bySess && c !in skip && TakesCall(cfg, s.bySess[c], c, now, reusable)
  }

  /** Some session of the endpoint may be lent. */
  ghost predicate Offers(cfg: Options, s: State, ep: Endpoint, skip: set<Conn>, now: int, reusable: set<Conn>) {
    exists c :: Offered(cfg, s, c, skip, now, reusable) && s.bySess[c].endpoint == ep
  }

  /** `c` is the first of the endpoint's entries that may be lent. */
  ghost predicate FirstOffered(cfg: Options, s: State, ep: Endpoint, c: Conn,
                               skip: set<Conn>, now: int, reusable: set<Conn>) {
    var cs := BucketAt(s, ep).entries;
    exists i :: 0 <= i < |cs| && cs[i] == c && Offered(cfg, s, c, skip, now, reusable)
                && forall j :: 0 <= j < i ==> !Offered(cfg, s, cs[j], skip, now, reusable)
  }

  /** MaxSessionsPerEndpoint leaves room for another session; it is no limit unless positive. */
  ghost predicate HasRoom(cfg: Options, s: State, ep: Endpoint) {
    cfg.maxSessions <= 0 || |BucketAt(s, ep).entries| + BucketAt(s, ep).pending < cfg.maxSessions
  }

  lemma TakesIsOffered(cfg: Options, s: State, c: Conn, skip: set<Conn>, now: int, reusable: set<Conn>)
    ensures Takes(cfg, s, c, now, skip, reusable) <==> Offered(cfg, s, c, skip, now, reusable)
  {
  }

  lemma SearchFindsFirst(cfg: Options, s: State, ep: Endpoint, skip: set<Conn>, now: int, reusable: set<Conn>)
    requires RepInv(cfg, s)
    ensures var found := FirstLendable(cfg, s, BucketAt(s, ep).entries, now, skip, reusable);
            && (found.Some? <==> Offers(cfg, s, ep, skip, now, reusable))
            && (found.Some? ==> FirstOffered(cfg, s, ep, found.value, skip, now, reusable))
  {
    var cs := BucketAt(s, ep).entries;
    var i := FirstTaken(cfg, s, cs, skip, now, reusable);
    FirstLendableExactly(cfg, s, cs, i, now, skip, reusable);
    forall c ensures Takes(cfg, s, c, now, skip, reusable) <==> Offered(cfg, s, c, skip, now, reusable) {
      TakesIsOffered(cfg, s, c, skip, now, reusable);
    }
    SearchFindsNone(cfg, s, ep, skip, now, reusable);
    if i < |cs| {
      InBucket(cfg, s, ep, cs[i]);
    }
  }

  lemma {:induction false} FirstTaken(cfg: Options, s: State, cs: seq<Conn>,
                                      skip: set<Conn>, now: int, reusable: set<Conn>) returns (i: nat)
    ensures i <= |cs| && forall j :: 0 <= j < i ==> !Takes(cfg, s, cs[j], now, skip, reusable)
    ensures i < |cs| ==> Takes(cfg, s, cs[i], now, skip, reusable)
  {
    if cs == [] || Takes(cfg, s, cs[0], now, skip, reusable) {
      i := 0;
    } else {
      var k := FirstTaken(cfg, s, cs[1..], skip, now, reusable);
      i := k + 1;
      assert forall j :: 0 < j < i ==> cs[j] == cs[1..][j - 1];
    }
  }

  /** New's comment gives one call to a connection for every MaxCallsPerConn of zero or less but -1.  One it is
      exactly for zero and one: every negative number is no limit. */
  lemma OneCallExactly(cfg: Options)
    ensures (forall e: Entry, c: Conn, now: int, reusable: set<Conn> ::
               TakesCall(cfg, e, c, now, reusable) ==> e.refcount < 1)
       <==> 0 <= cfg.maxCalls <= 1
  {
    assert TakesCall(cfg, Entry(Endpoint(""), 1, 0, 0, false), 7, 0, {7}) <==> cfg.maxCalls < 0 || cfg.maxCalls > 1;
  }

  const MINUS_TWO := Options(0, 0, 0, 0, -2)

  lemma MinusTwoShares(ep: Endpoint)
    ensures var s := INIT.(buckets := map[ep := Bucket([7], [], 0)], bySess := map[7 := Entry(ep, 1, 0, 0, false)]);
            && RepInv(MINUS_TWO, s)
            && Enter(MINUS_TWO, s, ep, {}, 0, {7}, 0, {7}).1 == Lent(7)
  {
    var s := INIT.(buckets := map[ep := Bucket([7], [], 0)], bySess := map[7 := Entry(ep, 1, 0, 0, false)]);
    assert Listed(s, 7);
    ReclaimExactly(MINUS_TWO, s, 0, {7}, 7);
    EnterAnswers(MINUS_TWO, s, ep, {}, 0, {7}, 0, {7});
    var r := Reclaim(MINUS_TWO, s, 0, {7});
    assert Offered(MINUS_TWO, r, 7, {}, 0, {7});
    var (t, g) := Enter(MINUS_TWO, s, ep, {}, 0, {7}, 0, {7});
    ReclaimDoes(MINUS_TWO, s, 0, {7});
  }

  /** What acquire answers, of an open pool, once the reclaim has been: it lends whenever a session is on offer,
      and then the first; else, on a pool that shares connections, it joins the endpoint's dial when there is
      one; else it dials when there is room, and gives up when there is none. */
  lemma EnterAnswers(cfg: Options, s: State, ep: Endpoint, skip: set<Conn>,
                     now1: int, reusable1: set<Conn>, now2: int, reusable2: set<Conn>)
    requires RepInv(cfg, s) && !s.closed
    ensures var (t, g) := Enter(cfg, s, ep, skip, now1, reusable1, now2, reusable2);
            var r := Reclaim(cfg, s, now1, reusable1);
            var offer := Offers(cfg, r, ep, skip, now2, reusable2);
            var shared := cfg.maxCalls < 0 && ep in s.flights;
            && t.bySess.Keys == r.bySess.Keys
            && (g.Lent? <==> offer)
            && (g.Lent? ==> FirstOffered(cfg, r, ep, g.conn, skip, now2, reusable2))
            && (g.Join? <==> !offer && shared)
            && (g.Join? ==> g.flight == s.flights[ep])
            && (g.Dial? <==> !offer && !shared && HasRoom(cfg, r, ep))
            && (g.Dial? ==> (g.leads.Some? <==> cfg.maxCalls < 0))
            && (g == Refused(Exhausted) <==> !offer && !shared && !HasRoom(cfg, r, ep))
  {
    var r := Reclaim(cfg, s, now1, reusable1);
    ReclaimDoes(cfg, s, now1, reusable1);
    SearchFindsFirst(cfg, r, ep, skip, now2, reusable2);
  }

  /** After a flight it joined, the caller lends in the same way; else it starts over when there is room, and
      gives up when there is none. */
  lemma RejoinAnswers(cfg: Options, s: State, ep: Endpoint, skip: set<Conn>, now: int, reusable: set<Conn>)
    requires RepInv(cfg, s) && !s.closed
    ensures var (t, g) := Rejoin(cfg, s, ep, skip, now, reusable);
            var offer := Offers(cfg, s, ep, skip, now, reusable);
            && t.bySess.Keys == s.bySess.Keys
            && (g.Lent? <==> offer)
            && (g.Lent? ==> FirstOffered(cfg, s, ep, g.conn, skip, now, reusable))
            && (g == Again <==> !offer && HasRoom(cfg, s, ep))
            && (g == Refused(Exhausted) <==> !offer && !HasRoom(cfg, s, ep))
  {
    SearchFindsFirst(cfg, s, ep, skip, now, reusable);
  }

  // ------------------------------------------------------------------
  // What a dial comes to
  // ------------------------------------------------------------------

  /** What the dialer goes on with, and what those that share the dial will be told: the session when it came
      and the pool is open; else the pool's being closed, the dial's own error, or the panic, which is
      reported as such even of a closed pool. */
  lemma SettleTells(s: State, ep: Endpoint, leads: Option<nat>, o: Outcome, now: int)
    requires leads.Some? ==> leads.value < |s.log|
    ensures var (t, l) := Settle(s, ep, leads, o, now);
            && (o.Delivered? ==> l == if s.closed then Drop(o.conn) else Landed(o.conn))
            && (o.DialFailed? ==> l == Failed(if s.closed then PoolClosed else o.err))
            && (o.DialPanicked? ==> l == Failed(Panicked))
            && (leads.Some? ==>
                  && |t.log| == |s.log| && t.log[leads.value].closes == s.log[leads.value].closes + 1
                  && var told := t.log[leads.value].err;
                  && (told == None <==> o.Delivered? && !s.closed)
                  && (s.closed && !o.DialPanicked? ==> told == Some(PoolClosed))
                  && (!s.closed && o.DialFailed? ==> told == Some(o.err))
                  && (o.DialPanicked? ==> told == Some(Panicked)))
  {
  }

  // ------------------------------------------------------------------
  // What the ticker does
  // ------------------------------------------------------------------

  /** On an open pool a tick takes away exactly the sessions that nobody leases and that are too old, idle for
      too long or no longer reusable. */
  lemma TickExactly(cfg: Options, s: State, now: int, reusable: set<Conn>, c: Conn)
    requires RepInv(cfg, s) && c in s.bySess
    ensures var t := Tick(cfg, s, now, reusable);
            var e := s.bySess[c];
            && (c !in t.bySess <==>
                  && e.refcount == 0
                  && (|| (cfg.maxLifetime > 0 && now - e.createdAt >= cfg.maxLifetime)
                      || (cfg.idleTimeout > 0 && now - e.idleSince >= cfg.idleTimeout)
                      || c !in reusable))
            && (c in t.bySess ==> t.bySess[c] == e)
  {
    ReclaimExactly(cfg, s, now, reusable, c);
  }
}

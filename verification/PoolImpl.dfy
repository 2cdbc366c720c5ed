/** The pool as `internal/sessionpool/pool.go` keeps it: entry and bucket records shared by reference and
    updated in place. Every method is one lock region, or a helper called inside one, and does to the
    heap exactly what the function of the same name in `PoolSpec` does to the value `View()`. */
module PoolImpl {
  import opened Seqs
  import opened PoolSpec

  /** `conn` remembers which session the record was made for; `sess` is what the record still holds. */
  class EntryObj {
    ghost const conn: Conn
    const endpoint: Endpoint
    const createdAt: int
    var sess: Option<Conn>
    var refcount: int
    var idleSince: int
    var inIdle: bool

    constructor (endpoint: Endpoint, c: Conn, now: int)
      ensures this.endpoint == endpoint && this.conn == c && createdAt == now
      ensures sess == Some(c) && refcount == 0 && idleSince == 0 && !inIdle
    {
      this.conn := c;
      this.endpoint := endpoint;
      this.createdAt := now;
      this.sess, this.refcount, this.idleSince, this.inIdle := Some(c), 0, 0, false;
    }

    ghost function View(): Entry
      reads this
    {
      Entry(endpoint, refcount, createdAt, idleSince, inIdle)
    }
  }

  ghost function Conns(q: seq<EntryObj>): seq<Conn> {
    seq(|q|, i requires 0 <= i < |q| => q[i].conn)
  }

  class BucketObj {
    ghost const key: Endpoint
    var entries: seq<EntryObj>
    var idle: seq<EntryObj>
    var pendingDial: int

    constructor (ghost key: Endpoint)
      ensures this.key == key && entries == [] && idle == [] && pendingDial == 0
    {
      this.key := key;
      entries, idle, pendingDial := [], [], 0;
    }

    ghost function View(): Bucket
      reads this
    {
      Bucket(Conns(entries), Conns(idle), pendingDial)
    }
  }

  /** What a caller leaves a lock region of acquire with. */
  datatype Granted =
    | GRefused(err: Error)
    | GLent(conn: Conn)
    | GJoin(flight: FlightObj)
    | GAgain
    | GDial(leads: FlightObj?)
  {
    ghost function View(): Grant {
      match this
      case GRefused(e) => Refused(e)
      case GLent(c) => Lent(c)
      case GJoin(f) => Join(f.id)
      case GAgain => Again
      case GDial(f) => Dial(if f == null then None else Some(f.id))
    }
  }

  class FlightObj {
    ghost const id: nat
    const endpoint: Endpoint
    var closes: nat
    var err: Option<Error>

    constructor (ghost id: nat, endpoint: Endpoint)
      ensures this.id == id && this.endpoint == endpoint && closes == 0 && err == None
    {
      this.id := id;
      this.endpoint := endpoint;
      closes, err := 0, None;
    }

    ghost function View(): Flight
      reads this
    {
      Flight(endpoint, closes, err)
    }
  }

  ghost predicate Distinct(q: seq<EntryObj>) {
    forall i, j :: 0 <= i < j < |q| ==> q[i].conn != q[j].conn
  }

  lemma ConnsDistinct(q: seq<EntryObj>)
    requires NoDup(Conns(q))
    ensures Distinct(q)
  {
    forall i, j | 0 <= i < j < |q| ensures q[i].conn != q[j].conn {
      assert Conns(q)[i] != Conns(q)[j];
    }
  }

  ghost function Views(fs: seq<FlightObj>): seq<Flight>
    reads fs
  {
    seq(|fs|, i requires 0 <= i < |fs| reads fs => fs[i].View())
  }

  /** The first occurrence of `e` taken out of `q`. */
  method CutFirst(q: seq<EntryObj>, e: EntryObj) returns (r: seq<EntryObj>)
    requires NoDup(Conns(q))
    requires forall x :: x in q && x.conn == e.conn ==> x == e
    ensures Conns(r) == Without(Conns(q), {e.conn})
    ensures forall x :: x in r <==> x in q && x != e
  {
    var i := 0;
    while i < |q| && q[i] != e
      invariant 0 <= i <= |q|
      invariant forall j :: 0 <= j < i ==> q[j] != e
    {
      i := i + 1;
    }
    if i < |q| {
      r := q[..i] + q[i + 1..];
      WithoutOne(Conns(q), i);
      assert Conns(q)[i] == e.conn;
      assert Conns(r) == Conns(q)[..i] + Conns(q)[i + 1..];
      forall x | x in r ensures x in q && x != e {
        var k :| 0 <= k < |r| && r[k] == x;
        assert Conns(q)[if k < i then k else k + 1] == x.conn;
      }
      assert q == q[..i] + [q[i]] + q[i + 1..];
    } else {
      r := q;
      forall c | c in Conns(q) ensures c !in {e.conn} {
        var k :| 0 <= k < |q| && Conns(q)[k] == c;
        assert q[k] in q;
      }
      WithoutNone(Conns(q), {e.conn});
    }
  }

  lemma NextLendable(cfg: Options, s: State, cs: seq<Conn>, i: nat, now: int, skip: set<Conn>, reusable: set<Conn>)
    requires i < |cs|
    ensures FirstLendable(cfg, s, cs[i..], now, skip, reusable)
         == if Takes(cfg, s, cs[i], now, skip, reusable) then Some(cs[i])
            else FirstLendable(cfg, s, cs[i + 1..], now, skip, reusable)
  {
    assert cs[i..][0] == cs[i] && cs[i..][1..] == cs[i + 1..];
  }

  lemma NextReclaim(cfg: Options, s: State, cs: seq<Conn>, k: nat, now: int, reusable: set<Conn>)
    requires k < |cs|
    ensures ReclaimSeq(cfg, s, cs[k..], now, reusable)
         == ReclaimSeq(cfg, ReclaimStep(cfg, s, cs[k], now, reusable), cs[k + 1..], now, reusable)
  {
    assert cs[k..][0] == cs[k] && cs[k..][1..] == cs[k + 1..];
  }

  lemma MoveOne<T>(todo: set<T>, done: set<T>, x: T)
    requires x in todo && todo !! done
    ensures (todo - {x}) + (done + {x}) == todo + done && (todo - {x}) !! (done + {x})
  {
  }

  class Pool {
    const cfg: Options
    const capPer: int
    var closed: bool
    var buckets: map<Endpoint, BucketObj>
    var bySess: map<Conn, EntryObj>
    var flights: map<Endpoint, FlightObj>
    ghost var started: seq<FlightObj>
    ghost var discarded: multiset<Conn>

    /** The records a region may touch. */
    ghost function Repr(): set<object>
      reads this
    {
      {this} + buckets.Values + bySess.Values + (set f | f in started)
    }

    ghost predicate ListsShape(ep: Endpoint)
      requires ep in buckets
      reads this, Repr()
    {
      var b := buckets[ep];
      && b.key == ep
      && NoDup(Conns(b.entries)) && NoDup(Conns(b.idle))
      && (forall e :: e in b.entries ==> e.conn in bySess && bySess[e.conn] == e && e.endpoint == ep)
      && (forall e :: e in b.idle ==> e in b.entries && e.inIdle)
    }

    ghost predicate IndexShape(c: Conn)
      requires c in bySess
      reads this, Repr()
    {
      var e := bySess[c];
      && e.conn == c && e.sess == Some(c)
      && (e.inIdle ==> e.endpoint in buckets && e in buckets[e.endpoint].idle)
    }

    /** How the records hang together; every helper keeps it. */
    ghost predicate Shape()
      reads this, Repr()
    {
      && capPer == CapPer(cfg)
      && (forall ep :: ep in buckets ==> ListsShape(ep))
      && (forall c :: c in bySess ==> IndexShape(c))
      && (forall i :: 0 <= i < |started| ==> started[i].id == i)
      && (forall ep :: ep in flights ==> flights[ep] in started)
    }

    ghost function BucketsView(): map<Endpoint, Bucket>
      reads `buckets, buckets.Values
    {
      map ep | ep in buckets :: buckets[ep].View()
    }

    ghost function SessView(): map<Conn, Entry>
      reads `bySess, bySess.Values
    {
      map c | c in bySess :: bySess[c].View()
    }

    ghost function FlightsView(): map<Endpoint, nat>
      reads `flights
    {
      map ep | ep in flights :: flights[ep].id
    }

    ghost function LogView(): seq<Flight>
      reads `started, started
    {
      Views(started)
    }

    ghost function View(): State
      reads this, Repr()
    {
      State(closed, BucketsView(), SessView(), FlightsView(), LogView(), discarded)
    }

    ghost predicate Valid()
      reads this, Repr()
    {
      Shape() && RepInv(cfg, View())
    }

    constructor (cfg: Options)
      ensures Valid() && View() == INIT && this.cfg == cfg
      ensures fresh(Repr())
    {
      this.cfg := cfg;
      this.capPer := if cfg.maxCalls < 0 then -1 else if cfg.maxCalls > 1 then cfg.maxCalls else 1;
      closed, buckets, bySess, flights := false, map[], map[], map[];
      started, discarded := [], multiset{};
      new;
      assert BucketsView() == map[] && SessView() == map[] && FlightsView() == map[] && LogView() == [];
    }

    // ------------------------------------------------------------------
    // Helpers
    // ------------------------------------------------------------------

    /** Only the bucket of `ep` changed. */
    twostate lemma OneBucket(ep: Endpoint)
      requires buckets == old(buckets)
      requires forall f :: f in buckets && f != ep ==> unchanged(buckets[f])
      ensures BucketsView() ==
              if ep in buckets then old(BucketsView())[ep := buckets[ep].View()] else old(BucketsView())
    {
      forall f | f in buckets && f != ep ensures BucketsView()[f] == old(BucketsView()[f]) {
        assert unchanged(buckets[f]);
      }
    }

    /** An empty bucket joined, and nothing else changed. */
    twostate predicate BucketJoined(ep: Endpoint, new b: BucketObj)
      reads this, Repr(), b
    {
      && ep !in old(buckets) && buckets == old(buckets)[ep := b] && b.key == ep && b.View() == EMPTY_BUCKET
      && unchanged(`bySess) && unchanged(`flights) && unchanged(`started) && unchanged(`closed) && unchanged(`discarded)
      && (forall f :: f in buckets && f != ep ==> unchanged(buckets[f]))
      && (forall c :: c in bySess ==> unchanged(bySess[c]))
      && (forall i :: 0 <= i < |started| ==> unchanged(started[i]))
    }

    twostate lemma BucketJoinedShape(ep: Endpoint, new b: BucketObj)
      requires old(Shape()) && BucketJoined(ep, b)
      ensures Shape()
    {
      forall e | e in buckets ensures ListsShape(e) {
        assert e != ep ==> old(ListsShape(e));
      }
      forall c | c in bySess ensures IndexShape(c) {
        assert old(IndexShape(c));
      }
    }

    twostate lemma BucketJoinedView(ep: Endpoint, new b: BucketObj)
      requires old(Shape()) && BucketJoined(ep, b)
      ensures View() == Touch(old(View()), ep)
    {
      assert SessView() == old(SessView()) && LogView() == old(LogView());
      assert BucketsView() == old(BucketsView())[ep := EMPTY_BUCKET];
    }

    /** bucketLocked */
    method BucketLocked(ep: Endpoint) returns (b: BucketObj)
      requires Shape()
      modifies this`buckets
      ensures Shape() && View() == Touch(old(View()), ep)
      ensures ep in buckets && buckets[ep] == b && buckets == old(buckets)[ep := b]
      ensures if ep in old(buckets) then b == old(buckets)[ep] else fresh(b) && b.View() == EMPTY_BUCKET
    {
      if ep in buckets {
        b := buckets[ep];
        assert buckets == buckets[ep := b] && View() == Touch(View(), ep);
      } else {
        b := new BucketObj(ep);
        buckets := buckets[ep := b];
        BucketJoinedShape(ep, b);
        BucketJoinedView(ep, b);
      }
    }

    /** Nothing the lists or the index say has changed. */
    twostate lemma ListsKept()
      requires old(Shape()) && buckets == old(buckets) && bySess == old(bySess)
      requires forall f :: f in buckets ==>
                 buckets[f].entries == old(buckets[f].entries) && buckets[f].idle == old(buckets[f].idle)
      requires forall c :: c in bySess ==> unchanged(bySess[c])
      ensures forall f :: f in buckets ==> ListsShape(f)
      ensures forall d :: d in bySess ==> IndexShape(d)
    {
      forall f | f in buckets ensures ListsShape(f) {
        assert old(ListsShape(f));
      }
      forall d | d in bySess ensures IndexShape(d) {
        assert old(IndexShape(d));
      }
    }

    /** removeIdleLocked */
    method RemoveIdle(b: BucketObj, e: EntryObj)
      requires NoDup(Conns(b.idle))
      requires forall x :: x in b.idle && x.conn == e.conn ==> x == e
      requires e.inIdle <==> e in b.idle
      modifies b`idle, e`inIdle
      ensures !e.inIdle
      ensures Conns(b.idle) == Without(old(Conns(b.idle)), {e.conn})
      ensures forall x :: x in b.idle <==> x in old(b.idle) && x != e
    {
      if !e.inIdle {
        forall c | c in Conns(b.idle) ensures c !in {e.conn} {
          var k :| 0 <= k < |b.idle| && Conns(b.idle)[k] == c;
          assert b.idle[k] in b.idle;
        }
        WithoutNone(Conns(b.idle), {e.conn});
        return;
      }
      e.inIdle := false;
      b.idle := CutFirst(b.idle, e);
    }

    ghost predicate Tracked(e: EntryObj)
      reads this, Repr()
    {
      e.conn in bySess && bySess[e.conn] == e
    }

    /** The list half of discardLocked. */
    method Unlist(b: BucketObj, e: EntryObj)
      requires NoDup(Conns(b.idle)) && NoDup(Conns(b.entries))
      requires forall x :: (x in b.idle || x in b.entries) && x.conn == e.conn ==> x == e
      requires e.inIdle <==> e in b.idle
      modifies b`idle, b`entries, e`inIdle
      ensures !e.inIdle
      ensures b.View() == DropFrom(old(b.View()), {e.conn})
      ensures NoDup(Conns(b.idle)) && NoDup(Conns(b.entries))
      ensures forall x :: x in b.idle <==> x in old(b.idle) && x != e
      ensures forall x :: x in b.entries <==> x in old(b.entries) && x != e
    {
      RemoveIdle(b, e);
      b.entries := CutFirst(b.entries, e);
      WithoutNoDup(old(Conns(b.entries)), {e.conn});
      WithoutNoDup(old(Conns(b.idle)), {e.conn});
    }

    /** What one discard leaves in the heap. */
    twostate predicate Dropped(e: EntryObj)
      reads this, Repr(), e
    {
      && closed == old(closed) && buckets == old(buckets) && flights == old(flights) && started == old(started)
      && bySess == old(bySess) - {e.conn}
      && discarded == old(discarded) + multiset{e.conn}
      && (forall ep :: ep in buckets && ep != e.endpoint ==> unchanged(buckets[ep]))
      && (forall c :: c in bySess ==> unchanged(bySess[c]))
      && (forall i :: 0 <= i < |started| ==> unchanged(started[i]))
      && (e.endpoint in buckets ==>
            var b := buckets[e.endpoint];
            && b.View() == DropFrom(old(b.View()), {e.conn})
            && NoDup(Conns(b.idle)) && NoDup(Conns(b.entries))
            && (forall x :: x in b.idle ==> x in old(b.idle) && x != e)
            && (forall x :: x in old(b.idle) && x != e ==> x in b.idle)
            && (forall x :: x in b.entries ==> x in old(b.entries) && x != e)
            && (forall x :: x in old(b.entries) && x != e ==> x in b.entries))
    }

    twostate lemma DroppedView(e: EntryObj)
      requires old(Shape()) && old(Tracked(e)) && Dropped(e)
      ensures View() == PoolSpec.Discard(old(View()), e.conn)
    {
      OneBucket(e.endpoint);
      assert SessView() == old(SessView()) - {e.conn};
      assert LogView() == old(LogView());
    }

    twostate lemma DroppedShape(e: EntryObj)
      requires old(Shape()) && old(Tracked(e)) && Dropped(e)
      ensures Shape()
    {
      forall f | f in buckets ensures ListsShape(f) {
        assert old(ListsShape(f));
      }
      forall d | d in bySess ensures IndexShape(d) {
        assert old(IndexShape(d));
      }
    }

    /** discardLocked */
    method Discard(e: EntryObj)
      requires Shape() && Tracked(e) && e.endpoint in buckets
      modifies `bySess, `discarded, e, buckets[e.endpoint]
      ensures Shape() && View() == PoolSpec.Discard(old(View()), e.conn)
      ensures bySess == old(bySess) - {e.conn}
      ensures e.sess == None
    {
      assert IndexShape(e.conn);
      if e.endpoint in buckets {
        assert ListsShape(e.endpoint);
        Unlist(buckets[e.endpoint], e);
      }
      if e.sess.Some? {
        bySess := bySess - {e.sess.value};
        discarded := discarded + multiset{e.sess.value};
      }
      e.sess := None;
      assert Dropped(e);
      DroppedView(e);
      DroppedShape(e);
    }

    /** Only the record of `c` changed. */
    twostate lemma OneEntry(c: Conn)
      requires bySess == old(bySess) && c in bySess
      requires forall d :: d in bySess && d != c ==> unchanged(bySess[d])
      ensures SessView() == old(SessView())[c := bySess[c].View()]
    {
      forall d | d in bySess && d != c ensures SessView()[d] == old(SessView()[d]) {
        assert unchanged(bySess[d]);
      }
    }

    /** One record and its bucket's idle queue changed, and still agree with each other. */
    twostate predicate Requeued(e: EntryObj)
      requires e.endpoint in buckets
      reads this, Repr(), e
    {
      var b := buckets[e.endpoint];
      && closed == old(closed) && buckets == old(buckets) && flights == old(flights) && started == old(started)
      && bySess == old(bySess) && discarded == old(discarded)
      && (forall ep :: ep in buckets && ep != e.endpoint ==> unchanged(buckets[ep]))
      && (forall c :: c in bySess && c != e.conn ==> unchanged(bySess[c]))
      && (forall i :: 0 <= i < |started| ==> unchanged(started[i]))
      && e.sess == old(e.sess)
      && b.entries == old(b.entries) && e in b.entries
      && NoDup(Conns(b.idle))
      && (forall x :: x in b.idle && x != e ==> x in old(b.idle))
      && (forall x :: x in old(b.idle) && x != e ==> x in b.idle)
      && (e in b.idle <==> e.inIdle)
    }

    twostate lemma RequeuedShape(e: EntryObj)
      requires e.endpoint in buckets && old(Shape()) && old(Tracked(e)) && Requeued(e)
      ensures Shape()
    {
      forall f | f in buckets ensures ListsShape(f) {
        assert old(ListsShape(f));
      }
      forall d | d in bySess ensures IndexShape(d) {
        assert old(IndexShape(d));
      }
    }

    twostate lemma RequeuedView(e: EntryObj)
      requires e.endpoint in buckets && old(Shape()) && old(Tracked(e)) && Requeued(e)
      ensures View() == old(View()).(buckets := old(BucketsView())[e.endpoint := buckets[e.endpoint].View()],
                                     bySess := old(SessView())[e.conn := e.View()])
    {
      OneBucket(e.endpoint);
      OneEntry(e.conn);
      assert LogView() == old(LogView());
    }

    twostate lemma LendView(e: EntryObj)
      requires e.endpoint in old(buckets) && old(Tracked(e))
      requires e.endpoint in buckets
      requires buckets[e.endpoint].View()
            == old(buckets[e.endpoint].View()).(idle := Without(old(Conns(buckets[e.endpoint].idle)), {e.conn}))
      requires e.View() == old(e.View()).(refcount := old(e.refcount) + 1, inIdle := false)
      ensures Lend(old(View()), e.conn)
           == old(View()).(buckets := old(BucketsView())[e.endpoint := buckets[e.endpoint].View()],
                           bySess := old(SessView())[e.conn := e.View()])
    {
      assert old(View()).bySess[e.conn] == old(e.View());
      assert BucketAt(old(View()), e.endpoint) == old(buckets[e.endpoint].View());
    }

    /** The lending half of tryLendLocked. */
    method LendTo(e: EntryObj)
      requires Shape() && Tracked(e) && e.endpoint in buckets && e in buckets[e.endpoint].entries
      modifies e, buckets[e.endpoint]
      ensures Shape() && View() == Lend(old(View()), e.conn)
    {
      var b := buckets[e.endpoint];
      assert ListsShape(e.endpoint);
      assert IndexShape(e.conn);
      WithoutNoDup(Conns(b.idle), {e.conn});
      RemoveIdle(b, e);
      e.refcount := e.refcount + 1;
      RequeuedShape(e);
      RequeuedView(e);
      LendView(e);
    }

    /** lifetimeExpired */
    predicate LifetimeExpired(e: EntryObj, now: int): (r: bool)
      reads e
      ensures r == Expired(cfg, e.View(), now)
    {
      if cfg.maxLifetime <= 0 then false else now - e.createdAt >= cfg.maxLifetime
    }

    /** Reusable(), asked of the session a record holds: the oracle of the region answers. */
    predicate Reusable(e: EntryObj, reusable: set<Conn>)
      requires e.sess.Some?
      reads e
    {
      e.sess.value in reusable
    }

    /** lendableLocked */
    predicate LendableNow(e: EntryObj, now: int, reusable: set<Conn>): (r: bool)
      requires capPer == CapPer(cfg) && e.sess == Some(e.conn)
      reads e
      ensures r == Fit(cfg, e.View(), e.conn, now, reusable)
    {
      if LifetimeExpired(e, now) then false
      else if !Reusable(e, reusable) then false
      else if capPer > 0 && e.refcount >= capPer then false
      else true
    }

    /** The three reasons reclaimLocked has to drop an idle record. */
    predicate PastLimit(e: EntryObj, now: int, reusable: set<Conn>): (r: bool)
      requires e.sess == Some(e.conn) && e.inIdle
      reads e
      ensures r == IsDead(cfg, e.View(), e.conn, now, reusable)
    {
      if e.refcount > 0 then false
      else
        var expired := LifetimeExpired(e, now);
        var idleTO := cfg.idleTimeout > 0 && e.inIdle && now - e.idleSince >= cfg.idleTimeout;
        expired || idleTO || !Reusable(e, reusable)
    }

    /** The search of tryLendLocked. */
    method FindLendable(ep: Endpoint, now: int, skip: set<Conn>, reusable: set<Conn>) returns (r: EntryObj?)
      requires Shape() && ep in buckets
      ensures r != null ==> Tracked(r) && r in buckets[ep].entries
      ensures FirstLendable(cfg, View(), BucketAt(View(), ep).entries, now, skip, reusable)
           == if r == null then None else Some(r.conn)
    {
      var b := buckets[ep];
      ghost var v, cs := View(), Conns(b.entries);
      assert v.buckets[ep] == b.View();
      assert ListsShape(ep);
      var i := 0;
      while i < |b.entries|
        invariant 0 <= i <= |b.entries|
        invariant FirstLendable(cfg, v, cs, now, skip, reusable) == FirstLendable(cfg, v, cs[i..], now, skip, reusable)
      {
        var e := b.entries[i];
        assert Tracked(e);
        assert IndexShape(e.conn);
        NextLendable(cfg, v, cs, i, now, skip, reusable);
        assert cs[i] == e.conn && v.bySess[e.conn] == e.View();
        var take := e.sess.Some? && e.sess.value !in skip && LendableNow(e, now, reusable);
        assert take == Takes(cfg, v, cs[i], now, skip, reusable);
        if take {
          return e;
        }
        i := i + 1;
      }
      assert cs[|cs|..] == [];
      return null;
    }

    /** tryLendLocked */
    method TryLend(ep: Endpoint, now: int, skip: set<Conn>, reusable: set<Conn>) returns (r: Option<Conn>)
      requires Shape()
      modifies bySess.Values, buckets.Values
      ensures Shape()
      ensures r == FirstLendable(cfg, old(View()), BucketAt(old(View()), ep).entries, now, skip, reusable)
      ensures View() == if r.Some? then Lend(old(View()), r.value) else old(View())
    {
      if ep !in buckets {
        return None;
      }
      var e := FindLendable(ep, now, skip, reusable);
      if e == null {
        return None;
      }
      assert ListsShape(ep);
      assert IndexShape(e.conn);
      r := e.sess;
      LendTo(e);
    }

    /** Sessions left the index, none came. */
    ghost predicate Subindex(before: map<Conn, EntryObj>, after: map<Conn, EntryObj>) {
      forall c :: c in after ==> c in before && after[c] == before[c]
    }

    ghost predicate Queued(q: seq<EntryObj>, k: nat)
      reads this, Repr(), q
    {
      forall j :: k <= j < |q| ==> Tracked(q[j]) && q[j].inIdle
    }

    /** What reclaimLocked does about one idle record. */
    method ReclaimOne(e: EntryObj, now: int, reusable: set<Conn>)
      requires Shape() && Tracked(e) && e.inIdle && e.endpoint in buckets
      modifies `bySess, `discarded, e, buckets[e.endpoint]
      ensures Shape() && View() == ReclaimStep(cfg, old(View()), e.conn, now, reusable)
      ensures Subindex(old(bySess), bySess)
      ensures forall c :: c in old(bySess) && c != e.conn ==> c in bySess
    {
      assert IndexShape(e.conn);
      assert View().bySess[e.conn] == e.View();
      if PastLimit(e, now, reusable) {
        Discard(e);
      }
    }

    /** One turn of the walk over a copy `q` of an idle queue. */
    method ReclaimTurn(q: seq<EntryObj>, k: nat, now: int, reusable: set<Conn>)
      requires k < |q| && Distinct(q) && Shape() && Queued(q, k) && q[k].endpoint in buckets
      modifies `bySess, `discarded, q[k], buckets[q[k].endpoint]
      ensures Shape()
      ensures Queued(q, k + 1)
      ensures View() == ReclaimStep(cfg, old(View()), q[k].conn, now, reusable)
      ensures Subindex(old(bySess), bySess) && buckets == old(buckets)
    {
      var e := q[k];
      ReclaimOne(e, now, reusable);
      forall j | k < j < |q| ensures Tracked(q[j]) && q[j].inIdle {
        assert old(Tracked(q[j]) && q[j].inIdle) && q[j] != e;
      }
    }

    /** The walk over a copy of one bucket's idle queue. */
    method ReclaimBucket(ep: Endpoint, now: int, reusable: set<Conn>)
      requires Shape() && ep in buckets
      modifies `bySess, `discarded, bySess.Values, buckets.Values
      ensures Shape()
      ensures View() == ReclaimSeq(cfg, old(View()), old(Conns(buckets[ep].idle)), now, reusable)
      ensures buckets == old(buckets) && Subindex(old(bySess), bySess)
    {
      var q := buckets[ep].idle;
      ghost var v, cs := View(), Conns(q);
      assert ListsShape(ep);
      assert cs[0..] == cs;
      ConnsDistinct(q);
      var k := 0;
      while k < |q|
        invariant 0 <= k <= |q|
        invariant Shape() && Queued(q, k)
        invariant ReclaimSeq(cfg, v, cs, now, reusable) == ReclaimSeq(cfg, View(), cs[k..], now, reusable)
        invariant Subindex(old(bySess), bySess) && buckets == old(buckets)
      {
        NextReclaim(cfg, View(), cs, k, now, reusable);
        assert IndexShape(q[k].conn);
        ReclaimTurn(q, k, now, reusable);
        k := k + 1;
      }
    }

    /** A record that nobody leases is queued. */
    lemma SweepFindsNone(ep: Endpoint)
      requires Shape() && RepInv(cfg, View()) && ep in buckets
      ensures forall e :: e in buckets[ep].entries ==> !(e.refcount == 0 && !e.inIdle)
    {
      assert ListsShape(ep);
      forall e | e in buckets[ep].entries ensures !(e.refcount == 0 && !e.inIdle) {
        assert Counted(View().bySess[e.conn]);
      }
    }

    /** The sweep behind the walk of a bucket, over a copy of its entries.  It would discard records that nobody
        leases and that are not queued, and there are none: it changes nothing. */
    method Sweep(ep: Endpoint)
      requires Shape() && RepInv(cfg, View()) && ep in buckets
      ensures Shape() && View() == old(View()) && buckets == old(buckets) && bySess == old(bySess)
    {
      var q := buckets[ep].entries;
      SweepFindsNone(ep);
      for k := 0 to |q| {
        var e := q[k];
        if e.refcount == 0 && !e.inIdle {
          assert false;
        }
      }
    }

    lemma SubindexValues(before: map<Conn, EntryObj>, after: map<Conn, EntryObj>)
      requires Subindex(before, after)
      ensures after.Values <= before.Values
    {
    }

    /** The walk of one bucket, when those of `done` are behind us. */
    method WalkNextBucket(ep: Endpoint, now: int, reusable: set<Conn>, ghost v: State, ghost done: set<Endpoint>)
      requires Shape() && RepInv(cfg, v) && View() == DropAll(v, DeadIn(cfg, v, done, now, reusable))
      requires ep in buckets && ep in v.buckets && ep !in done
      modifies `bySess, `discarded, bySess.Values, buckets.Values
      ensures Shape() && View() == DropAll(v, DeadIn(cfg, v, done + {ep}, now, reusable))
      ensures bySess.Values <= old(bySess.Values) && buckets == old(buckets)
    {
      ReclaimNext(cfg, v, done, ep, now, reusable);
      assert View().buckets[ep] == buckets[ep].View();
      ReclaimBucket(ep, now, reusable);
      SubindexValues(old(bySess), bySess);
    }

    /** The walk of one bucket and the sweep behind it. */
    method ReclaimNextBucket(ep: Endpoint, now: int, reusable: set<Conn>, ghost v: State, ghost done: set<Endpoint>)
      requires Shape() && RepInv(cfg, v) && View() == DropAll(v, DeadIn(cfg, v, done, now, reusable))
      requires ep in buckets && ep in v.buckets && ep !in done
      modifies `bySess, `discarded, bySess.Values, buckets.Values
      ensures Shape() && View() == DropAll(v, DeadIn(cfg, v, done + {ep}, now, reusable))
      ensures bySess.Values <= old(bySess.Values)
    {
      WalkNextBucket(ep, now, reusable, v, done);
      DropAllKeeps(cfg, v, DeadIn(cfg, v, done + {ep}, now, reusable));
      Sweep(ep);
    }

    /** reclaimLocked: the buckets in whatever order the map yields them. */
    method ReclaimAll(now: int, reusable: set<Conn>)
      requires Shape() && RepInv(cfg, View())
      modifies `bySess, `discarded, bySess.Values, buckets.Values
      ensures Shape() && View() == Reclaim(cfg, old(View()), now, reusable)
      ensures bySess.Values <= old(bySess.Values)
    {
      ghost var v := View();
      ghost var done: set<Endpoint> := {};
      ReclaimDone(cfg, v, now, reusable);
      var todo := buckets.Keys;
      ghost var all := v.buckets.Keys;
      assert all == todo;
      while todo != {}
        invariant todo + done == all && todo !! done
        invariant Shape() && View() == DropAll(v, DeadIn(cfg, v, done, now, reusable))
        invariant bySess.Values <= old(bySess.Values)
        decreases todo
      {
        var ep :| ep in todo;
        assert ep in all;
        ReclaimNextBucket(ep, now, reusable, v, done);
        MoveOne(todo, done, ep);
        todo, done := todo - {ep}, done + {ep};
      }
      assert done == all;
    }

    /** Change the count of reserved dials of a bucket that exists. */
    method AddDials(b: BucketObj, ghost ep: Endpoint, n: int)
      requires Shape() && ep in buckets && buckets[ep] == b
      modifies b`pendingDial
      ensures Shape() && View() == AddPending(old(View()), ep, n)
    {
      b.pendingDial := b.pendingDial + n;
      OneBucket(ep);
      assert SessView() == old(SessView()) && LogView() == old(LogView());
      ListsKept();
    }

    /** Change an endpoint's count of reserved dials. */
    method Reserve(ep: Endpoint, n: int)
      requires Shape()
      modifies `buckets, buckets.Values
      ensures Shape() && View() == AddPending(old(View()), ep, n)
      ensures ep in buckets && bySess == old(bySess)
      ensures forall e :: e in buckets ==>
                if e in old(buckets) then buckets[e] == old(buckets)[e] else fresh(buckets[e])
    {
      TouchThenAdd(View(), ep, n);
      var b := BucketLocked(ep);
      AddDials(b, ep, n);
    }

    /** Register a flight nobody has closed. */
    method OpenFlight(ep: Endpoint) returns (fl: FlightObj)
      requires Shape()
      modifies `flights, `started
      ensures Shape() && View() == StartFlight(old(View()), ep)
      ensures fresh(fl) && fl in started && fl.endpoint == ep
      ensures GDial(fl).View() == Dial(Some(|old(View()).log|))
    {
      fl := new FlightObj(|started|, ep);
      flights := flights[ep := fl];
      started := started + [fl];
      ViewsKept();
      assert LogView() == old(LogView()) + [Flight(ep, 0, None)];
      assert FlightsView() == old(FlightsView())[ep := |old(started)|];
      ListsKept();
    }

    /** Reserve a dial, and lead a flight for it where dials are shared. */
    method ReserveDial(b: BucketObj, ep: Endpoint) returns (g: Granted)
      requires Shape() && ep in buckets && buckets[ep] == b
      modifies b`pendingDial, `flights, `started
      ensures Shape()
      ensures View() == AddPending(if capPer < 0 then StartFlight(old(View()), ep) else old(View()), ep, 1)
      ensures g.View() == Dial(if capPer < 0 then Some(|old(View()).log|) else None)
      ensures g.GDial? && (g.leads != null ==> g.leads in started && g.leads.endpoint == ep)
    {
      if capPer < 0 {
        var fl := OpenFlight(ep);
        g := GDial(fl);
      } else {
        g := GDial(null);
      }
      AddDials(b, ep, 1);
    }

    /** What acquire does when nothing could be lent. */
    method MissNow(ep: Endpoint) returns (g: Granted)
      requires Shape()
      modifies `buckets, buckets.Values, `flights, `started
      ensures Shape()
      ensures View() == Miss(cfg, old(View()), ep).0 && g.View() == Miss(cfg, old(View()), ep).1
      ensures g.GDial? && g.leads != null ==> g.leads in started && g.leads.endpoint == ep
      ensures g.GJoin? ==> g.flight in started
    {
      ghost var s, t := View(), Touch(View(), ep);
      var atCap := FullNow(ep);
      assert t.flights == FlightsView();
      if capPer < 0 && ep in flights {
        g := GJoin(flights[ep]);
        assert Miss(cfg, s, ep) == (t, Join(t.flights[ep]));
      } else if atCap {
        g := GRefused(Exhausted);
        assert Miss(cfg, s, ep) == (t, Refused(Exhausted));
      } else {
        assert Miss(cfg, s, ep) == (AddPending(if capPer < 0 then StartFlight(t, ep) else t, ep, 1),
                                    Dial(if capPer < 0 then Some(|t.log|) else None));
        g := ReserveDial(buckets[ep], ep);
      }
    }

    /** Is the endpoint at its cap? Asking creates its bucket. */
    method FullNow(ep: Endpoint) returns (atCap: bool)
      requires Shape()
      modifies `buckets
      ensures Shape() && View() == Touch(old(View()), ep) && atCap == AtCap(cfg, View(), ep)
      ensures ep in buckets
      ensures forall e :: e in buckets ==>
                if e in old(buckets) then buckets[e] == old(buckets)[e] else fresh(buckets[e])
    {
      var b := BucketLocked(ep);
      assert View().buckets[ep] == b.View();
      atCap := cfg.maxSessions > 0 && |b.entries| + b.pendingDial >= cfg.maxSessions;
    }

    // ------------------------------------------------------------------
    // Lock regions
    // ------------------------------------------------------------------

    /** Lend, or do what acquire does when nothing could be lent. */
    method LookNow(ep: Endpoint, skip: set<Conn>, now: int, reusable: set<Conn>) returns (g: Granted)
      requires Shape()
      modifies `buckets, `flights, `started, buckets.Values, bySess.Values
      ensures Shape()
      ensures View() == Look(cfg, old(View()), ep, skip, now, reusable).0
      ensures g.View() == Look(cfg, old(View()), ep, skip, now, reusable).1
      ensures g.GDial? && g.leads != null ==> g.leads in started && g.leads.endpoint == ep
      ensures g.GJoin? ==> g.flight in started
    {
      ghost var s := View();
      var got := TryLend(ep, now, skip, reusable);
      if got.Some? {
        return GLent(got.value);
      }
      assert Look(cfg, s, ep, skip, now, reusable) == Miss(cfg, s, ep);
      g := MissNow(ep);
    }

    /** The region at the top of acquire's loop. */
    method EnterPool(ep: Endpoint, skip: set<Conn>, now1: int, reusable1: set<Conn>, now2: int, reusable2: set<Conn>)
      returns (g: Granted)
      requires Valid()
      modifies this, Repr()
      ensures Valid()
      ensures var r := Enter(cfg, old(View()), ep, skip, now1, reusable1, now2, reusable2);
              View() == r.0 && g.View() == r.1
      ensures g.GDial? && g.leads != null ==> g.leads in started && g.leads.endpoint == ep
      ensures g.GJoin? ==> g.flight in started
    {
      ghost var s := View();
      EnterKeeps(cfg, s, ep, skip, now1, reusable1, now2, reusable2);
      if closed {
        return GRefused(PoolClosed);
      }
      ghost var want := Enter(cfg, s, ep, skip, now1, reusable1, now2, reusable2);
      ghost var r := Reclaim(cfg, s, now1, reusable1);
      assert want == Look(cfg, r, ep, skip, now2, reusable2);
      ReclaimAll(now1, reusable1);
      g := LookNow(ep, skip, now2, reusable2);
    }

    method GiveUpOrRetry(ep: Endpoint) returns (g: Granted)
      requires Shape()
      modifies `buckets
      ensures Shape() && View() == Touch(old(View()), ep)
      ensures g.View() == if AtCap(cfg, View(), ep) then Refused(Exhausted) else Again
    {
      var full := FullNow(ep);
      g := if full then GRefused(Exhausted) else GAgain;
    }

    /** The region after a joined flight landed without an error. */
    method RejoinPool(ep: Endpoint, skip: set<Conn>, now: int, reusable: set<Conn>) returns (g: Granted)
      requires Valid()
      modifies this, Repr()
      ensures Valid()
      ensures var r := Rejoin(cfg, old(View()), ep, skip, now, reusable);
              View() == r.0 && g.View() == r.1
    {
      ghost var s := View();
      RejoinKeeps(cfg, s, ep, skip, now, reusable);
      if closed {
        return GRefused(PoolClosed);
      }
      ghost var want := Rejoin(cfg, s, ep, skip, now, reusable);
      var got := TryLend(ep, now, skip, reusable);
      if got.Some? {
        assert want == (Lend(s, got.value), Lent(got.value));
        return GLent(got.value);
      }
      assert want == (Touch(s, ep), if AtCap(cfg, Touch(s, ep), ep) then Refused(Exhausted) else Again);
      g := GiveUpOrRetry(ep);
    }

    /** addEntryLocked, and the lease of the caller that dialed. */
    method AddEntry(ep: Endpoint, c: Conn, now: int)
      requires Shape() && c !in bySess && ep in buckets
      modifies `bySess, buckets[ep]
      ensures Shape() && View() == Track(old(View()), ep, c, now)
    {
      var b := buckets[ep];
      assert ListsShape(ep);
      var e := new EntryObj(ep, c, now);
      e.refcount := 1;
      b.entries := b.entries + [e];
      bySess := bySess[c := e];
      Added(ep, e);
      AddedView(ep, e);
    }

    twostate predicate AddedTo(ep: Endpoint, new e: EntryObj)
      requires ep in buckets
      reads this, Repr(), e
    {
      var b := buckets[ep];
      && closed == old(closed) && buckets == old(buckets) && flights == old(flights) && started == old(started)
      && discarded == old(discarded)
      && e.conn !in old(bySess) && bySess == old(bySess)[e.conn := e]
      && e.endpoint == ep && e.sess == Some(e.conn) && !e.inIdle
      && b.entries == old(b.entries) + [e] && b.idle == old(b.idle) && b.pendingDial == old(b.pendingDial)
      && (forall f :: f in buckets && f != ep ==> unchanged(buckets[f]))
      && (forall c :: c in bySess && c != e.conn ==> unchanged(bySess[c]))
      && (forall i :: 0 <= i < |started| ==> unchanged(started[i]))
    }

    twostate lemma Added(ep: Endpoint, new e: EntryObj)
      requires old(Shape()) && ep in buckets && AddedTo(ep, e)
      ensures Shape()
    {
      var b := buckets[ep];
      assert old(ListsShape(ep));
      assert Conns(b.entries) == old(Conns(b.entries)) + [e.conn];
      forall k | 0 <= k < |old(b.entries)| ensures old(Conns(b.entries))[k] != e.conn {
        assert old(b.entries)[k] in old(b.entries);
      }
      forall f | f in buckets ensures ListsShape(f) {
        assert old(ListsShape(f));
      }
      forall d | d in bySess ensures IndexShape(d) {
        assert d != e.conn ==> old(IndexShape(d));
      }
    }

    twostate lemma AddedView(ep: Endpoint, new e: EntryObj)
      requires old(Shape()) && ep in buckets && AddedTo(ep, e)
      ensures View() == old(View()).(buckets := old(BucketsView())[ep := buckets[ep].View()],
                                     bySess := old(SessView())[e.conn := e.View()])
      ensures buckets[ep].View() == old(buckets[ep].View()).(entries := old(Conns(buckets[ep].entries)) + [e.conn])
    {
      OneBucket(ep);
      assert SessView() == old(SessView())[e.conn := e.View()];
      assert LogView() == old(LogView());
    }

    /** Unregister the flight and close it. */
    method LandFlight(ep: Endpoint, fl: FlightObj, err: Option<Error>)
      requires Shape() && fl in started
      modifies `flights, fl
      ensures Shape()
      ensures fl.id < |old(View()).log| && View() == Land(old(View()), ep, fl.id, err)
    {
      flights := flights - {ep};
      fl.err := err;
      fl.closes := fl.closes + 1;
      OneFlight(fl);
      ViewsKept();
      assert FlightsView() == old(FlightsView()) - {ep};
      ListsKept();
    }

    /** Only the flight `fl` changed. */
    twostate lemma OneFlight(fl: FlightObj)
      requires started == old(started) && fl in started
      requires forall i :: 0 <= i < |started| ==> started[i].id == i
      requires forall i :: 0 <= i < |started| && started[i] != fl ==> unchanged(started[i])
      ensures fl.id < |started| && LogView() == old(LogView())[fl.id := fl.View()]
    {
      var i :| 0 <= i < |started| && started[i] == fl;
      assert fl.id == i;
      forall j | 0 <= j < |started| && j != i ensures LogView()[j] == old(LogView()[j]) {
        assert started[j] != fl && unchanged(started[j]);
      }
    }

    /** The lists and the records kept what they say. */
    twostate lemma ViewsKept()
      requires buckets == old(buckets) && bySess == old(bySess)
      requires forall f :: f in buckets ==> unchanged(buckets[f])
      requires forall c :: c in bySess ==> unchanged(bySess[c])
      ensures BucketsView() == old(BucketsView()) && SessView() == old(SessView())
    {
    }

    /** The region after a dial, on every way out of it. */
    method SettleDial(ep: Endpoint, leads: FlightObj?, o: Outcome, now: int) returns (l: Landing)
      requires Valid()
      requires leads != null ==> leads in started && leads.endpoint == ep
      requires o.Delivered? ==> o.conn !in bySess
      modifies this, Repr()
      ensures Valid()
      ensures var f := if leads == null then None else Some(leads.id);
              && (f.Some? ==> f.value < |old(View()).log|)
              && View() == Settle(old(View()), ep, f, o, now).0 && l == Settle(old(View()), ep, f, o, now).1
    {
      assert leads != null ==> leads.id < |LogView()|;
      SettleKeeps(cfg, View(), ep, if leads == null then None else Some(leads.id), o, now);
      l := LandingOf(closed, o);
      Reserve(ep, -1);
      if l.Landed? {
        AddEntry(ep, l.conn, now);
      }
      if leads != null {
        LandFlight(ep, leads, FlightError(l));
      }
    }

    method Enqueue(b: BucketObj, e: EntryObj, now: int)
      requires NoDup(Conns(b.idle)) && e.conn !in Conns(b.idle)
      modifies b`idle, e`inIdle, e`idleSince
      ensures e.inIdle && e.idleSince == now
      ensures forall x :: x in b.idle <==> x in old(b.idle) || x == e
      ensures Conns(b.idle) == old(Conns(b.idle)) + [e.conn] && NoDup(Conns(b.idle))
    {
      e.inIdle, e.idleSince := true, now;
      b.idle := b.idle + [e];
      assert Conns(b.idle) == old(Conns(b.idle)) + [e.conn];
    }

    lemma NotQueued(e: EntryObj)
      requires Shape() && Tracked(e) && !e.inIdle && e.endpoint in buckets
      ensures e.conn !in Conns(buckets[e.endpoint].idle) && NoDup(Conns(buckets[e.endpoint].idle))
    {
      var b := buckets[e.endpoint];
      assert ListsShape(e.endpoint);
      forall k | 0 <= k < |b.idle| ensures Conns(b.idle)[k] != e.conn {
        assert b.idle[k] in b.idle;
      }
    }

    /** The record joins its bucket's idle queue. */
    method Park(e: EntryObj, now: int)
      requires Shape() && Tracked(e) && !e.inIdle && e.endpoint in buckets && e in buckets[e.endpoint].entries
      modifies e, buckets[e.endpoint]
      ensures Shape()
      ensures View() == Parked(old(View()), e.conn, old(e.View()).(inIdle := true, idleSince := now))
    {
      NotQueued(e);
      Enqueue(buckets[e.endpoint], e, now);
      RequeuedShape(e);
      RequeuedView(e);
      assert old(BucketsView())[e.endpoint] == old(buckets[e.endpoint].View());
    }

    /** returnLocked */
    method ReturnNow(e: EntryObj, now: int, reusable: set<Conn>)
      requires Shape() && Tracked(e) && (e.refcount == 0 ==> !e.inIdle)
      requires e.refcount >= 0 && e.endpoint in buckets && e in buckets[e.endpoint].entries
      modifies `bySess, `discarded, `buckets, e, buckets[e.endpoint]
      ensures Shape() && View() == Return(cfg, old(View()), e.conn, now, reusable)
    {
      ghost var s := View();
      assert IndexShape(e.conn);
      assert s.bySess[e.conn] == e.View();
      var ok := Reusable(e, reusable) && !LifetimeExpired(e, now);
      if e.refcount > 0 {
        return;
      }
      if !ok {
        Discard(e);
        return;
      }
      ReturnReusable(e, now);
    }

    /** The reusable half of returnLocked. */
    method ReturnReusable(e: EntryObj, now: int)
      requires Shape() && Tracked(e) && !e.inIdle && e.endpoint in buckets && e in buckets[e.endpoint].entries
      modifies `bySess, `discarded, `buckets, e, buckets[e.endpoint]
      ensures Shape()
      ensures var t := Touch(old(View()), e.endpoint);
              View() ==
                        if cfg.maxIdle >= 0 && |t.buckets[e.endpoint].idle| >= cfg.maxIdle then
                          PoolSpec.Discard(t, e.conn)
                        else Parked(t, e.conn, old(e.View()).(inIdle := true, idleSince := now))
    {
      var b := BucketLocked(e.endpoint);
      assert BucketsView()[e.endpoint] == b.View();
      if cfg.maxIdle >= 0 && |b.idle| >= cfg.maxIdle {
        Discard(e);
      } else {
        Park(e, now);
      }
    }

    twostate lemma Decremented(e: EntryObj)
      requires old(Shape()) && old(Tracked(e)) && unchanged(this)
      requires e.sess == old(e.sess) && e.inIdle == old(e.inIdle)
      requires forall f :: f in buckets ==> unchanged(buckets[f])
      requires forall c :: c in bySess && bySess[c] != e ==> unchanged(bySess[c])
      requires forall i :: 0 <= i < |started| ==> unchanged(started[i])
      ensures Shape()
      ensures View() == old(View()).(bySess := old(SessView())[e.conn := e.View()])
    {
      forall f | f in buckets ensures ListsShape(f) {
        assert old(ListsShape(f));
      }
      forall d | d in bySess ensures IndexShape(d) {
        assert old(IndexShape(d));
      }
      assert BucketsView() == old(BucketsView()) && LogView() == old(LogView());
      OneEntry(e.conn);
    }

    /** Release */
    method ReleaseSess(c: Conn, now: int, reusable: set<Conn>)
      requires Valid()
      modifies this, Repr()
      ensures Valid() && View() == Release(cfg, old(View()), c, now, reusable)
    {
      ReleaseKeeps(cfg, View(), c, now, reusable);
      if c !in bySess {
        return;
      }
      var e := bySess[c];
      assert IndexShape(c);
      assert View().bySess[c] == e.View();
      if e.refcount == 0 {
        return;
      }
      HeldEntry(c);
      e.refcount := e.refcount - 1;
      Decremented(e);
      ReturnNow(e, now, reusable);
    }

    /** A record with a lease out is listed, and not queued. */
    lemma HeldEntry(c: Conn)
      requires Valid() && c in bySess && bySess[c].refcount != 0
      ensures var e := bySess[c];
              && Tracked(e) && e.refcount > 0 && !e.inIdle
              && e.endpoint in buckets && e in buckets[e.endpoint].entries
    {
      var e := bySess[c];
      assert IndexShape(c);
      assert View().bySess[c] == e.View();
      assert Counted(View().bySess[c]) && Listed(View(), c);
      var b := buckets[e.endpoint];
      assert View().buckets[e.endpoint] == b.View();
      var k :| 0 <= k < |b.entries| && Conns(b.entries)[k] == c;
      assert ListsShape(e.endpoint);
      assert b.entries[k] in b.entries;
    }

    /** The region of the reclaim ticker. */
    method TickNow(now: int, reusable: set<Conn>)
      requires Valid()
      modifies this, Repr()
      ensures Valid() && View() == Tick(cfg, old(View()), now, reusable)
    {
      TickKeeps(cfg, View(), now, reusable);
      if !closed {
        ReclaimAll(now, reusable);
      }
    }

    /** The region of Close; it answers the sessions to close once the lock is dropped. */
    method ShutNow() returns (sessions: set<Conn>)
      requires Valid()
      modifies this
      ensures Valid() && View() == Shut(old(View())).0 && sessions == Shut(old(View())).1
    {
      ShutKeeps(cfg, View());
      if closed {
        return {};
      }
      closed := true;
      sessions := bySess.Keys;
      buckets, bySess := map[], map[];
      assert sessions == old(SessView()).Keys;
      assert BucketsView() == map[] && SessView() == map[] && LogView() == old(LogView());
    }
  }

  /** releasingCall: a call that hands its connection back when it is closed. */
  class ReleasingCall {
    const pool: Pool
    const conn: Conn
    var done: bool

    constructor (pool: Pool, conn: Conn)
      ensures this.pool == pool && this.conn == conn && !done
    {
      this.pool, this.conn, this.done := pool, conn, false;
    }

    twostate lemma PoolKept()
      requires unchanged(pool) && unchanged(pool.Repr())
      ensures pool.Valid() == old(pool.Valid()) && pool.View() == old(pool.View())
    {
    }

    /** However often it is called, the lease goes back exactly once. */
    method Close(now: int, reusable: set<Conn>)
      requires pool.Valid()
      modifies `done, pool, pool.Repr()
      ensures pool.Valid() && done
      ensures pool.View() ==
              if old(done) then old(pool.View()) else Release(pool.cfg, old(pool.View()), conn, now, reusable)
    {
      if !done {
        pool.ReleaseSess(conn, now, reusable);
        label Released:
        done := true;
        PoolKept@Released();
      }
    }
  }
}

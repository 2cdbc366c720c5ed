/** The import walk of the reflection engine (`transport/grpc/reflection`), and the set of files sent
    that one stream carries from request to request. */
module Reflection {
  import opened Seqs

  /** A file descriptor.  A file's imports are part of it, so import graphs are acyclic; two files may
      well have an import in common. */
  datatype File = File(path: string, placeholder: bool, imports: seq<File>)

  // ------------------------------------------------------------------
  // What there is to send
  // ------------------------------------------------------------------

  /** The files that can be had from `f` by way of imports that are there. */
  ghost function Reach(f: File): set<File>
    decreases f
  {
    if f.placeholder then {} else {f} + ReachAll(f.imports)
  }

  ghost function ReachAll(fs: seq<File>): set<File>
    decreases fs
  {
    if fs == [] then {} else Reach(fs[0]) + ReachAll(fs[1..])
  }

  /** Every import that is there of a file in `s` is in `s`. */
  ghost predicate ClosedUnder(s: set<File>) {
    forall f, i :: f in s && 0 <= i < |f.imports| && !f.imports[i].placeholder ==> f.imports[i] in s
  }

  lemma {:induction false} ReachAllHas(fs: seq<File>, i: nat)
    requires i < |fs|
    ensures Reach(fs[i]) <= ReachAll(fs)
  {
    if i > 0 {
      ReachAllHas(fs[1..], i - 1);
    }
  }

  lemma {:induction false} ReachIsClosed(f: File)
    ensures ClosedUnder(Reach(f))
    decreases f
  {
    if !f.placeholder {
      ReachAllIsClosed(f.imports);
      forall i | 0 <= i < |f.imports| && !f.imports[i].placeholder ensures f.imports[i] in Reach(f) {
        ReachAllHas(f.imports, i);
      }
    }
  }

  lemma {:induction false} ReachAllIsClosed(fs: seq<File>)
    ensures ClosedUnder(ReachAll(fs))
    decreases fs
  {
    if fs != [] {
      ReachIsClosed(fs[0]);
      ReachAllIsClosed(fs[1..]);
    }
  }

  lemma {:induction false} ReachAllLeast(fs: seq<File>, s: set<File>)
    requires ClosedUnder(s) && forall i :: 0 <= i < |fs| && !fs[i].placeholder ==> fs[i] in s
    ensures ReachAll(fs) <= s
    decreases fs
  {
    if fs != [] {
      ReachLeast(fs[0], s);
      ReachAllLeast(fs[1..], s);
    }
  }

  /** Reach is the closure: it is closed, and is in every closed set that holds its root. */
  lemma {:induction false} ReachLeast(f: File, s: set<File>)
    requires ClosedUnder(s) && (f.placeholder || f in s)
    ensures Reach(f) <= s
    decreases f
  {
    if !f.placeholder {
      ReachAllLeast(f.imports, s);
    }
  }

  lemma {:induction false} ReachHasNoPlaceholder(f: File, g: File)
    requires g in Reach(f)
    ensures !g.placeholder
    decreases f
  {
    if g != f {
      ReachAllHasNoPlaceholder(f.imports, g);
    }
  }

  lemma {:induction false} ReachAllHasNoPlaceholder(fs: seq<File>, g: File)
    requires g in ReachAll(fs)
    ensures !g.placeholder
    decreases fs
  {
    if g in Reach(fs[0]) {
      ReachHasNoPlaceholder(fs[0], g);
    } else {
      ReachAllHasNoPlaceholder(fs[1..], g);
    }
  }

  lemma {:induction false} ReachAllOfConcat(a: seq<File>, b: seq<File>)
    ensures ReachAll(a + b) == ReachAll(a) + ReachAll(b)
  {
    if a == [] {
      Emptys(b);
    } else {
      ReachAllOfConcat(a[1..], b);
      assert (a + b)[1..] == a[1..] + b;
    }
  }

  ghost function Paths(s: set<File>): set<string> {
    set f | f in s :: f.path
  }

  /** A path names one file. */
  ghost predicate Coherent(s: set<File>) {
    forall f, g :: f in s && g in s && f.path == g.path ==> f == g
  }

  // ------------------------------------------------------------------
  // The walk
  // ------------------------------------------------------------------

  /** How often a walk from `f` will dequeue: a file is enqueued once for every import of it, visited
      before or not. */
  ghost function Weight(f: File): (w: nat)
    ensures w >= 1
    decreases f
  {
    1 + WeightAll(f.imports)
  }

  ghost function WeightAll(fs: seq<File>): nat
    decreases fs
  {
    if fs == [] then 0 else Weight(fs[0]) + WeightAll(fs[1..])
  }

  lemma {:induction false} WeightOfConcat(a: seq<File>, b: seq<File>)
    ensures WeightAll(a + b) == WeightAll(a) + WeightAll(b)
  {
    if a == [] {
      Emptys(b);
    } else {
      WeightOfConcat(a[1..], b);
      assert (a + b)[1..] == a[1..] + b;
    }
  }

  /** The `sentFileDescriptors` map of one stream: the paths that map to true. */
  class SentFiles {
    var paths: set<string>

    constructor ()
      ensures paths == {}
    {
      paths := {};
    }
  }

  /** What a request for `fd` must be answered with (None: not found): the root first, whatever was sent
      before, and every file it can reach that was not sent, each once, nearer ones before farther ones. */
  ghost predicate Answers(fd: File, before: set<string>, r: Option<seq<File>>) {
    if fd.placeholder then r == None
    else
      && r.Some? && r.value != [] && r.value[0] == fd && NoDup(r.value)
      && (forall g :: g in r.value <==> g == fd || (g in Reach(fd) && g.path !in before))
      && NearestFirst(fd, r.value)
  }

  /** Half way through a walk from `fd`: `seen` are the files dequeued, and what is still to come is
      reached from the queue. */
  ghost predicate Walking(fd: File, before: set<string>,
                          queue: seq<File>, r: seq<File>, paths: set<string>, seen: set<File>)
  {
    && Reach(fd) == seen + ReachAll(queue)
    && paths == before + Paths(seen)
    && NoDup(r)
    && (forall g :: g in r <==> g in seen && (g == fd || g.path !in before))
    && (if r == [] then seen == {} && queue == [fd] else r[0] == fd && fd in seen)
  }

  lemma Skip(fd: File, before: set<string>, queue: seq<File>, r: seq<File>, paths: set<string>, seen: set<File>)
    requires Walking(fd, before, queue, r, paths, seen) && queue != [] && queue[0].placeholder && !fd.placeholder
    ensures Walking(fd, before, queue[1..], r, paths, seen)
    ensures WeightAll(queue[1..]) < WeightAll(queue)
  {
    assert ReachAll(queue) == ReachAll(queue[1..]);
  }

  /** What is next is a file the walk is to reach, and it was seen when its path is among those seen. */
  lemma NextIsReached(fd: File, before: set<string>,
                      queue: seq<File>, r: seq<File>, paths: set<string>, seen: set<File>)
    requires Walking(fd, before, queue, r, paths, seen) && queue != [] && !queue[0].placeholder
    requires Coherent(Reach(fd))
    ensures queue[0] in Reach(fd) && (queue[0].path in Paths(seen) <==> queue[0] in seen)
    ensures r == [] ==> queue[0] == fd
  {
    var f := queue[0];
    assert f in ReachAll(queue);
    if f.path in Paths(seen) {
      var g :| g in seen && g.path == f.path;
      assert g in Reach(fd);
    }
  }

  lemma NextReaches(queue: seq<File>)
    requires queue != [] && !queue[0].placeholder
    ensures ReachAll(queue) == {queue[0]} + ReachAll(queue[1..] + queue[0].imports)
    ensures WeightAll(queue[1..] + queue[0].imports) < WeightAll(queue)
  {
    WeightOfConcat(queue[1..], queue[0].imports);
    ReachAllOfConcat(queue[1..], queue[0].imports);
  }

  lemma PathsAdd(s: set<File>, f: File)
    ensures Paths(s + {f}) == Paths(s) + {f.path}
  {
  }

  lemma Visit(fd: File, before: set<string>, queue: seq<File>, r: seq<File>, paths: set<string>, seen: set<File>)
    requires Walking(fd, before, queue, r, paths, seen) && queue != [] && !queue[0].placeholder
    requires Coherent(Reach(fd))
    ensures var f := queue[0];
            var news := r == [] || f.path !in paths;
            Walking(fd, before, queue[1..] + f.imports, if news then r + [f] else r,
                    if news then paths + {f.path} else paths, seen + {f})
    ensures WeightAll(queue[1..] + queue[0].imports) < WeightAll(queue)
  {
    NextIsReached(fd, before, queue, r, paths, seen);
    NextReaches(queue);
    PathsAdd(seen, queue[0]);
  }

  // ------------------------------------------------------------------
  // Nearest first
  // ------------------------------------------------------------------

  /** `f` is `steps` imports away from `fd`, by way of files that are there. */
  ghost predicate Away(fd: File, f: File, steps: nat)
    decreases steps
  {
    if steps == 0 then f == fd
    else !fd.placeholder && exists i :: 0 <= i < |fd.imports| && Away(fd.imports[i], f, steps - 1)
  }

  lemma {:induction false} AwayMore(fd: File, g: File, steps: nat, i: nat)
    requires Away(fd, g, steps) && !g.placeholder && i < |g.imports|
    ensures Away(fd, g.imports[i], steps + 1)
    decreases steps
  {
    if steps == 0 {
      assert Away(fd.imports[i], g.imports[i], 0);
    } else {
      var k :| 0 <= k < |fd.imports| && Away(fd.imports[k], g, steps - 1);
      AwayMore(fd.imports[k], g, steps - 1, i);
    }
  }

  /** The last import on the way. */
  lemma {:induction false} AwayLess(fd: File, f: File, steps: nat) returns (g: File, i: nat)
    requires Away(fd, f, steps) && steps > 0
    ensures Away(fd, g, steps - 1) && !g.placeholder && i < |g.imports| && g.imports[i] == f
    decreases steps
  {
    var k :| 0 <= k < |fd.imports| && Away(fd.imports[k], f, steps - 1);
    if steps == 1 {
      g, i := fd, k;
    } else {
      g, i := AwayLess(fd.imports[k], f, steps - 1);
      assert Away(fd, g, steps - 1);
    }
  }

  /** However far `b` is, `a` is no farther. */
  ghost predicate NoFarther(fd: File, a: File, b: File) {
    forall n: nat :: Away(fd, b, n) ==> exists m: nat :: m <= n && Away(fd, a, m)
  }

  /** No file of `r` is farther from `fd` than one behind it. */
  ghost predicate NearestFirst(fd: File, r: seq<File>) {
    forall i, j :: 0 <= i < j < |r| ==> NoFarther(fd, r[i], r[j])
  }

  /** `h` is dealt with: seen, or in the queue, no farther than `limit`. */
  ghost predicate Near(queue: seq<File>, ds: seq<nat>, depth: map<File, nat>, h: File, limit: nat)
    requires |ds| == |queue|
  {
    (h in depth && depth[h] <= limit) || exists k :: 0 <= k < |queue| && queue[k] == h && ds[k] <= limit
  }

  /** The queue is in order of distance, and spans two distances at most. */
  ghost predicate Ordered(ds: seq<nat>) {
    && (forall k, n :: 0 <= k < n < |ds| ==> ds[k] <= ds[n])
    && (forall k :: 0 <= k < |ds| ==> ds[k] <= ds[0] + 1)
  }

  ghost predicate Placed(fd: File, queue: seq<File>, ds: seq<nat>) {
    |ds| == |queue| && forall k :: 0 <= k < |queue| ==> Away(fd, queue[k], ds[k])
  }

  ghost predicate Measured(fd: File, ds: seq<nat>, depth: map<File, nat>) {
    && (forall g :: g in depth ==> !g.placeholder && Away(fd, g, depth[g]))
    && (forall g :: g in depth && ds != [] ==> depth[g] <= ds[0])
  }

  /** The root and the imports of what was seen are dealt with. */
  ghost predicate Followed(fd: File, queue: seq<File>, ds: seq<nat>, depth: map<File, nat>)
    requires |ds| == |queue|
  {
    && Near(queue, ds, depth, fd, 0)
    && (forall g, i :: g in depth && 0 <= i < |g.imports| && !g.imports[i].placeholder ==>
          Near(queue, ds, depth, g.imports[i], depth[g] + 1))
  }

  ghost predicate Ascending(r: seq<File>, depth: map<File, nat>) {
    && (forall k :: 0 <= k < |r| ==> r[k] in depth)
    && (forall k, n :: 0 <= k < n < |r| ==> depth[r[k]] <= depth[r[n]])
  }

  /** Half way through a walk: `ds` are the distances at which the files in the queue were enqueued, `depth`
      those at which the files seen were seen first. */
  ghost predicate Layered(fd: File, queue: seq<File>, ds: seq<nat>, r: seq<File>, depth: map<File, nat>) {
    && Ordered(ds)
    && Placed(fd, queue, ds)
    && Measured(fd, ds, depth)
    && Followed(fd, queue, ds, depth)
    && Ascending(r, depth)
  }

  /** `f` dequeued at distance `d`: what is known of the distances afterwards. */
  ghost function Deepened(depth: map<File, nat>, f: File, d: nat): map<File, nat> {
    if f.placeholder || f in depth then depth else depth[f := d]
  }

  ghost function Nexts(ds: seq<nat>, n: nat): seq<nat>
    requires ds != []
  {
    ds[1..] + seq(n, _ => ds[0] + 1)
  }

  lemma NearKept(queue: seq<File>, ds: seq<nat>, depth: map<File, nat>, more: seq<File>, h: File, limit: nat)
    requires |ds| == |queue| && queue != [] && Near(queue, ds, depth, h, limit) && !h.placeholder
    requires queue[0] in depth ==> depth[queue[0]] <= ds[0]
    ensures Near(queue[1..] + more, Nexts(ds, |more|), Deepened(depth, queue[0], ds[0]), h, limit)
  {
    if !(h in depth && depth[h] <= limit) {
      var k :| 0 <= k < |queue| && queue[k] == h && ds[k] <= limit;
      if k > 0 {
        assert (queue[1..] + more)[k - 1] == h && Nexts(ds, |more|)[k - 1] == ds[k];
      }
    }
  }

  lemma OrderedNext(ds: seq<nat>, n: nat)
    requires ds != [] && Ordered(ds)
    ensures Ordered(Nexts(ds, n)) && forall k :: 0 <= k < |Nexts(ds, n)| ==> ds[0] <= Nexts(ds, n)[k]
  {
  }

  lemma PlacedNext(fd: File, queue: seq<File>, ds: seq<nat>, more: seq<File>)
    requires queue != [] && Placed(fd, queue, ds)
    requires more == [] || (more == queue[0].imports && !queue[0].placeholder)
    ensures Placed(fd, queue[1..] + more, Nexts(ds, |more|))
  {
    var q, es := queue[1..] + more, Nexts(ds, |more|);
    forall k | 0 <= k < |q| ensures Away(fd, q[k], es[k]) {
      if k < |queue| - 1 {
        assert q[k] == queue[k + 1] && es[k] == ds[k + 1];
      } else {
        AwayMore(fd, queue[0], ds[0], k - (|queue| - 1));
      }
    }
  }

  lemma FollowedNext(fd: File, queue: seq<File>, ds: seq<nat>, depth: map<File, nat>, more: seq<File>)
    requires |ds| == |queue| && queue != [] && Followed(fd, queue, ds, depth) && !fd.placeholder
    requires queue[0] in depth ==> depth[queue[0]] <= ds[0]
    requires if queue[0].placeholder then more == [] else more == queue[0].imports
    ensures Followed(fd, queue[1..] + more, Nexts(ds, |more|), Deepened(depth, queue[0], ds[0]))
  {
    var q, es, after := queue[1..] + more, Nexts(ds, |more|), Deepened(depth, queue[0], ds[0]);
    NearKept(queue, ds, depth, more, fd, 0);
    forall g, i | g in after && 0 <= i < |g.imports| && !g.imports[i].placeholder
      ensures Near(q, es, after, g.imports[i], after[g] + 1)
    {
      if g in depth {
        NearKept(queue, ds, depth, more, g.imports[i], depth[g] + 1);
      } else {
        var k := |queue| - 1 + i;
        assert q[k] == g.imports[i] && es[k] == ds[0] + 1;
      }
    }
  }

  /** One turn of the walk keeps the layers. */
  lemma LayeredNext(fd: File, queue: seq<File>, ds: seq<nat>, r: seq<File>, depth: map<File, nat>,
                    more: seq<File>, news: bool)
    requires Layered(fd, queue, ds, r, depth) && queue != [] && !fd.placeholder
    requires if queue[0].placeholder then more == [] else more == queue[0].imports
    requires news ==> !queue[0].placeholder && queue[0] !in depth
    ensures Layered(fd, queue[1..] + more, Nexts(ds, |more|),
                    if news then r + [queue[0]] else r, Deepened(depth, queue[0], ds[0]))
  {
    OrderedNext(ds, |more|);
    PlacedNext(fd, queue, ds, more);
    FollowedNext(fd, queue, ds, depth, more);
  }

  /** When the queue is empty, `depth` is the distance of every file there is to see. */
  lemma {:induction false} DepthIsDistance(fd: File, r: seq<File>, depth: map<File, nat>, f: File, n: nat)
    requires Layered(fd, [], [], r, depth) && Away(fd, f, n) && !f.placeholder
    ensures f in depth && depth[f] <= n
    decreases n
  {
    if n > 0 {
      var g, i := AwayLess(fd, f, n);
      DepthIsDistance(fd, r, depth, g, n - 1);
      assert Near([], [], depth, g.imports[i], depth[g] + 1);
    } else {
      assert Near([], [], depth, fd, 0);
    }
  }

  lemma LayeredEnd(fd: File, r: seq<File>, depth: map<File, nat>)
    requires Layered(fd, [], [], r, depth)
    ensures NearestFirst(fd, r)
  {
    forall i, j, n: nat | 0 <= i < j < |r| && Away(fd, r[j], n)
      ensures exists m: nat :: m <= n && Away(fd, r[i], m)
    {
      DepthIsDistance(fd, r, depth, r[j], n);
      assert Away(fd, r[i], depth[r[i]]);
    }
  }

  /** A walk with its distances. */
  ghost predicate Walk(fd: File, before: set<string>, queue: seq<File>, r: seq<File>, paths: set<string>,
                       ds: seq<nat>, depth: map<File, nat>) {
    Walking(fd, before, queue, r, paths, depth.Keys) && Layered(fd, queue, ds, r, depth)
  }

  lemma WalkStarts(fd: File, before: set<string>)
    requires !fd.placeholder
    ensures Walk(fd, before, [fd], [], before, [0], map[])
  {
    assert ReachAll([fd]) == Reach(fd) by { assert [fd][1..] == []; }
    assert [fd][0] == fd && [0][0] == 0;
    assert Near([fd], [0], map[], fd, 0);
  }

  lemma WalkSkips(fd: File, before: set<string>, queue: seq<File>, r: seq<File>, paths: set<string>,
                  ds: seq<nat>, depth: map<File, nat>)
    requires Walk(fd, before, queue, r, paths, ds, depth) && queue != [] && queue[0].placeholder && !fd.placeholder
    ensures Walk(fd, before, queue[1..], r, paths, Nexts(ds, 0), depth)
    ensures WeightAll(queue[1..]) < WeightAll(queue)
  {
    Skip(fd, before, queue, r, paths, depth.Keys);
    LayeredNext(fd, queue, ds, r, depth, [], false);
    Emptys(queue[1..]);
  }

  lemma NewsIsUnseen(fd: File, before: set<string>,
                     queue: seq<File>, r: seq<File>, paths: set<string>, seen: set<File>)
    requires Walking(fd, before, queue, r, paths, seen) && queue != []
    ensures r == [] || queue[0].path !in paths ==> queue[0] !in seen
  {
    if queue[0] in seen {
      assert queue[0].path in Paths(seen);
    }
  }

  lemma DeepenedKeys(depth: map<File, nat>, f: File, d: nat)
    requires !f.placeholder
    ensures Deepened(depth, f, d).Keys == depth.Keys + {f}
  {
  }

  lemma WalkVisits(fd: File, before: set<string>, queue: seq<File>, r: seq<File>, paths: set<string>,
                   ds: seq<nat>, depth: map<File, nat>)
    requires Walk(fd, before, queue, r, paths, ds, depth) && queue != [] && !queue[0].placeholder && !fd.placeholder
    requires Coherent(Reach(fd))
    ensures var f := queue[0];
            var news := r == [] || f.path !in paths;
            Walk(fd, before, queue[1..] + f.imports, if news then r + [f] else r,
                 if news then paths + {f.path} else paths, Nexts(ds, |f.imports|), Deepened(depth, f, ds[0]))
    ensures WeightAll(queue[1..] + queue[0].imports) < WeightAll(queue)
  {
    var f := queue[0];
    Visit(fd, before, queue, r, paths, depth.Keys);
    NewsIsUnseen(fd, before, queue, r, paths, depth.Keys);
    LayeredNext(fd, queue, ds, r, depth, f.imports, r == [] || f.path !in paths);
    DeepenedKeys(depth, f, ds[0]);
  }

  /** FileDescWithDependencies, a file standing for its serialized form. */
  method FileDescWithDependencies(fd: File, sent: SentFiles) returns (r: Option<seq<File>>)
    requires Coherent(Reach(fd))
    modifies sent
    ensures Answers(fd, old(sent.paths), r)
    ensures sent.paths == old(sent.paths) + Paths(Reach(fd))
  {
    if fd.placeholder {
      return None;
    }
    var out: seq<File>, queue := [], [fd];
    ghost var ds: seq<nat>, depth: map<File, nat> := [0], map[];
    WalkStarts(fd, sent.paths);
    while |queue| > 0
      invariant Walk(fd, old(sent.paths), queue, out, sent.paths, ds, depth)
      decreases WeightAll(queue)
    {
      var current := queue[0];
      if current.placeholder {
        WalkSkips(fd, old(sent.paths), queue, out, sent.paths, ds, depth);
        queue, ds := queue[1..], Nexts(ds, 0);
        continue;
      }
      WalkVisits(fd, old(sent.paths), queue, out, sent.paths, ds, depth);
      depth, ds := Deepened(depth, current, ds[0]), Nexts(ds, |current.imports|);
      queue := queue[1..];
      if |out| == 0 || current.path !in sent.paths {
        sent.paths := sent.paths + {current.path};
        out := out + [current];
      }
      queue := queue + current.imports;
    }
    LayeredEnd(fd, out, depth);
    return Some(out);
  }

  // ------------------------------------------------------------------
  // A stream of requests
  // ------------------------------------------------------------------

  /** The paths sent before request `k`: those of everything the roots before it reach. */
  ghost function SentBefore(roots: seq<File>, k: nat): set<string>
    requires k <= |roots|
  {
    Paths(ReachAll(roots[..k]))
  }

  lemma SentNext(roots: seq<File>, k: nat)
    requires k < |roots|
    ensures SentBefore(roots, k + 1) == SentBefore(roots, k) + Paths(Reach(roots[k]))
  {
    var before, root := roots[..k], roots[k];
    assert roots[..k + 1] == before + [root];
    ReachAllOfConcat(before, [root]);
    assert ReachAll([root]) == Reach(root) by { assert [root][1..] == []; }
  }

  /** Each request of a stream is answered as one that comes after those before it. */
  ghost predicate Served(roots: seq<File>, answers: seq<Option<seq<File>>>) {
    && |answers| == |roots|
    && forall i :: 0 <= i < |roots| ==> Answers(roots[i], SentBefore(roots, i), answers[i])
  }

  /** bidiHandler, over the requests whose file the resolver finds. */
  method BidiHandler(roots: seq<File>) returns (answers: seq<Option<seq<File>>>)
    requires Coherent(ReachAll(roots))
    ensures Served(roots, answers)
  {
    var sent := new SentFiles();
    answers := [];
    assert roots[..0] == [];
    for i := 0 to |roots|
      invariant |answers| == i && sent.paths == SentBefore(roots, i)
      invariant forall j :: 0 <= j < i ==> Answers(roots[j], SentBefore(roots, j), answers[j])
    {
      ReachAllHas(roots, i);
      SentNext(roots, i);
      var r := FileDescWithDependencies(roots[i], sent);
      answers := answers + [r];
    }
  }

  lemma ReachAllOfPrefix(roots: seq<File>, k: nat)
    requires k <= |roots|
    ensures ReachAll(roots[..k]) <= ReachAll(roots)
  {
    ReachAllOfConcat(roots[..k], roots[k..]);
    Split(roots, k);
  }

  /** `sent` stays closed under the imports that are there: when a file was sent, so were they. */
  lemma SentStaysClosed(roots: seq<File>, k: nat, f: File, i: nat)
    requires k <= |roots| && Coherent(ReachAll(roots))
    requires f in ReachAll(roots) && f.path in SentBefore(roots, k) && i < |f.imports| && !f.imports[i].placeholder
    ensures f.imports[i].path in SentBefore(roots, k)
  {
    ReachAllOfPrefix(roots, k);
    var g :| g in ReachAll(roots[..k]) && g.path == f.path;
    assert g == f;
    ReachAllIsClosed(roots[..k]);
    assert f.imports[i] in ReachAll(roots[..k]);
  }

  /** A file goes out twice only as the root of the later request. */
  lemma OnlyRootsAgain(roots: seq<File>, answers: seq<Option<seq<File>>>, i: nat, j: nat, f: File)
    requires Served(roots, answers) && i < j < |roots|
    requires answers[i].Some? && answers[j].Some? && f in answers[i].value && f in answers[j].value
    ensures f == roots[j]
  {
    assert Answers(roots[i], SentBefore(roots, i), answers[i]);
    assert Answers(roots[j], SentBefore(roots, j), answers[j]);
    ReachAllHas(roots[..j], i);
    assert roots[..j][i] == roots[i];
    assert f in Reach(roots[i]);
    assert f.path in SentBefore(roots, j);
  }

  /** A root asked for again goes out alone. */
  lemma AgainAlone(roots: seq<File>, answers: seq<Option<seq<File>>>, k: nat)
    requires Served(roots, answers) && k < |roots| && Coherent(ReachAll(roots))
    requires !roots[k].placeholder && roots[k].path in SentBefore(roots, k)
    ensures answers[k] == Some([roots[k]])
  {
    var root := roots[k];
    assert Answers(root, SentBefore(roots, k), answers[k]);
    ReachAllOfPrefix(roots, k);
    ReachAllHas(roots, k);
    var g :| g in ReachAll(roots[..k]) && g.path == root.path;
    assert g == root;
    ReachAllIsClosed(roots[..k]);
    ReachLeast(root, ReachAll(roots[..k]));
    forall f | f in answers[k].value ensures f == root {
      if f in Reach(root) {
        assert f.path in SentBefore(roots, k);
      }
    }
    OnlyOne(answers[k].value, root);
  }

  lemma OnlyOne<T>(s: seq<T>, x: T)
    requires NoDup(s) && s != [] && forall y :: y in s ==> y == x
    ensures s == [x]
  {
    var last := s[|s| - 1];
    assert s[0] in s && last in s;
    assert s[0] == last;
  }

  /** Nothing is missing: once request `k` is answered, the client has every file its root reaches. */
  lemma {:induction false} ClientHasAll(roots: seq<File>, answers: seq<Option<seq<File>>>, k: nat, f: File)
    requires Served(roots, answers) && k < |roots| && Coherent(ReachAll(roots)) && f in Reach(roots[k])
    ensures exists j :: 0 <= j <= k && answers[j].Some? && f in answers[j].value
    decreases k
  {
    assert Answers(roots[k], SentBefore(roots, k), answers[k]);
    if f.path in SentBefore(roots, k) && f != roots[k] {
      ReachAllOfPrefix(roots, k);
      ReachAllHas(roots, k);
      var g :| g in ReachAll(roots[..k]) && g.path == f.path;
      assert g == f;
      var j := FromSome(roots[..k], f);
      ClientHasAll(roots, answers, j, f);
    }
  }

  lemma {:induction false} FromSome(fs: seq<File>, f: File) returns (j: nat)
    requires f in ReachAll(fs)
    ensures j < |fs| && f in Reach(fs[j])
  {
    if f in Reach(fs[0]) {
      j := 0;
    } else {
      var i := FromSome(fs[1..], f);
      j := i + 1;
    }
  }

  // ------------------------------------------------------------------
  // Graphs of paths
  // ------------------------------------------------------------------

  datatype Node = Node(placeholder: bool, imports: seq<string>)

  /** A set of files that import each other by path. */
  type Graph = map<string, Node>

  /** No file imports itself, however far around: imports that are there rank lower. */
  ghost predicate Acyclic(g: Graph, rank: map<string, nat>) {
    && g.Keys <= rank.Keys
    && forall p, i :: p in g && 0 <= i < |g[p].imports| && g[p].imports[i] in g ==> rank[g[p].imports[i]] < rank[p]
  }

  /** The descriptor of `p`; a path that is not in the graph has a placeholder. */
  ghost function Unfold(g: Graph, rank: map<string, nat>, p: string): File
    requires Acyclic(g, rank)
    decreases if p in g then rank[p] + 1 else 0
  {
    if p !in g then File(p, true, [])
    else
      var n := g[p];
      File(p, n.placeholder, seq(|n.imports|, i requires 0 <= i < |n.imports| => Unfold(g, rank, n.imports[i])))
  }

  /** What is reached from a descriptor of the graph is, each time, the descriptor of its own path. */
  lemma {:induction false} UnfoldedReach(g: Graph, rank: map<string, nat>, p: string, f: File)
    requires Acyclic(g, rank) && f in Reach(Unfold(g, rank, p))
    ensures f.path in g && f == Unfold(g, rank, f.path)
    decreases if p in g then rank[p] + 1 else 0
  {
    var root := Unfold(g, rank, p);
    if f != root {
      var i := FromSome(root.imports, f);
      UnfoldedReach(g, rank, g[p].imports[i], f);
    }
  }

  /** Whatever is asked for in an acyclic graph of paths, a path names one file: a stream of requests is served
      as stated above. */
  lemma AcyclicIsCoherent(g: Graph, rank: map<string, nat>, ps: seq<string>, roots: seq<File>)
    requires Acyclic(g, rank) && |roots| == |ps|
    requires forall i :: 0 <= i < |ps| ==> roots[i] == Unfold(g, rank, ps[i])
    ensures Coherent(ReachAll(roots))
  {
    forall f | f in ReachAll(roots) ensures f == Unfold(g, rank, f.path) {
      var i := FromSome(roots, f);
      UnfoldedReach(g, rank, ps[i], f);
    }
  }

  /** The path `q` is reached from `p` in `steps` imports, by way of files that are there. */
  ghost predicate Leads(g: Graph, p: string, q: string, steps: nat)
    decreases steps
  {
    && p in g && !g[p].placeholder
    && if steps == 0 then p == q
       else exists i :: 0 <= i < |g[p].imports| && Leads(g, g[p].imports[i], q, steps - 1)
  }

  /** What the descriptor of `p` reaches is what `p` leads to in the graph. */
  lemma {:induction false} UnfoldedReachIs(g: Graph, rank: map<string, nat>, p: string, q: string)
    requires Acyclic(g, rank)
    ensures q in Paths(Reach(Unfold(g, rank, p))) <==> exists steps: nat :: Leads(g, p, q, steps)
  {
    if q in Paths(Reach(Unfold(g, rank, p))) {
      var f :| f in Reach(Unfold(g, rank, p)) && f.path == q;
      var steps := StepsTo(g, rank, p, f);
      assert Leads(g, p, q, steps);
    }
    forall steps: nat | Leads(g, p, q, steps) ensures q in Paths(Reach(Unfold(g, rank, p))) {
      LeadsReaches(g, rank, p, q, steps);
    }
  }

  lemma {:induction false} StepsTo(g: Graph, rank: map<string, nat>, p: string, f: File) returns (steps: nat)
    requires Acyclic(g, rank) && f in Reach(Unfold(g, rank, p))
    ensures Leads(g, p, f.path, steps)
    decreases if p in g then rank[p] + 1 else 0
  {
    var root := Unfold(g, rank, p);
    if f == root {
      steps := 0;
    } else {
      var i := FromSome(root.imports, f);
      var fewer := StepsTo(g, rank, g[p].imports[i], f);
      steps := fewer + 1;
    }
  }

  lemma {:induction false} LeadsReaches(g: Graph, rank: map<string, nat>, p: string, q: string, steps: nat)
    requires Acyclic(g, rank) && Leads(g, p, q, steps)
    ensures q in Paths(Reach(Unfold(g, rank, p)))
    decreases steps
  {
    var root := Unfold(g, rank, p);
    if steps > 0 {
      var i :| 0 <= i < |g[p].imports| && Leads(g, g[p].imports[i], q, steps - 1);
      LeadsReaches(g, rank, g[p].imports[i], q, steps - 1);
      ReachAllHas(root.imports, i);
      assert root.imports[i] == Unfold(g, rank, g[p].imports[i]);
    } else {
      assert root in Reach(root);
    }
  }
}

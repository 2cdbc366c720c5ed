/** REST paths (`transport/httpunary/router_rest.go`): building a path from a pattern and metadata, and
    matching a path against a pattern. */
module RestPath {
  import opened Seqs
  import opened Decimal
  import opened Text

  const SLASH: Byte := 47
  const QUESTION: Byte := 63
  const OPEN: Byte := 123
  const CLOSE: Byte := 125

  /** "x-argos-path-" */
  const PREFIX: Bytes := [120, 45, 97, 114, 103, 111, 115, 45, 112, 97, 116, 104, 45]

  type Metadata = map<Bytes, seq<Bytes>>

  type Vars = map<Bytes, Bytes>

  // ------------------------------------------------------------------
  // Patterns
  // ------------------------------------------------------------------

  predicate IsSpace(c: Byte) {
    c == 32 || 9 <= c <= 13
  }

  function TrimLeft(s: Bytes): (r: Bytes)
    ensures r != [] ==> !IsSpace(r[0])
  {
    if s == [] || !IsSpace(s[0]) then s else TrimLeft(s[1..])
  }

  function TrimRight(s: Bytes): (r: Bytes)
    ensures r <= s && (r != [] ==> !IsSpace(r[|r| - 1]))
  {
    if s == [] || !IsSpace(s[|s| - 1]) then s else TrimRight(s[..|s| - 1])
  }

  /** normalizePattern; strings.TrimSpace on ASCII. */
  function Normalize(p: Bytes): Bytes {
    var t := TrimRight(TrimLeft(p));
    if t == [] then [] else if t[0] != SLASH then [SLASH] + t else t
  }

  /** pathOnly */
  function PathOnly(target: Bytes): (r: Bytes)
    ensures QUESTION !in r && (QUESTION !in target ==> r == target)
  {
    Before(target, QUESTION)
  }

  lemma NormalizeTwice(p: Bytes)
    ensures Normalize(Normalize(p)) == Normalize(p)
  {
  }

  /** The segments of a pattern; the first is empty. */
  function Segments(p: Bytes): (segs: seq<Bytes>)
    ensures segs != []
  {
    SplitOn(Normalize(p), SLASH)
  }

  lemma SegmentsAre(p: Bytes)
    ensures NoneHas(Segments(p), SLASH) && Segments(p)[0] == []
    ensures Normalize(p) == [] ==> Segments(p) == [[]]
    ensures Normalize(p) != [] ==> |Segments(p)| >= 2
  {
    var n := Normalize(p);
    JoinSplit(n, SLASH);
    if n != [] {
      assert [] + [SLASH] + n[1..] == n;
      SplitFirst([], n[1..], SLASH);
    }
  }

  predicate Braced(seg: Bytes) {
    |seg| >= 2 && seg[0] == OPEN && seg[|seg| - 1] == CLOSE
  }

  /** `{}`, which building copies and matching refuses. */
  predicate IsEmptyBraces(seg: Bytes) {
    Braced(seg) && |seg| == 2
  }

  predicate IsVar(seg: Bytes) {
    Braced(seg) && |seg| >= 3
  }

  function NameOf(seg: Bytes): Bytes
    requires Braced(seg)
  {
    seg[1..|seg| - 1]
  }

  // ------------------------------------------------------------------
  // Building
  // ------------------------------------------------------------------

  /** The value metadata holds for a path variable; empty when there is none. */
  function ValueOf(md: Metadata, name: Bytes): Bytes {
    var key := PREFIX + name;
    if key in md && md[key] != [] then md[key][0] else []
  }

  /** What building writes for a segment, None for a variable without a value. */
  function Fill(seg: Bytes, md: Metadata): Option<Bytes> {
    if !IsVar(seg) then Some(seg)
    else if ValueOf(md, NameOf(seg)) == [] then None
    else Some(ValueOf(md, NameOf(seg)))
  }

  /** Each segment filled in, None when a variable has no value. */
  function FillAll(segs: seq<Bytes>, md: Metadata): (r: Option<seq<Bytes>>)
    ensures r.Some? ==> |r.value| == |segs|
    ensures r.Some? ==> forall i :: 0 <= i < |segs| ==> Fill(segs[i], md) == Some(r.value[i])
    ensures r.None? ==> exists i :: 0 <= i < |segs| && Fill(segs[i], md).None?
  {
    if segs == [] then Some([])
    else
      var last := |segs| - 1;
      var before := FillAll(segs[..last], md);
      if before.None? then
        var i :| 0 <= i < last && Fill(segs[..last][i], md).None?;
        assert Fill(segs[i], md).None?;
        None
      else if Fill(segs[last], md).None? then None
      else Some(before.value + [Fill(segs[last], md).value])
  }

  /** buildPath, None for its error: the pattern, each variable replaced by its value. */
  function Build(p: Bytes, md: Metadata): Option<Bytes> {
    match FillAll(Segments(p), md)
    case None => None
    case Some(parts) => Some(if |parts| == 1 then [SLASH] else JoinWith(parts, SLASH))
  }

  // ------------------------------------------------------------------
  // Matching
  // ------------------------------------------------------------------

  /** The variables that the first `n` segments bind; None when one does not match. */
  function Bind(ps: seq<Bytes>, ts: seq<Bytes>, n: nat): Option<Vars>
    requires n <= |ps| == |ts|
  {
    if n == 0 then Some(map[])
    else
      match Bind(ps, ts, n - 1)
      case None => None
      case Some(vars) =>
        var seg, t := ps[n - 1], ts[n - 1];
        if !Braced(seg) then if seg == t then Some(vars) else None
        else if IsEmptyBraces(seg) then None
        else Some(vars[NameOf(seg) := t])
  }

  /** matchPattern */
  function Match(p: Bytes, path: Bytes): Option<Vars> {
    var ps, ts := Segments(p), SplitOn(PathOnly(path), SLASH);
    if |ps| != |ts| then None else Bind(ps, ts, |ps|)
  }

  lemma {:induction false} BindIs(ps: seq<Bytes>, ts: seq<Bytes>, n: nat)
    requires n <= |ps| == |ts|
    ensures Bind(ps, ts, n).Some? <==>
            forall i :: 0 <= i < n ==> !IsEmptyBraces(ps[i]) && (!Braced(ps[i]) ==> ps[i] == ts[i])
    ensures Bind(ps, ts, n).Some? ==> Bound(ps, ts, n, Bind(ps, ts, n).value)
  {
    if n > 0 {
      BindIs(ps, ts, n - 1);
      var before, after := Bind(ps, ts, n - 1), Bind(ps, ts, n);
      if after.Some? && IsVar(ps[n - 1]) {
        BoundMore(ps, ts, n, before.value);
      }
    }
  }

  /** `vars` holds, for the name of each variable among the first `n` segments, the segment that its last
      occurrence there stands for, and nothing else. */
  ghost predicate Bound(ps: seq<Bytes>, ts: seq<Bytes>, n: nat, vars: Vars)
    requires n <= |ps| == |ts|
  {
    && (forall i :: 0 <= i < n && IsVar(ps[i]) ==> NameOf(ps[i]) in vars)
    && (forall name :: name in vars ==>
         exists i :: LastOf(ps, n, i, name) && vars[name] == ts[i])
  }

  ghost predicate LastOf(ps: seq<Bytes>, n: nat, i: int, name: Bytes)
    requires n <= |ps|
  {
    && 0 <= i < n && IsVar(ps[i]) && NameOf(ps[i]) == name
    && forall j :: i < j < n && IsVar(ps[j]) ==> NameOf(ps[j]) != name
  }

  lemma BoundMore(ps: seq<Bytes>, ts: seq<Bytes>, n: nat, vars: Vars)
    requires 0 < n <= |ps| == |ts| && Bound(ps, ts, n - 1, vars) && IsVar(ps[n - 1])
    ensures Bound(ps, ts, n, vars[NameOf(ps[n - 1]) := ts[n - 1]])
  {
    var added := NameOf(ps[n - 1]);
    var more := vars[added := ts[n - 1]];
    assert LastOf(ps, n, n - 1, added);
    forall name | name in more ensures exists i :: LastOf(ps, n, i, name) && more[name] == ts[i] {
      if name != added {
        var i :| LastOf(ps, n - 1, i, name) && vars[name] == ts[i];
        assert LastOf(ps, n, i, name);
      }
    }
  }

  // ------------------------------------------------------------------
  // Build, then match
  // ------------------------------------------------------------------

  ghost function Names(segs: seq<Bytes>): set<Bytes> {
    set i | 0 <= i < |segs| && IsVar(segs[i]) :: NameOf(segs[i])
  }

  /** The variables of a pattern, with the values metadata has for them. */
  ghost function Given(segs: seq<Bytes>, md: Metadata): Vars {
    map name | name in Names(segs) :: ValueOf(md, name)
  }

  /** What a caller can check before: the pattern is not blank and has no `{}`, and no `?` in it; and no
      value has a `/` or a `?`. */
  ghost predicate Travels(p: Bytes, md: Metadata) {
    && Normalize(p) != []
    && forall i :: 0 <= i < |Segments(p)| ==> TravelsAs(Segments(p)[i], md)
  }

  predicate TravelsAs(seg: Bytes, md: Metadata) {
    if IsVar(seg) then SLASH !in ValueOf(md, NameOf(seg)) && QUESTION !in ValueOf(md, NameOf(seg))
    else !IsEmptyBraces(seg) && QUESTION !in seg
  }

  lemma {:induction false} JoinLacks(parts: seq<Bytes>, sep: Byte, c: Byte)
    requires c != sep && NoneHas(parts, c)
    ensures c !in JoinWith(parts, sep)
  {
    if |parts| > 1 {
      JoinLacks(parts[1..], sep, c);
    }
  }

  lemma {:induction false} SplitLacks(s: Bytes, sep: Byte, c: Byte)
    requires c !in s
    ensures NoneHas(SplitOn(s, sep), c)
  {
    if s != [] {
      SplitLacks(s[1..], sep, c);
    }
  }

  lemma BuiltIs(p: Bytes, md: Metadata)
    requires Build(p, md).Some? && Normalize(p) != []
    ensures var parts := FillAll(Segments(p), md).value;
            |parts| >= 2 && Build(p, md) == Some(JoinWith(parts, SLASH))
  {
    SegmentsAre(p);
  }

  lemma MatchesWhenItTravels(p: Bytes, md: Metadata, path: Bytes)
    requires Build(p, md) == Some(path) && Travels(p, md)
    ensures Match(p, path) == Some(Given(Segments(p), md))
  {
    var segs := Segments(p);
    var parts := FillAll(segs, md).value;
    BuiltIs(p, md);
    SegmentsAre(p);
    forall i | 0 <= i < |parts| ensures SLASH !in parts[i] && QUESTION !in parts[i] {
      assert TravelsAs(segs[i], md) && Fill(segs[i], md) == Some(parts[i]);
    }
    JoinLacks(parts, SLASH, QUESTION);
    SplitJoin(parts, SLASH);
    forall i | 0 <= i < |segs| ensures !IsEmptyBraces(segs[i]) && (!Braced(segs[i]) ==> segs[i] == parts[i]) {
      assert TravelsAs(segs[i], md) && Fill(segs[i], md) == Some(parts[i]);
    }
    BindIs(segs, parts, |segs|);
    BoundGives(segs, parts, Bind(segs, parts, |segs|).value, md);
  }

  lemma BoundGives(segs: seq<Bytes>, parts: seq<Bytes>, vars: Vars, md: Metadata)
    requires |segs| == |parts| && Bound(segs, parts, |segs|, vars)
    requires forall i :: 0 <= i < |segs| ==> Fill(segs[i], md) == Some(parts[i])
    ensures vars == Given(segs, md)
  {
    forall name | name in vars ensures name in Names(segs) && vars[name] == ValueOf(md, name) {
      var i :| LastOf(segs, |segs|, i, name) && vars[name] == parts[i];
      assert Fill(segs[i], md) == Some(parts[i]);
    }
    assert vars.Keys == Names(segs);
  }

  lemma TravelsWhenItMatches(p: Bytes, md: Metadata, path: Bytes)
    requires Build(p, md) == Some(path) && Match(p, path) == Some(Given(Segments(p), md))
    ensures Travels(p, md)
  {
    var segs, only := Segments(p), PathOnly(path);
    var ts := SplitOn(only, SLASH);
    SegmentsAre(p);
    JoinSplit(only, SLASH);
    SplitLacks(only, SLASH, QUESTION);
    BindIs(segs, ts, |segs|);
    forall i | 0 <= i < |segs| ensures TravelsAs(segs[i], md) {
      if IsVar(segs[i]) {
        var name := NameOf(segs[i]);
        var j :| LastOf(segs, |segs|, j, name) && Bind(segs, ts, |segs|).value[name] == ts[j];
        assert name in Names(segs);
        assert ts[j] == ValueOf(md, name);
      }
    }
    BlankNeverMatches(p, md);
  }

  lemma BlankNeverMatches(p: Bytes, md: Metadata)
    ensures Normalize(p) == [] ==> Build(p, md) == Some([SLASH]) && Match(p, [SLASH]) == None
  {
    SegmentsAre(p);
    var segs: seq<Bytes> := [[]];
    assert FillAll(segs, md).Some?;
    SplitFirst([], [], SLASH);
    assert [] + [SLASH] + [] == [SLASH];
    assert PathOnly([SLASH]) == [SLASH];
  }

  /** A path that was built matches its pattern, with exactly the values that went in, if and only if
      pattern and values travel. */
  lemma BuildThenMatch(p: Bytes, md: Metadata, path: Bytes)
    requires Build(p, md) == Some(path)
    ensures Match(p, path) == Some(Given(Segments(p), md)) <==> Travels(p, md)
  {
    if Travels(p, md) {
      MatchesWhenItTravels(p, md, path);
    }
    if Match(p, path) == Some(Given(Segments(p), md)) {
      TravelsWhenItMatches(p, md, path);
    }
  }

  // ------------------------------------------------------------------
  // Match, then build
  // ------------------------------------------------------------------

  /** `md` after applyPathVars has gone over the names in `order`. */
  function Applied(md: Metadata, vars: Vars, order: seq<Bytes>): Metadata
    requires forall name :: name in order ==> name in vars
  {
    if order == [] then md
    else
      var last := |order| - 1;
      Applied(md, vars, order[..last])[PREFIX + order[last] := [vars[order[last]]]]
  }

  lemma SameKey(name: Bytes, other: Bytes)
    ensures PREFIX + name == PREFIX + other <==> name == other
  {
    Seam(PREFIX, name);
    Seam(PREFIX, other);
  }

  lemma {:induction false} AppliedIs(md: Metadata, vars: Vars, order: seq<Bytes>, name: Bytes)
    requires (forall n :: n in order ==> n in vars) && name in order
    ensures ValueOf(Applied(md, vars, order), name) == vars[name]
    decreases |order|
  {
    var last := |order| - 1;
    SameKey(name, order[last]);
    if name != order[last] {
      assert order == order[..last] + [order[last]];
      AppliedIs(md, vars, order[..last], name);
    }
  }

  /** An order a range over the variables may take. */
  ghost predicate Ranges(order: seq<Bytes>, vars: Vars) {
    forall name :: name in order <==> name in vars
  }

  /** Every variable has its value, and every other key what it had: whatever the order was. */
  lemma {:induction false} AppliedExactly(md: Metadata, vars: Vars, order: seq<Bytes>)
    requires forall n :: n in order ==> n in vars
    ensures forall name :: name in order ==>
              PREFIX + name in Applied(md, vars, order) && Applied(md, vars, order)[PREFIX + name] == [vars[name]]
    ensures forall key :: (forall name :: name in order ==> key != PREFIX + name) ==>
              && (key in Applied(md, vars, order) <==> key in md)
              && (key in md ==> Applied(md, vars, order)[key] == md[key])
    decreases |order|
  {
    if order != [] {
      var last := |order| - 1;
      AppliedExactly(md, vars, order[..last]);
      assert order == order[..last] + [order[last]];
      forall name ensures PREFIX + name == PREFIX + order[last] <==> name == order[last] {
        SameKey(name, order[last]);
      }
    }
  }

  lemma OrderIsNothing(md: Metadata, vars: Vars, order: seq<Bytes>, other: seq<Bytes>)
    requires Ranges(order, vars) && Ranges(other, vars)
    ensures Applied(md, vars, order) == Applied(md, vars, other)
  {
    AppliedExactly(md, vars, order);
    AppliedExactly(md, vars, other);
    var a, b := Applied(md, vars, order), Applied(md, vars, other);
    forall key ensures (key in a <==> key in b) && (key in a ==> a[key] == b[key]) {
      if name :| name in vars && key == PREFIX + name {
        assert name in order && name in other;
      }
    }
    assert a.Keys == b.Keys;
  }

  /** No variable stands for an empty segment, and the occurrences of one stand for the same. */
  ghost predicate Consistent(ps: seq<Bytes>, ts: seq<Bytes>)
    requires |ps| == |ts|
  {
    && (forall i :: 0 <= i < |ps| && IsVar(ps[i]) ==> ts[i] != [])
    && (forall i, j :: 0 <= i < |ps| && 0 <= j < |ps| && IsVar(ps[i]) && IsVar(ps[j])
                       && NameOf(ps[i]) == NameOf(ps[j]) ==>
          ts[i] == ts[j])
  }

  lemma FillsBack(ps: seq<Bytes>, ts: seq<Bytes>, md: Metadata, vars: Vars, order: seq<Bytes>)
    requires Ranges(order, vars)
    requires |ps| == |ts| && Bind(ps, ts, |ps|) == Some(vars) && Consistent(ps, ts)
    ensures FillAll(ps, Applied(md, vars, order)) == Some(ts)
  {
    var after := Applied(md, vars, order);
    BindIs(ps, ts, |ps|);
    forall i | 0 <= i < |ps| ensures Fill(ps[i], after) == Some(ts[i]) {
      if IsVar(ps[i]) {
        var name := NameOf(ps[i]);
        var j :| LastOf(ps, |ps|, j, name) && vars[name] == ts[j];
        AppliedIs(md, vars, order, name);
      }
    }
    var filled := FillAll(ps, after);
    forall i | 0 <= i < |ps| ensures filled.Some? && filled.value[i] == ts[i] {
      assert Fill(ps[i], after) == Some(ts[i]);
    }
    assert filled.Some? ==> filled.value == ts;
  }

  lemma ConsistentWhenRebuilt(p: Bytes, path: Bytes, md: Metadata, vars: Vars, order: seq<Bytes>)
    requires Ranges(order, vars) && Match(p, path) == Some(vars) && Normalize(p) != []
    requires Build(p, Applied(md, vars, order)) == Some(PathOnly(path))
    ensures Consistent(Segments(p), SplitOn(PathOnly(path), SLASH))
  {
    var ps, ts, after := Segments(p), SplitOn(PathOnly(path), SLASH), Applied(md, vars, order);
    var parts := FillAll(ps, after).value;
    BuiltIs(p, after);
    SegmentsAre(p);
    JoinSplit(PathOnly(path), SLASH);
    BindIs(ps, ts, |ps|);
    forall i | 0 <= i < |parts| ensures SLASH !in parts[i] {
      assert Fill(ps[i], after) == Some(parts[i]);
      if IsVar(ps[i]) {
        var name := NameOf(ps[i]);
        var j :| LastOf(ps, |ps|, j, name) && vars[name] == ts[j];
        AppliedIs(md, vars, order, name);
      }
    }
    SplitJoin(parts, SLASH);
    assert parts == ts;
    forall i | 0 <= i < |ps| && IsVar(ps[i]) ensures ts[i] == vars[NameOf(ps[i])] && ts[i] != [] {
      assert Fill(ps[i], after) == Some(parts[i]);
      AppliedIs(md, vars, order, NameOf(ps[i]));
    }
  }

  /** The variables of a matching path rebuild it, query apart, if and only if none is empty and equal
      names stand for equal segments; whatever else is in the metadata. */
  lemma MatchThenBuild(p: Bytes, path: Bytes, md: Metadata, vars: Vars, order: seq<Bytes>)
    requires Ranges(order, vars) && Match(p, path) == Some(vars) && Normalize(p) != []
    ensures Build(p, Applied(md, vars, order)) == Some(PathOnly(path))
       <==> Consistent(Segments(p), SplitOn(PathOnly(path), SLASH))
  {
    var ps, ts, after := Segments(p), SplitOn(PathOnly(path), SLASH), Applied(md, vars, order);
    if Consistent(ps, ts) {
      FillsBack(ps, ts, md, vars, order);
      SegmentsAre(p);
      JoinSplit(PathOnly(path), SLASH);
    }
    if Build(p, after) == Some(PathOnly(path)) {
      ConsistentWhenRebuilt(p, path, md, vars, order);
    }
  }

  // ------------------------------------------------------------------
  // The functions of the source
  // ------------------------------------------------------------------

  /** Each part behind a slash. */
  function Slashed(parts: seq<Bytes>): Bytes {
    if parts == [] then []
    else Slashed(parts[..|parts| - 1]) + [SLASH] + parts[|parts| - 1]
  }

  lemma {:induction false} JoinSlashed(a: Bytes, parts: seq<Bytes>)
    ensures JoinWith([a] + parts, SLASH) == a + Slashed(parts)
    decreases |parts|
  {
    if parts == [] {
      assert [a] + parts == [a];
      Emptys(a);
    } else {
      var init, last := parts[..|parts| - 1], parts[|parts| - 1];
      JoinSlashed(a, init);
      assert [a] + parts == ([a] + init) + [last];
      JoinSnoc([a] + init, last);
      Assoc(a, Slashed(init), [SLASH]);
      Assoc(a, Slashed(init) + [SLASH], last);
    }
  }

  lemma {:induction false} JoinSnoc(parts: seq<Bytes>, last: Bytes)
    requires parts != []
    ensures JoinWith(parts + [last], SLASH) == JoinWith(parts, SLASH) + [SLASH] + last
  {
    if |parts| == 1 {
      assert (parts + [last])[1..] == [last];
    } else {
      JoinSnoc(parts[1..], last);
      assert (parts + [last])[1..] == parts[1..] + [last];
      var first, rest := parts[0] + [SLASH], JoinWith(parts[1..], SLASH);
      Assoc(first, rest, [SLASH]);
      Assoc(first, rest + [SLASH], last);
    }
  }

  lemma FillNext(segs: seq<Bytes>, md: Metadata, n: nat)
    requires n < |segs| && FillAll(segs[..n], md).Some?
    ensures FillAll(segs[..n + 1], md) ==
            if Fill(segs[n], md).None? then None else Some(FillAll(segs[..n], md).value + [Fill(segs[n], md).value])
  {
    assert segs[..n + 1][..n] == segs[..n];
  }

  lemma FillFails(segs: seq<Bytes>, md: Metadata, n: nat)
    requires n < |segs| && Fill(segs[n], md).None?
    ensures FillAll(segs, md).None?
  {
  }

  /** buildPath */
  method BuildPath(pattern: Bytes, md: Metadata) returns (r: Option<Bytes>)
    ensures r == Build(pattern, md)
  {
    var segs := SplitOn(Normalize(pattern), SLASH);
    SegmentsAre(pattern);
    var b: Bytes := [];
    ghost var parts: seq<Bytes> := [];
    for i := 0 to |segs|
      invariant FillAll(segs[..i], md) == Some(parts)
      invariant i > 0 ==> parts[0] == [] && b == Slashed(parts[1..])
      invariant i == 0 ==> b == []
    {
      var seg := segs[i];
      FillNext(segs, md, i);
      if i == 0 && seg == [] {
        parts := parts + [[]];
        continue;
      }
      if !IsVar(seg) {
        SlashedNext(parts, seg);
        b := b + [SLASH] + seg;
        parts := parts + [seg];
        continue;
      }
      var val := ValueOf(md, NameOf(seg));
      if val == [] {
        FillFails(segs, md, i);
        return None;
      }
      SlashedNext(parts, val);
      b := b + [SLASH] + val;
      parts := parts + [val];
    }
    assert segs[..|segs|] == segs;
    assert parts == [[]] + parts[1..];
    JoinSlashed([], parts[1..]);
    Emptys(b);
    if b == [] {
      return Some([SLASH]);
    }
    return Some(b);
  }

  lemma SlashedNext(parts: seq<Bytes>, part: Bytes)
    requires parts != []
    ensures Slashed((parts + [part])[1..]) == Slashed(parts[1..]) + [SLASH] + part
  {
    assert (parts + [part])[1..] == parts[1..] + [part];
    Seam(parts[1..], [part]);
  }

  /** matchPattern */
  method MatchPattern(pattern: Bytes, path: Bytes) returns (r: Option<Vars>)
    ensures r == Match(pattern, path)
  {
    var ps, ts := SplitOn(Normalize(pattern), SLASH), SplitOn(PathOnly(path), SLASH);
    if |ps| != |ts| {
      return None;
    }
    var vars: Vars := map[];
    for i := 0 to |ps|
      invariant Bind(ps, ts, i) == Some(vars)
    {
      var seg, t := ps[i], ts[i];
      if i == 0 && seg == [] && t == [] {
        continue;
      }
      if Braced(seg) {
        var name := NameOf(seg);
        if name == [] {
          Unbound(ps, ts, i);
          return None;
        }
        vars := vars[name := t];
        continue;
      }
      if seg != t {
        Unbound(ps, ts, i);
        return None;
      }
    }
    return Some(vars);
  }

  lemma Unbound(ps: seq<Bytes>, ts: seq<Bytes>, i: nat)
    requires i < |ps| == |ts| && (IsEmptyBraces(ps[i]) || (!Braced(ps[i]) && ps[i] != ts[i]))
    ensures Bind(ps, ts, |ps|) == None
  {
    BindIs(ps, ts, |ps|);
  }

  /** The metadata that applyPathVars is given to change. */
  class Incoming {
    var md: Metadata

    /** applyPathVars, ranging over the names in `order`. */
    method ApplyPathVars(vars: Vars, order: seq<Bytes>)
      requires Ranges(order, vars)
      modifies this
      ensures md == Applied(old(md), vars, order)
      ensures forall name :: name in vars ==> PREFIX + name in md && md[PREFIX + name] == [vars[name]]
      ensures forall key :: (forall name :: name in vars ==> key != PREFIX + name) ==>
                (key in md <==> key in old(md)) && (key in md ==> md[key] == old(md)[key])
    {
      for n := 0 to |order|
        invariant md == Applied(old(md), vars, order[..n])
      {
        var name := order[n];
        assert order[..n + 1][..n] == order[..n];
        md := md[PREFIX + name := [vars[name]]];
      }
      assert order[..|order|] == order;
      AppliedExactly(old(md), vars, order);
    }
  }

  // ------------------------------------------------------------------
  // The letters of a path
  // ------------------------------------------------------------------

  lemma PrefixIs()
    ensures PREFIX == Ascii("x-argos-path-")
  {
  }

  /** The path of a target is what is before its first question mark. */
  lemma {:induction false} PathOnlyCuts(path: Bytes, query: Bytes)
    requires '?' as int !in path
    ensures PathOnly(path) == path && PathOnly(path + ['?' as int] + query) == path
  {
    if path != [] {
      PathOnlyCuts(path[1..], query);
      assert (path + ['?' as int] + query)[1..] == path[1..] + ['?' as int] + query;
    }
  }

  predicate Blank(s: Bytes) {
    forall i :: 0 <= i < |s| ==> s[i] == ' ' as int || 9 <= s[i] <= 13
  }

  lemma {:induction false} TrimLeftIs(a: Bytes, p: Bytes)
    requires Blank(a) && (p == [] || !Blank(p[..1]))
    ensures TrimLeft(a + p) == p
  {
    if a == [] {
      Emptys(p);
      assert p != [] ==> p[..1] == [p[0]];
    } else {
      assert (a + p)[1..] == a[1..] + p;
      TrimLeftIs(a[1..], p);
    }
  }

  lemma {:induction false} TrimRightIs(p: Bytes, b: Bytes)
    requires Blank(b) && (p == [] || !Blank(p[|p| - 1..]))
    ensures TrimRight(p + b) == p
    decreases |b|
  {
    if b == [] {
      Emptys(p);
      assert p != [] ==> p[|p| - 1..] == [p[|p| - 1]];
    } else {
      assert (p + b)[..|p + b| - 1] == p + b[..|b| - 1];
      TrimRightIs(p, b[..|b| - 1]);
    }
  }

  /** A pattern loses the white space around it and gains a slash in front when it has none; of white space
      nothing is left. */
  lemma NormalizeIs(a: Bytes, p: Bytes, b: Bytes)
    requires Blank(a) && Blank(b) && (p == [] || (!Blank(p[..1]) && !Blank(p[|p| - 1..])))
    ensures Normalize(a + (p + b)) == if p == [] || p[0] == '/' as int then p else ['/' as int] + p
  {
    if p == [] {
      assert a + (p + b) == (a + b) + [];
      TrimLeftIs(a + b, []);
    } else {
      assert (p + b)[..1] == p[..1];
      TrimLeftIs(a, p + b);
      TrimRightIs(p, b);
    }
  }

  /** The value there is for a path variable: the first under its key. */
  predicate HasValue(md: Metadata, name: Bytes) {
    PREFIX + name in md && md[PREFIX + name] != [] && md[PREFIX + name][0] != []
  }

  /** What stands in a path for a segment of its pattern. */
  function InPath(seg: Bytes, md: Metadata): Bytes {
    if IsVar(seg) && HasValue(md, NameOf(seg)) then md[PREFIX + NameOf(seg)][0] else seg
  }

  /** A path is built if and only if every variable has a value, and then it is the segments of the pattern with
      each variable's value in its place; of a blank pattern, a slash. */
  lemma BuildsExactly(p: Bytes, md: Metadata, parts: seq<Bytes>)
    requires |parts| == |Segments(p)|
    requires forall i :: 0 <= i < |parts| ==> parts[i] == InPath(Segments(p)[i], md)
    ensures Build(p, md).Some? <==>
              forall i :: 0 <= i < |Segments(p)| && IsVar(Segments(p)[i]) ==> HasValue(md, NameOf(Segments(p)[i]))
    ensures Build(p, md).Some? ==>
              Build(p, md).value == if Normalize(p) == [] then ['/' as int] else JoinWith(parts, '/' as int)
  {
    var segs := Segments(p);
    SegmentsAre(p);
    forall i | 0 <= i < |segs|
      ensures Fill(segs[i], md).Some? <==> (IsVar(segs[i]) ==> HasValue(md, NameOf(segs[i])))
      ensures Fill(segs[i], md).Some? ==> Fill(segs[i], md).value == parts[i]
    {
    }
    var filled := FillAll(segs, md);
    if filled.Some? {
      forall i | 0 <= i < |segs| ensures Fill(segs[i], md) == Some(filled.value[i]) && filled.value[i] == parts[i] {
      }
      assert filled.value == parts;
    }
  }
}

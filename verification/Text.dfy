/** Splitting and joining at a separator byte, as `strings.Split` and `strings.Join` do. */
module Text {
  import opened Seqs
  import opened Decimal

  function SplitOn(s: Bytes, sep: Byte): (parts: seq<Bytes>)
    ensures parts != []
  {
    if s == [] then [[]]
    else
      var rest := SplitOn(s[1..], sep);
      if s[0] == sep then [[]] + rest else [[s[0]] + rest[0]] + rest[1..]
  }

  function JoinWith(parts: seq<Bytes>, sep: Byte): Bytes {
    if parts == [] then []
    else if |parts| == 1 then parts[0]
    else parts[0] + [sep] + JoinWith(parts[1..], sep)
  }

  ghost predicate NoneHas(parts: seq<Bytes>, sep: Byte) {
    forall i :: 0 <= i < |parts| ==> sep !in parts[i]
  }

  lemma {:induction false} SplitWhole(s: Bytes, sep: Byte)
    requires sep !in s
    ensures SplitOn(s, sep) == [s]
  {
    if s != [] {
      SplitWhole(s[1..], sep);
      assert [s[0]] + s[1..] == s;
    }
  }

  lemma {:induction false} SplitFirst(a: Bytes, x: Bytes, sep: Byte)
    requires sep !in a
    ensures SplitOn(a + [sep] + x, sep) == [a] + SplitOn(x, sep)
  {
    var s := a + [sep] + x;
    if a == [] {
      assert s[1..] == x;
    } else {
      SplitFirst(a[1..], x, sep);
      assert s[1..] == a[1..] + [sep] + x;
      assert s[0] == a[0] != sep;
      var t := [a[1..]] + SplitOn(x, sep);
      assert t[1..] == SplitOn(x, sep);
      assert [a[0]] + a[1..] == a;
    }
  }

  /** Splitting what was joined. */
  lemma {:induction false} SplitJoin(parts: seq<Bytes>, sep: Byte)
    requires parts != [] && NoneHas(parts, sep)
    ensures SplitOn(JoinWith(parts, sep), sep) == parts
  {
    if |parts| == 1 {
      SplitWhole(parts[0], sep);
    } else {
      SplitJoin(parts[1..], sep);
      SplitFirst(parts[0], JoinWith(parts[1..], sep), sep);
      assert [parts[0]] + parts[1..] == parts;
    }
  }

  /** Joining what was split. */
  lemma {:induction false} JoinSplit(s: Bytes, sep: Byte)
    ensures JoinWith(SplitOn(s, sep), sep) == s && NoneHas(SplitOn(s, sep), sep)
  {
    if s != [] {
      JoinSplit(s[1..], sep);
      var rest := SplitOn(s[1..], sep);
      if s[0] == sep {
        JoinCons([], rest, sep);
        assert [] + [sep] + s[1..] == s;
      } else {
        var parts := SplitOn(s, sep);
        assert parts[1..] == rest[1..];
        if |rest| > 1 {
          Assoc([s[0]], rest[0], [sep]);
          Assoc([s[0]], rest[0] + [sep], JoinWith(rest[1..], sep));
        }
        assert [s[0]] + s[1..] == s;
      }
    }
  }

  lemma JoinCons(a: Bytes, rest: seq<Bytes>, sep: Byte)
    requires rest != []
    ensures JoinWith([a] + rest, sep) == a + [sep] + JoinWith(rest, sep)
  {
    assert ([a] + rest)[1..] == rest;
  }

  /** The bytes before the first `sep`, all of them when there is none. */
  function Before(s: Bytes, sep: Byte): (r: Bytes)
    ensures sep !in r && r <= s
    ensures sep !in s ==> r == s
  {
    if s == [] || s[0] == sep then [] else [s[0]] + Before(s[1..], sep)
  }
}

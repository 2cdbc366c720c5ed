/** User metadata as headers (`transport/grpc/metadata.go`, `transport/grpc/reserved.go`).  A Go map has
    no order of its own: wherever the source ranges over one, the order is a parameter here. */
module GrpcMetadata {
  import opened Seqs
  import opened Decimal
  import opened Text
  import Base64

  datatype Header = Header(name: string, value: Bytes)

  type Metadata = map<string, seq<Bytes>>

  const COMMA: Byte := 44

  function LowerChar(c: char): char {
    if 'A' <= c <= 'Z' then (c as int + 32) as char else c
  }

  /** strings.ToLower, on ASCII. */
  function Lower(s: string): (r: string)
    ensures |r| == |s| && forall i :: 0 <= i < |s| ==> r[i] == LowerChar(s[i])
  {
    if s == [] then [] else [LowerChar(s[0])] + Lower(s[1..])
  }

  predicate IsReserved(key: string) {
    || (key != "" && key[0] == ':')
    || key in {"content-type", "user-agent", "grpc-message-type", "grpc-encoding", "grpc-message", "grpc-status",
               "grpc-timeout", "te"}
  }

  predicate IsWhitelisted(key: string) {
    key in {":authority", "user-agent"}
  }

  predicate IsBin(key: string) {
    |key| >= 4 && key[|key| - 4..] == "-bin"
  }

  // ------------------------------------------------------------------
  // One value
  // ------------------------------------------------------------------

  /** encodeMetadataValue */
  function EncodeValue(key: string, v: Bytes): Bytes {
    if IsBin(key) then Base64.Encode(v, false) else v
  }

  /** decodeBinHeader: padded when the length says it may be. */
  function DecodeBin(v: Bytes): Option<Bytes> {
    Base64.Decode(v, |v| % 4 == 0)
  }

  /** All the values, None when one is missing. */
  function AllSome(os: seq<Option<Bytes>>): (r: Option<seq<Bytes>>)
    ensures r.Some? <==> forall i :: 0 <= i < |os| ==> os[i].Some?
    ensures r.Some? ==> |r.value| == |os| && forall i :: 0 <= i < |os| ==> os[i] == Some(r.value[i])
  {
    if os == [] then Some([])
    else
      var last := |os| - 1;
      var before := AllSome(os[..last]);
      assert before.None? ==> exists i :: 0 <= i < last && os[..last][i].None?;
      assert forall i :: 0 <= i < last ==> os[..last][i] == os[i];
      if before.None? || os[last].None? then None else Some(before.value + [os[last].value])
  }

  /** Each of `parts` decoded, None when one of them cannot be. */
  function DecodeParts(parts: seq<Bytes>): (r: Option<seq<Bytes>>)
    ensures r.Some? ==> |r.value| == |parts|
  {
    AllSome(seq(|parts|, i requires 0 <= i < |parts| => DecodeBin(parts[i])))
  }

  /** decodeMetadataValues */
  function DecodeValues(key: string, v: Bytes): (r: Option<seq<Bytes>>)
    ensures r.Some? ==> r.value != []
  {
    if !IsBin(key) then Some([v]) else DecodeParts(SplitOn(v, COMMA))
  }

  lemma GroupsOfFour(n: nat, q: nat, r: nat)
    requires n == 4 * q + r && r <= 4
    ensures n % 4 == 0 <==> r == 0 || r == 4
  {
  }

  lemma DecodesAs(v: Bytes, padded: bool)
    requires |v| % 4 == 0 <==> padded
    ensures DecodeBin(v) == Base64.Decode(v, padded)
  {
  }

  /** An encoding of `b`, padded or not, decodes to it whichever it is: the choice by length is right. */
  lemma DecodesEither(b: Bytes, padded: bool)
    ensures DecodeBin(Base64.Encode(b, padded)) == Some(b)
  {
    var v := Base64.Encode(b, padded);
    Base64.CountIs(b, padded);
    GroupsOfFour(|v|, |b| / 3, if |b| % 3 == 0 then 0 else if padded then 4 else |b| % 3 + 1);
    if |b| % 3 == 0 {
      Base64.WholeGroups(b);
      Base64.RoundTrip(b, true);
      DecodesAs(v, true);
    } else {
      Base64.RoundTrip(b, padded);
      DecodesAs(v, padded);
    }
  }

  /** Encodings of the values of a list, each padded or not as `padded` says. */
  function EncodeList(list: seq<Bytes>, padded: seq<bool>): (r: seq<Bytes>)
    requires |padded| == |list|
    ensures |r| == |list| && forall i :: 0 <= i < |r| ==> r[i] == Base64.Encode(list[i], padded[i])
  {
    seq(|list|, i requires 0 <= i < |list| => Base64.Encode(list[i], padded[i]))
  }

  lemma PartsDecode(parts: seq<Bytes>, list: seq<Bytes>)
    requires |parts| == |list| && forall i :: 0 <= i < |list| ==> DecodeBin(parts[i]) == Some(list[i])
    ensures DecodeParts(parts) == Some(list)
  {
    var os := seq(|parts|, i requires 0 <= i < |parts| => DecodeBin(parts[i]));
    assert forall i :: 0 <= i < |list| ==> os[i] == Some(list[i]);
    var r := AllSome(os);
    assert r.Some? && forall i :: 0 <= i < |list| ==> r.value[i] == list[i];
    assert r.value == list;
  }

  /** A comma-joined list of binary values, padded or not, decodes to exactly that list; but the empty
      list does not, for a field without a comma still is one value. */
  lemma CommaJoined(key: string, list: seq<Bytes>, padded: seq<bool>)
    requires IsBin(key) && |padded| == |list|
    ensures DecodeValues(key, JoinWith(EncodeList(list, padded), COMMA)) == Some(list) <==> list != []
  {
    var parts := EncodeList(list, padded);
    if list != [] {
      forall i | 0 <= i < |parts| ensures COMMA !in parts[i] {
        Base64.EncodedBytes(list[i], padded[i]);
      }
      forall i | 0 <= i < |parts| ensures DecodeBin(parts[i]) == Some(list[i]) {
        DecodesEither(list[i], padded[i]);
      }
      SplitJoin(parts, COMMA);
      PartsDecode(parts, list);
    }
  }

  lemma ValueRoundTrip(key: string, v: Bytes)
    ensures DecodeValues(key, EncodeValue(key, v)) == Some([v])
  {
    if IsBin(key) {
      CommaJoined(key, [v], [false]);
      assert JoinWith(EncodeList([v], [false]), COMMA) == Base64.Encode(v, false);
    }
  }

  // ------------------------------------------------------------------
  // All of it
  // ------------------------------------------------------------------

  function EncodeKey(key: string, vs: seq<Bytes>): (r: seq<Header>) {
    seq(|vs|, i requires 0 <= i < |vs| => Header(key, EncodeValue(key, vs[i])))
  }

  /** What EncodeMetadata does with one key. */
  function EncodeEntry(k: string, vs: seq<Bytes>): seq<Header> {
    if IsReserved(Lower(k)) then [] else EncodeKey(Lower(k), vs)
  }

  /** EncodeMetadata, ranging over the keys in `order`. */
  function Encode(md: Metadata, order: seq<string>): seq<Header>
    requires forall k :: k in order ==> k in md
  {
    if order == [] then []
    else
      var last := |order| - 1;
      Encode(md, order[..last]) + EncodeEntry(order[last], md[order[last]])
  }

  /** An order a range over `md` may take. */
  ghost predicate Ranges(order: seq<string>, md: Metadata) {
    NoDup(order) && forall k :: k in order <==> k in md
  }

  predicate Exposed(key: string) {
    !IsReserved(key) || IsWhitelisted(key)
  }

  predicate IsMalformed(h: Header) {
    Exposed(Lower(h.name)) && DecodeValues(Lower(h.name), h.value).None?
  }

  /** What DecodeMetadata does with one header. */
  function Add(out: Metadata, h: Header): Metadata {
    var key := Lower(h.name);
    if !Exposed(key) then out
    else
      match DecodeValues(key, h.value)
      case None => out
      case Some(vals) => out[key := (if key in out then out[key] else []) + vals]
  }

  /** DecodeMetadata's result. */
  function Decode(hs: seq<Header>): Metadata {
    if hs == [] then map[] else Add(Decode(hs[..|hs| - 1]), hs[|hs| - 1])
  }

  /** The header DecodeMetadata's error is about. */
  function FirstBad(hs: seq<Header>): (r: Option<Header>)
    ensures r.None? <==> forall i :: 0 <= i < |hs| ==> !IsMalformed(hs[i])
  {
    if hs == [] then None
    else
      var last := |hs| - 1;
      var before := FirstBad(hs[..last]);
      assert forall i :: 0 <= i < last ==> hs[i] == hs[..last][i];
      if before.Some? then
        assert exists i :: 0 <= i < last && IsMalformed(hs[..last][i]);
        before
      else if IsMalformed(hs[last]) then Some(hs[last])
      else None
  }

  /** The values one header contributes to `key`. */
  function Yields(h: Header, key: string): seq<Bytes> {
    if Lower(h.name) != key || !Exposed(key) then []
    else
      match DecodeValues(key, h.value)
      case None => []
      case Some(vals) => vals
  }

  /** The values all headers contribute to `key`, in their order. */
  function ValuesFor(hs: seq<Header>, key: string): seq<Bytes> {
    if hs == [] then [] else ValuesFor(hs[..|hs| - 1], key) + Yields(hs[|hs| - 1], key)
  }

  /** Decoding loses nothing to a malformed value but that value: every key has what its well-formed
      headers give it, in order. */
  lemma {:induction false} DecodedIs(hs: seq<Header>, key: string)
    ensures key in Decode(hs) <==> ValuesFor(hs, key) != []
    ensures key in Decode(hs) ==> Decode(hs)[key] == ValuesFor(hs, key)
  {
    if hs != [] {
      DecodedIs(hs[..|hs| - 1], key);
    }
  }

  lemma {:induction false} ValuesForConcat(a: seq<Header>, b: seq<Header>, key: string)
    ensures ValuesFor(a + b, key) == ValuesFor(a, key) + ValuesFor(b, key)
    decreases |b|
  {
    if b == [] {
      Emptys(a);
      Emptys(ValuesFor(a, key));
    } else {
      var last := |b| - 1;
      ValuesForConcat(a, b[..last], key);
      assert (a + b)[..|a + b| - 1] == a + b[..last];
      Assoc(ValuesFor(a, key), ValuesFor(b[..last], key), Yields(b[last], key));
    }
  }

  lemma ValueYields(key: string, v: Bytes, other: string)
    requires Lower(key) == key && !IsReserved(key)
    ensures Yields(Header(key, EncodeValue(key, v)), other) == if other == key then [v] else []
  {
    ValueRoundTrip(key, v);
  }

  lemma EncodeKeySnoc(key: string, vs: seq<Bytes>, v: Bytes)
    ensures EncodeKey(key, vs + [v]) == EncodeKey(key, vs) + [Header(key, EncodeValue(key, v))]
  {
  }

  lemma ValuesForSnoc(hs: seq<Header>, h: Header, key: string)
    ensures ValuesFor(hs + [h], key) == ValuesFor(hs, key) + Yields(h, key)
  {
    Seam(hs, [h]);
  }

  lemma {:induction false} KeyYields(key: string, vs: seq<Bytes>, other: string)
    requires Lower(key) == key && !IsReserved(key)
    ensures ValuesFor(EncodeKey(key, vs), other) == if other == key then vs else []
    decreases |vs|
  {
    if vs != [] {
      var last := |vs| - 1;
      var v := vs[last];
      KeyYields(key, vs[..last], other);
      EncodeKeySnoc(key, vs[..last], v);
      ValuesForSnoc(EncodeKey(key, vs[..last]), Header(key, EncodeValue(key, v)), other);
      ValueYields(key, v, other);
      assert vs[..last] + [v] == vs;
    }
  }

  lemma LowerTwice(s: string)
    ensures Lower(Lower(s)) == Lower(s)
  {
    assert forall i :: 0 <= i < |s| ==> Lower(Lower(s))[i] == Lower(s)[i];
  }

  /** What the keys of `order` that are `key` in lower case hold between them. */
  function Collected(md: Metadata, order: seq<string>, key: string): seq<Bytes>
    requires forall k :: k in order ==> k in md
  {
    if order == [] then []
    else
      var last := |order| - 1;
      Collected(md, order[..last], key)
      + (if Lower(order[last]) == key && !IsReserved(key) then md[order[last]] else [])
  }

  /** Any metadata, sent and received: under each lower-case key that is not reserved, the values of every
      key that spells it. */
  lemma {:induction false} SentAndReceived(md: Metadata, order: seq<string>, key: string)
    requires forall k :: k in order ==> k in md
    ensures ValuesFor(Encode(md, order), key) == Collected(md, order, key)
    decreases |order|
  {
    if order != [] {
      var last := |order| - 1;
      var k := order[last];
      SentAndReceived(md, order[..last], key);
      ValuesForConcat(Encode(md, order[..last]), EncodeEntry(k, md[k]), key);
      LowerTwice(k);
      if !IsReserved(Lower(k)) {
        KeyYields(Lower(k), md[k], key);
      }
    }
  }

  /** Metadata that travels: lower-case keys, none reserved, none without values. */
  predicate Travels(md: Metadata) {
    forall k :: k in md ==> Lower(k) == k && !IsReserved(k) && md[k] != []
  }

  lemma {:induction false} CollectedIs(md: Metadata, order: seq<string>, key: string)
    requires NoDup(order) && (forall k :: k in order ==> k in md && Lower(k) == k && !IsReserved(k))
    ensures Collected(md, order, key) == if key in order then md[key] else []
    decreases |order|
  {
    if order != [] {
      var last := |order| - 1;
      CollectedIs(md, order[..last], key);
      assert key in order <==> key in order[..last] || key == order[last];
    }
  }

  lemma {:induction false} CollectedNeeds(md: Metadata, order: seq<string>, key: string)
    requires (forall k :: k in order ==> k in md) && Collected(md, order, key) != []
    ensures Lower(key) == key && !IsReserved(key)
    decreases |order|
  {
    var last := |order| - 1;
    if Lower(order[last]) == key {
      LowerTwice(order[last]);
    }
    if Collected(md, order[..last], key) != [] {
      CollectedNeeds(md, order[..last], key);
    }
  }

  lemma Received(md: Metadata, order: seq<string>, key: string)
    requires forall k :: k in order ==> k in md
    ensures var out := Decode(Encode(md, order));
            && (key in out <==> Collected(md, order, key) != [])
            && (key in out ==> out[key] == Collected(md, order, key))
  {
    DecodedIs(Encode(md, order), key);
    SentAndReceived(md, order, key);
  }

  lemma ArrivesWhenItTravels(md: Metadata, order: seq<string>)
    requires Ranges(order, md) && Travels(md)
    ensures Decode(Encode(md, order)) == md
  {
    var out := Decode(Encode(md, order));
    forall key ensures (key in out <==> key in md) && (key in md ==> out[key] == md[key]) {
      Received(md, order, key);
      CollectedIs(md, order, key);
    }
    assert out.Keys == md.Keys;
  }

  lemma TravelsWhenItArrives(md: Metadata, order: seq<string>)
    requires Ranges(order, md) && Decode(Encode(md, order)) == md
    ensures Travels(md)
  {
    forall k | k in md ensures Lower(k) == k && !IsReserved(k) && md[k] != [] {
      Received(md, order, k);
      CollectedNeeds(md, order, k);
    }
  }

  /** Keys as a header may have them; beyond ASCII, strings.ToLower does more than Lower. */
  ghost predicate AsciiKeys(md: Metadata) {
    forall k, i :: k in md && 0 <= i < |k| ==> k[i] < 128 as char
  }

  /** For every order the encoder may range in: what is received is what was sent, values in order,
      exactly when the metadata is of the kind that travels. */
  lemma RoundTrip(md: Metadata, order: seq<string>)
    requires Ranges(order, md) && AsciiKeys(md)
    ensures Decode(Encode(md, order)) == md <==> Travels(md)
  {
    if Travels(md) {
      ArrivesWhenItTravels(md, order);
    }
    if Decode(Encode(md, order)) == md {
      TravelsWhenItArrives(md, order);
    }
  }

  lemma {:induction false} NothingMalformed(md: Metadata, order: seq<string>)
    requires forall k :: k in order ==> k in md
    ensures forall i :: 0 <= i < |Encode(md, order)| ==> !IsMalformed(Encode(md, order)[i])
    decreases |order|
  {
    if order != [] {
      var last := |order| - 1;
      var k := order[last];
      NothingMalformed(md, order[..last]);
      var entry := EncodeEntry(k, md[k]);
      forall i | 0 <= i < |entry| ensures !IsMalformed(entry[i]) {
        LowerTwice(k);
        ValueRoundTrip(Lower(k), md[k][i]);
      }
    }
  }

  // ------------------------------------------------------------------
  // The functions of the source
  // ------------------------------------------------------------------

  lemma EncodeNext(md: Metadata, order: seq<string>, n: nat)
    requires n < |order| && forall k :: k in order ==> k in md
    ensures Encode(md, order[..n + 1]) == Encode(md, order[..n]) + EncodeEntry(order[n], md[order[n]])
  {
    assert order[..n + 1][..n] == order[..n];
  }

  lemma DecodeNext(hs: seq<Header>, n: nat)
    requires n < |hs|
    ensures Decode(hs[..n + 1]) == Add(Decode(hs[..n]), hs[n])
    ensures FirstBad(hs[..n + 1]) ==
            if FirstBad(hs[..n]).Some? then FirstBad(hs[..n])
            else if IsMalformed(hs[n]) then Some(hs[n])
            else None
  {
    assert hs[..n + 1][..n] == hs[..n];
  }

  /** EncodeMetadata */
  method EncodeMetadata(md: Metadata, order: seq<string>) returns (out: seq<Header>)
    requires Ranges(order, md)
    ensures out == Encode(md, order)
  {
    out := [];
    for n := 0 to |order|
      invariant out == Encode(md, order[..n])
    {
      var k := order[n];
      EncodeNext(md, order, n);
      var key := Lower(k);
      if IsReserved(key) {
        Emptys(out);
        continue;
      }
      out := AppendValues(out, key, md[k]);
    }
    assert order[..|order|] == order;
  }

  /** EncodeMetadata's loop over the values of one key. */
  method AppendValues(out: seq<Header>, key: string, vs: seq<Bytes>) returns (r: seq<Header>)
    ensures r == out + EncodeKey(key, vs)
  {
    r := out;
    ghost var all := EncodeKey(key, vs);
    Emptys(out);
    for i := 0 to |vs|
      invariant r == out + all[..i]
    {
      assert all[..i + 1] == all[..i] + [all[i]];
      Assoc(out, all[..i], [all[i]]);
      r := r + [Header(key, EncodeValue(key, vs[i]))];
    }
    Emptys(all);
  }

  /** decodeMetadataValues */
  method DecodeMetadataValues(key: string, v: Bytes) returns (r: Option<seq<Bytes>>)
    ensures r == DecodeValues(key, v)
  {
    if !IsBin(key) {
      return Some([v]);
    }
    var parts := SplitOn(v, COMMA);
    var out := [];
    for i := 0 to |parts|
      invariant |out| == i && forall j :: 0 <= j < i ==> DecodeBin(parts[j]) == Some(out[j])
    {
      var b := DecodeBin(parts[i]);
      if b.None? {
        BadPart(parts, i);
        return None;
      }
      out := out + [b.value];
    }
    PartsDecode(parts, out);
    return Some(out);
  }

  lemma BadPart(parts: seq<Bytes>, i: nat)
    requires i < |parts| && DecodeBin(parts[i]).None?
    ensures DecodeParts(parts).None?
  {
    var os := seq(|parts|, j requires 0 <= j < |parts| => DecodeBin(parts[j]));
    assert os[i].None?;
  }

  /** DecodeMetadata; `bad` is the header its error is about. */
  method DecodeMetadata(hs: seq<Header>) returns (out: Metadata, bad: Option<Header>)
    ensures out == Decode(hs) && bad == FirstBad(hs)
  {
    out, bad := map[], None;
    for i := 0 to |hs|
      invariant out == Decode(hs[..i]) && bad == FirstBad(hs[..i])
    {
      var h := hs[i];
      DecodeNext(hs, i);
      var key := Lower(h.name);
      if IsReserved(key) && !IsWhitelisted(key) {
        continue;
      }
      var vals := DecodeMetadataValues(key, h.value);
      if vals.None? {
        if bad.None? {
          bad := Some(h);
        }
        continue;
      }
      out := out[key := (if key in out then out[key] else []) + vals.value];
    }
    assert hs[..|hs|] == hs;
  }

  // ------------------------------------------------------------------
  // The names of the format
  // ------------------------------------------------------------------

  /** Binary are the keys that end in "-bin". */
  lemma BinaryKeys(key: string)
    ensures IsBin(key) <==> exists k: string :: key == k + "-bin"
  {
    if IsBin(key) {
      assert key == key[..|key| - 4] + "-bin";
    }
  }

  /** Reserved are the pseudo-headers and the protocol's own eight; three that look like those are not. */
  lemma ReservedNames(name: string)
    ensures IsReserved(":" + name)
    ensures IsReserved("content-type") && IsReserved("user-agent") && IsReserved("te")
    ensures IsReserved("grpc-message-type") && IsReserved("grpc-encoding") && IsReserved("grpc-message")
    ensures IsReserved("grpc-status") && IsReserved("grpc-timeout")
    ensures !IsReserved("grpc-previous-rpc-attempts") && !IsReserved("grpc-retry-pushback-ms")
    ensures !IsReserved("grpc-accept-encoding")
    ensures IsReserved(name) ==>
              (name != "" && name[0] == ':')
              || name in {"content-type", "user-agent", "te", "grpc-message-type", "grpc-encoding", "grpc-message",
                          "grpc-status", "grpc-timeout"}
  {
  }

  /** Of the reserved keys, a receiver sees :authority and user-agent and no other. */
  lemma ReservedSeen(hs: seq<Header>, key: string)
    requires IsReserved(key)
    ensures key in Decode(hs) ==> key == ":authority" || key == "user-agent"
    ensures forall i :: 0 <= i < |hs| && hs[i].name == key && (key == ":authority" || key == "user-agent")
                        ==> key in Decode(hs)
  {
    DecodedIs(hs, key);
    HiddenYieldsNothing(hs, key);
    forall i | 0 <= i < |hs| && hs[i].name == key && (key == ":authority" || key == "user-agent")
      ensures key in Decode(hs)
    {
      ShownYields(key, hs[i].value);
      YieldsShow(hs, key, i);
    }
  }

  lemma ShownYields(key: string, v: Bytes)
    requires key == ":authority" || key == "user-agent"
    ensures Yields(Header(key, v), key) == [v]
  {
    AuthorityIsText();
    AgentIsText();
    TextYields(key, v);
  }

  lemma {:induction false} HiddenYieldsNothing(hs: seq<Header>, key: string)
    ensures IsReserved(key) && key != ":authority" && key != "user-agent" ==> ValuesFor(hs, key) == []
  {
    if hs != [] {
      HiddenYieldsNothing(hs[..|hs| - 1], key);
    }
  }

  lemma StaysLower(s: string)
    requires forall i :: 0 <= i < |s| ==> !('A' <= s[i] <= 'Z')
    ensures Lower(s) == s
  {
  }

  lemma AuthorityIsText()
    ensures Lower(":authority") == ":authority" && !IsBin(":authority")
  {
    var key := ":authority";
    assert key[|key| - 4..][3] == 'y';
    StaysLower(key);
  }

  lemma AgentIsText()
    ensures Lower("user-agent") == "user-agent" && !IsBin("user-agent")
  {
    var key := "user-agent";
    assert key[|key| - 4..][3] == 't';
    StaysLower(key);
  }

  lemma TextYields(key: string, v: Bytes)
    requires Lower(key) == key && IsWhitelisted(key) && !IsBin(key)
    ensures Yields(Header(key, v), key) == [v]
  {
  }

  lemma {:induction false} YieldsShow(hs: seq<Header>, key: string, i: nat)
    requires i < |hs| && Yields(hs[i], key) != []
    ensures ValuesFor(hs, key) != []
    decreases |hs|
  {
    if i < |hs| - 1 {
      YieldsShow(hs[..|hs| - 1], key, i);
    }
  }

  /** Binary values go out without padding. */
  lemma SentUnpadded(key: string, v: Bytes)
    ensures if exists k: string :: key == k + "-bin" then
              EncodeValue(key, v) == Base64.Encode(v, false) && '=' as int !in EncodeValue(key, v)
            else EncodeValue(key, v) == v
  {
    BinaryKeys(key);
    if IsBin(key) {
      Base64.Unpadded(v);
    }
  }

  lemma NoneBad(hs: seq<Header>, n: nat)
    requires n <= |hs| && forall j :: 0 <= j < n ==> !IsMalformed(hs[j])
    ensures FirstBad(hs[..n]).None?
  {
    assert forall j :: 0 <= j < n ==> hs[..n][j] == hs[j];
  }

  /** The error is about the first header with a value that does not decode. */
  lemma {:induction false} FirstBadExactly(hs: seq<Header>, i: nat)
    requires i < |hs| && IsMalformed(hs[i]) && forall j :: 0 <= j < i ==> !IsMalformed(hs[j])
    ensures FirstBad(hs) == Some(hs[i])
    decreases |hs|
  {
    var last := |hs| - 1;
    DecodeNext(hs, last);
    assert hs[..last + 1] == hs;
    if i < last {
      BadStays(hs, i, last);
      FirstBadExactly(hs[..last], i);
    } else {
      NoneBad(hs, i);
    }
  }

  lemma BadStays(hs: seq<Header>, i: nat, n: nat)
    requires i < n <= |hs|
    ensures hs[..n][i] == hs[i] && forall j :: 0 <= j < i ==> hs[..n][j] == hs[j]
  {
  }
}

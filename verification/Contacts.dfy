/** The cache of contact records: merging, eviction and answers. */
module Contacts {
  import opened Basics
  import opened Order
  import opened Routing

  const CACHE_LIMIT := 256

  type Key = Bytes32

  /** A signed record; the addresses and the signature are opaque here. */
  datatype Record = Record(key: Key, sequence: U64, expires: U64, body: seq<Byte>)

  /** What a merge depends on: which records verify now, and who is in the Pack. */
  datatype Context = Context(valid: Record -> bool, own: Key, pack: seq<Key>)

  predicate Supersedes(r: Record, older: Record) {
    r.key == older.key && r.sequence > older.sequence
  }

  predicate Admissible(c: Context, r: Record) {
    r.key != c.own && c.valid(r)
  }

  /** The first position holding a record for `key`, or the length. */
  function Find(merged: seq<Record>, key: Key): (at: nat)
    ensures at <= |merged|
    ensures forall i :: 0 <= i < at ==> merged[i].key != key
    ensures at < |merged| ==> merged[at].key == key
  {
    if merged == [] then 0 else if merged[0].key == key then 0 else 1 + Find(merged[1..], key)
  }

  function MergeOne(c: Context, merged: seq<Record>, r: Record): seq<Record> {
    if !Admissible(c, r) then merged
    else
      var at := Find(merged, r.key);
      if at == |merged| then merged + [r]
      else if Supersedes(r, merged[at]) then merged[at := r]
      else merged
  }

  function Merge(c: Context, records: seq<Record>): seq<Record> {
    if records == [] then []
    else MergeOne(c, Merge(c, records[..|records| - 1]), records[|records| - 1])
  }

  /** Pack members first, then the latest expiry. */
  function Rank(c: Context): Record -> seq<int> {
    (r: Record) => [if r.key in c.pack then 0 else 1, U64_MAX - r.expires]
  }

  function Learn(c: Context, known: seq<Record>, records: seq<Record>): seq<Record> {
    var ordered := SortBy(Rank(c), Merge(c, known + records));
    if |ordered| > CACHE_LIMIT then ordered[..CACHE_LIMIT] else ordered
  }

  // ---------------------------------------------------------------- the merge

  ghost predicate KeysApart(s: seq<Record>) {
    forall i, j :: 0 <= i < j < |s| ==> s[i].key != s[j].key
  }

  /** `best` is an admissible record of its key with the greatest sequence number in the input. */
  ghost predicate Newest(c: Context, records: seq<Record>, best: Record) {
    && best in records
    && Admissible(c, best)
    && forall r :: r in records && Admissible(c, r) && r.key == best.key ==> r.sequence <= best.sequence
  }

  ghost predicate Merged(c: Context, records: seq<Record>, merged: seq<Record>) {
    && KeysApart(merged)
    && (forall r :: r in merged ==> Newest(c, records, r))
    && (forall r :: r in records && Admissible(c, r) ==> exists i :: 0 <= i < |merged| && merged[i].key == r.key)
  }

  lemma {:induction false} MergeStep(c: Context, records: seq<Record>, merged: seq<Record>, r: Record)
    requires Merged(c, records, merged)
    ensures Merged(c, records + [r], MergeOne(c, merged, r))
  {
    hide Admissible;
    var all := records + [r];
    var next := MergeOne(c, merged, r);
    var at := Find(merged, r.key);
    if !Admissible(c, r) {
      forall x | x in next ensures Newest(c, all, x) {
        assert Newest(c, records, x);
      }
    } else if at == |merged| {
      forall x | x in next ensures Newest(c, all, x) {
        FirstOfKey(c, records, merged, r, x);
      }
      Covered(c, records, merged, next, r, |merged|);
    } else if Supersedes(r, merged[at]) {
      forall x | x in next ensures Newest(c, all, x) {
        Superseding(c, records, merged, r, at, x);
      }
      Covered(c, records, merged, next, r, at);
    } else {
      forall x | x in next ensures Newest(c, all, x) {
        NotSuperseding(c, records, merged, r, at, x);
      }
      Covered(c, records, merged, next, r, at);
    }
  }

  lemma {:induction false} FirstOfKey(c: Context, records: seq<Record>, merged: seq<Record>, r: Record, x: Record)
    requires Merged(c, records, merged) && Admissible(c, r) && Find(merged, r.key) == |merged|
    requires x in merged || x == r
    ensures Newest(c, records + [r], x)
  {
    hide Admissible;
    if x in merged {
      assert Newest(c, records, x);
    } else {
      forall y | y in records && Admissible(c, y) ensures y.key != r.key {
        var i :| 0 <= i < |merged| && merged[i].key == y.key;
      }
    }
  }

  lemma {:induction false} Superseding(
      c: Context, records: seq<Record>, merged: seq<Record>, r: Record, at: nat, x: Record)
    requires Merged(c, records, merged) && Admissible(c, r) && at < |merged| && Supersedes(r, merged[at])
    requires x in merged[at := r]
    ensures Newest(c, records + [r], x)
  {
    hide Admissible;
    assert Newest(c, records, merged[at]);
    var k :| 0 <= k < |merged| && merged[at := r][k] == x;
    if k != at {
      assert Newest(c, records, merged[k]);
      assert merged[k].key != merged[at].key;
    }
  }

  lemma {:induction false} NotSuperseding(
      c: Context, records: seq<Record>, merged: seq<Record>, r: Record, at: nat, x: Record)
    requires Merged(c, records, merged) && at < |merged| && merged[at].key == r.key && !Supersedes(r, merged[at])
    requires x in merged
    ensures Newest(c, records + [r], x)
  {
    hide Admissible;
    assert Newest(c, records, x);
    assert forall k :: 0 <= k < |merged| && k != at ==> merged[k].key != merged[at].key;
    var k :| 0 <= k < |merged| && merged[k] == x;
  }

  lemma {:induction false} Covered(
      c: Context, records: seq<Record>, merged: seq<Record>, next: seq<Record>, r: Record, at: nat)
    requires Merged(c, records, merged) && |next| >= |merged| && at < |next| && next[at].key == r.key
    requires forall i :: 0 <= i < |merged| ==> next[i].key == merged[i].key
    ensures forall y :: y in records + [r] && Admissible(c, y) ==> exists i :: 0 <= i < |next| && next[i].key == y.key
  {
    hide Admissible;
    forall y | y in records + [r] && Admissible(c, y) ensures exists i :: 0 <= i < |next| && next[i].key == y.key {
      if y in records {
        var i :| 0 <= i < |merged| && merged[i].key == y.key;
        assert next[i].key == y.key;
      } else {
        assert next[at].key == y.key;
      }
    }
  }

  /** One record per key, none of the own key, and each the newest that is valid now. */
  lemma {:induction false} MergeKeepsNewest(c: Context, records: seq<Record>)
    ensures Merged(c, records, Merge(c, records))
  {
    hide MergeOne;
    if records != [] {
      var before := records[..|records| - 1];
      MergeKeepsNewest(c, before);
      hide Merged;
      MergeStep(c, before, Merge(c, before), records[|records| - 1]);
      assert records == before + [records[|records| - 1]];
    }
  }

  // ---------------------------------------------------------------- eviction

  /** Whether `a` is kept in preference to `b`. */
  predicate Outranks(c: Context, a: Record, b: Record) {
    if (a.key in c.pack) != (b.key in c.pack) then a.key in c.pack else a.expires >= b.expires
  }

  lemma {:induction false} RankOrders(c: Context, a: Record, b: Record)
    requires !Less(Rank(c)(b), Rank(c)(a))
    ensures Outranks(c, a, b)
  {
    var x, y := Rank(c)(b), Rank(c)(a);
    assert x[1..] == [U64_MAX - b.expires] && y[1..] == [U64_MAX - a.expires];
    assert x[1..][1..] == [] && y[1..][1..] == [];
  }

  /** What learning keeps: at most 256 of the merged records, and always the ones that outrank the rest. */
  lemma {:induction false} LearnKeepsTheBest(c: Context, known: seq<Record>, records: seq<Record>)
    ensures var kept := Learn(c, known, records);
      var merged := Merge(c, known + records);
      && |kept| == (if |merged| > CACHE_LIMIT then CACHE_LIMIT else |merged|)
      && KeysApart(kept)
      && (forall r :: r in kept ==> r in merged && r.key != c.own && Newest(c, known + records, r))
      && (forall r, s :: r in kept && s in merged && s !in kept ==> Outranks(c, r, s))
  {
    hide Merge;
    hide Rank;
    hide Outranks;
    var merged := Merge(c, known + records);
    MergeKeepsNewest(c, known + records);
    OrderedMerge(c, merged);
    var ordered := SortBy(Rank(c), merged);
    hide SortBy;
    hide SortedBy;
    var kept := Learn(c, known, records);
    assert kept == ordered[..|kept|];
    PrefixOutranks(c, ordered, |kept|);
    forall r | r in kept ensures r in merged && r.key != c.own && Newest(c, known + records, r) {
      assert r in ordered;
    }
  }

  lemma {:induction false} OrderedMerge(c: Context, merged: seq<Record>)
    requires KeysApart(merged)
    ensures var ordered := SortBy(Rank(c), merged);
      && SortedBy(Rank(c), ordered)
      && KeysApart(ordered)
      && forall r :: r in ordered <==> r in merged
  {
    hide Rank;
    hide Less;
    var ordered := SortBy(Rank(c), merged);
    SortBySorted(Rank(c), merged);
    hide SortBy;
    hide SortedBy;
    forall r ensures r in ordered <==> r in merged {
      SameMembers(ordered, merged, r);
    }
    var clash := (a: Record, b: Record) => a.key == b.key;
    assert Apart(clash, merged);
    ApartPermuted(clash, merged, ordered);
    assert forall i, j :: 0 <= i < j < |ordered| ==> !clash(ordered[i], ordered[j]);
  }

  lemma {:induction false} PrefixOutranks(c: Context, ordered: seq<Record>, n: nat)
    requires SortedBy(Rank(c), ordered) && n <= |ordered|
    ensures forall r, s :: r in ordered[..n] && s in ordered && s !in ordered[..n] ==> Outranks(c, r, s)
  {
    hide Rank;
    hide Less;
    hide Outranks;
    var kept := ordered[..n];
    assert forall k :: 0 <= k < n ==> ordered[k] in kept;
    forall r, s | r in kept && s in ordered && s !in kept ensures Outranks(c, r, s) {
      var i :| 0 <= i < |kept| && kept[i] == r;
      var j :| 0 <= j < |ordered| && ordered[j] == s;
      assert j >= n && ordered[i] == r;
      RankOrders(c, r, s);
    }
  }

  // ---------------------------------------------------------------- learning again

  lemma {:induction false} MergeDistinct(c: Context, records: seq<Record>)
    requires KeysApart(records) && forall r :: r in records ==> Admissible(c, r)
    ensures Merge(c, records) == records
  {
    hide Admissible;
    if records != [] {
      var before, last := records[..|records| - 1], records[|records| - 1];
      MergeDistinct(c, before);
      assert records == before + [last];
      assert Find(before, last.key) == |before|;
    }
  }

  lemma {:induction false} PrefixSorted(key: Record -> seq<int>, s: seq<Record>, n: nat)
    requires SortedBy(key, s) && n <= |s|
    ensures SortedBy(key, s[..n])
  {
    hide Less;
  }

  /** A cache that has learnt is settled: learning nothing new changes neither content nor order. */
  lemma {:induction false} LearnSettles(c: Context, known: seq<Record>, records: seq<Record>)
    ensures var kept := Learn(c, known, records);
      Learn(c, kept, []) == kept
  {
    hide Less;
    hide Rank;
    var kept := Learn(c, known, records);
    LearnKeepsTheBest(c, known, records);
    assert kept + [] == kept;
    hide Merge;
    MergeDistinct(c, kept);
    var ordered := SortBy(Rank(c), Merge(c, known + records));
    SortBySorted(Rank(c), Merge(c, known + records));
    hide SortBy;
    PrefixSorted(Rank(c), ordered, |kept|);
    assert kept == ordered[..|kept|];
    SortByFixed(Rank(c), kept);
  }

  // ---------------------------------------------------------------- the merge as a loop

  method LearnRecords(c: Context, known: seq<Record>, records: seq<Record>) returns (merged: seq<Record>)
    ensures merged == Learn(c, known, records)
  {
    hide Rank;
    hide SortBy;
    hide Admissible;
    var all := known + records;
    merged := [];
    for n := 0 to |all|
      invariant merged == Merge(c, all[..n])
    {
      var r := all[n];
      assert all[..n + 1][..n] == all[..n];
      if Admissible(c, r) {
        var at := 0;
        while at < |merged| && merged[at].key != r.key
          invariant at <= |merged|
          invariant forall i :: 0 <= i < at ==> merged[i].key != r.key
        {
          at := at + 1;
        }
        if at == |merged| {
          merged := merged + [r];
        } else if Supersedes(r, merged[at]) {
          merged := merged[at := r];
        }
      }
    }
    assert all[..|all|] == all;
    merged := SortBy(Rank(c), merged);
    if |merged| > CACHE_LIMIT {
      merged := merged[..CACHE_LIMIT];
    }
  }

  // ---------------------------------------------------------------- answering a lookup

  function Keep(s: seq<Record>, p: Record -> bool): (r: seq<Record>)
    ensures forall x :: x in r <==> x in s && p(x)
  {
    if s == [] then [] else if p(s[0]) then [s[0]] + Keep(s[1..], p) else Keep(s[1..], p)
  }

  function ByNode(nodeId: Key -> NodeId, target: NodeId): Record -> seq<int> {
    (r: Record) => DistanceKey(target, nodeId(r.key))
  }

  /** Pack contacts other than the requester, nearest first, those that verify now, at most `k`. */
  function Answer(
      nodeId: Key -> NodeId, valid: Record -> bool, known: seq<Record>, pack: seq<Key>,
      requester: Key, target: NodeId, k: nat): seq<Record>
  {
    var candidates := Keep(known, (r: Record) => r.key != requester && r.key in pack);
    var found := Keep(SortBy(ByNode(nodeId, target), candidates), valid);
    if k < |found| then found[..k] else found
  }

  lemma {:induction false} KeepSorted(key: Record -> seq<int>, s: seq<Record>, p: Record -> bool)
    requires SortedBy(key, s)
    ensures SortedBy(key, Keep(s, p))
  {
    hide Less;
    if s != [] {
      KeepSorted(key, s[1..], p);
      if p(s[0]) {
        var rest := Keep(s[1..], p);
        forall j | 0 <= j < |rest| ensures !Less(key(rest[j]), key(s[0])) {
          assert rest[j] in s[1..];
          var i :| 0 <= i < |s[1..]| && s[1..][i] == rest[j];
          assert s[i + 1] == rest[j];
        }
      }
    }
  }

  /** An answer names only valid Pack contacts other than the requester, and leaves out none that is
      closer to the target than one it names. */
  lemma {:induction false} AnswerIsNearest(
      nodeId: Key -> NodeId, valid: Record -> bool, known: seq<Record>, pack: seq<Key>,
      requester: Key, target: NodeId, k: nat)
    ensures var answer := Answer(nodeId, valid, known, pack, requester, target, k);
      && |answer| <= k
      && SortedBy(ByNode(nodeId, target), answer)
      && (forall r :: r in answer ==> r in known && valid(r) && r.key in pack && r.key != requester)
      && (forall r, s :: r in answer && s in known && valid(s) && s.key in pack && s.key != requester && s !in answer
            ==> !Less(ByNode(nodeId, target)(s), ByNode(nodeId, target)(r)))
      && (|answer| < k ==> forall s :: s in known && valid(s) && s.key in pack && s.key != requester ==> s in answer)
  {
    hide Less;
    hide ByNode;
    var key := ByNode(nodeId, target);
    var candidates := Keep(known, (r: Record) => r.key != requester && r.key in pack);
    var found := Keep(SortBy(key, candidates), valid);
    FoundInOrder(key, candidates, valid);
    hide SortBy;
    hide SortedBy;
    hide Keep;
    var answer := Answer(nodeId, valid, known, pack, requester, target, k);
    assert answer == found[..|answer|];
    PrefixNearest(key, found, |answer|);
  }

  lemma {:induction false} FoundInOrder(key: Record -> seq<int>, candidates: seq<Record>, valid: Record -> bool)
    ensures var found := Keep(SortBy(key, candidates), valid);
      SortedBy(key, found) && forall x :: x in found <==> x in candidates && valid(x)
  {
    hide Less;
    var ordered := SortBy(key, candidates);
    SortBySorted(key, candidates);
    forall x ensures x in ordered <==> x in candidates {
      SameMembers(ordered, candidates, x);
    }
    hide SortBy;
    KeepSorted(key, ordered, valid);
  }

  lemma {:induction false} PrefixNearest(key: Record -> seq<int>, found: seq<Record>, n: nat)
    requires SortedBy(key, found) && n <= |found|
    ensures SortedBy(key, found[..n])
    ensures forall r, s :: r in found[..n] && s in found && s !in found[..n] ==> !Less(key(s), key(r))
  {
    hide Less;
    var answer := found[..n];
    PrefixSorted(key, found, n);
    assert forall i :: 0 <= i < n ==> found[i] in answer;
    forall r, s | r in answer && s in found && s !in answer ensures !Less(key(s), key(r)) {
      var i :| 0 <= i < |answer| && answer[i] == r;
      var j :| 0 <= j < |found| && found[j] == s;
      assert j >= n;
    }
  }
}

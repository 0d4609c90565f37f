/** Lexicographic order, strictly sorted key lists and stable sorting.

    Rust compares arrays, strings, tuples and integers lexicographically; each
    is compared here through its image as a sequence of integers. */
module Order {
  import opened Basics

  predicate Less(a: seq<int>, b: seq<int>) {
    b != [] && (a == [] || a[0] < b[0] || (a[0] == b[0] && Less(a[1..], b[1..])))
  }

  lemma {:induction false} LessIrreflexive(a: seq<int>)
    ensures !Less(a, a)
  {
    if a != [] {
      LessIrreflexive(a[1..]);
    }
  }

  lemma {:induction false} LessTransitive(a: seq<int>, b: seq<int>, c: seq<int>)
    requires Less(a, b) && Less(b, c)
    ensures Less(a, c)
  {
    if a != [] && a[0] == b[0] == c[0] {
      LessTransitive(a[1..], b[1..], c[1..]);
    }
  }

  lemma {:induction false} LessTotal(a: seq<int>, b: seq<int>)
    ensures Less(a, b) || a == b || Less(b, a)
  {
    if a != [] && b != [] && a[0] == b[0] {
      LessTotal(a[1..], b[1..]);
      assert a == [a[0]] + a[1..] && b == [b[0]] + b[1..];
    }
  }

  lemma {:induction false} LessAsymmetric(a: seq<int>, b: seq<int>)
    requires Less(a, b)
    ensures !Less(b, a)
  {
    if Less(b, a) {
      LessTransitive(a, b, a);
      LessIrreflexive(a);
    }
  }

  // ---------------------------------------------------------------- sorted key lists

  predicate StrictlySorted(s: seq<Bytes32>) {
    forall i, j :: 0 <= i < j < |s| ==> Less(s[i], s[j])
  }

  /** `windows(2).all(|pair| pair[0] < pair[1])` */
  predicate AdjacentSorted(s: seq<Bytes32>) {
    forall i :: 0 <= i < |s| - 1 ==> Less(s[i], s[i + 1])
  }

  lemma {:induction false} AdjacentIsStrict(s: seq<Bytes32>)
    ensures AdjacentSorted(s) <==> StrictlySorted(s)
  {
    hide Less;
    if AdjacentSorted(s) {
      forall i, j | 0 <= i < j < |s| ensures Less(s[i], s[j]) {
        AdjacentReach(s, i, j);
      }
    }
  }

  lemma {:induction false} AdjacentReach(s: seq<Bytes32>, i: nat, j: nat)
    requires AdjacentSorted(s) && i < j < |s|
    ensures Less(s[i], s[j])
    decreases j
  {
    hide Less;
    if i < j - 1 {
      AdjacentReach(s, i, j - 1);
      LessTransitive(s[i], s[j - 1], s[j]);
    }
  }

  lemma {:induction false} SortedDistinct(s: seq<Bytes32>)
    requires StrictlySorted(s)
    ensures forall i, j :: 0 <= i < j < |s| ==> s[i] != s[j]
  {
    hide Less;
    forall i, j | 0 <= i < j < |s| ensures s[i] != s[j] {
      LessIrreflexive(s[i]);
    }
  }

  /** A strictly sorted list is determined by its members. */
  lemma {:induction false} SortedUnique(s: seq<Bytes32>, t: seq<Bytes32>)
    requires StrictlySorted(s) && StrictlySorted(t) && Elems(s) == Elems(t)
    ensures s == t
  {
    hide Less;
    EmptyTogether(s, t);
    if s != [] {
      FirstIsLeast(s, t);
      FirstIsLeast(t, s);
      LessTotal(s[0], t[0]);
      assert s[0] == t[0];
      SortedDistinct(s);
      SortedDistinct(t);
      assert Elems(s[1..]) == Elems(s) - {s[0]};
      assert Elems(t[1..]) == Elems(t) - {t[0]};
      SortedUnique(s[1..], t[1..]);
      assert s == [s[0]] + s[1..] && t == [t[0]] + t[1..];
    }
  }

  lemma {:induction false} EmptyTogether<T>(s: seq<T>, t: seq<T>)
    requires Elems(s) == Elems(t)
    ensures s == [] <==> t == []
  {
    assert s != [] ==> s[0] in Elems(t);
    assert t != [] ==> t[0] in Elems(s);
  }

  lemma {:induction false} FirstIsLeast(s: seq<Bytes32>, t: seq<Bytes32>)
    requires StrictlySorted(s) && s != [] && t != [] && Elems(s) == Elems(t)
    ensures !Less(t[0], s[0])
  {
    hide Less;
    assert t[0] in Elems(s);
    var i :| 0 <= i < |s| && s[i] == t[0];
    if i == 0 {
      LessIrreflexive(s[0]);
    } else {
      LessAsymmetric(s[0], s[i]);
    }
  }

  /** The sorted list with `k` added, unchanged when `k` is present. */
  function Insert(s: seq<Bytes32>, k: Bytes32): (r: seq<Bytes32>)
    ensures Elems(r) == Elems(s) + {k}
  {
    if s == [] then [k]
    else if s[0] == k then s
    else if Less(k, s[0]) then [k] + s
    else
      var t := Insert(s[1..], k);
      assert Elems([s[0]] + t) == {s[0]} + Elems(t);
      assert Elems(s) == {s[0]} + Elems(s[1..]);
      [s[0]] + t
  }

  lemma {:induction false} ConsSorted(k: Bytes32, t: seq<Bytes32>)
    requires StrictlySorted(t)
    requires forall i :: 0 <= i < |t| ==> Less(k, t[i])
    ensures StrictlySorted([k] + t)
  {
    hide Less;
  }

  lemma {:induction false} TailSorted(s: seq<Bytes32>)
    requires StrictlySorted(s) && s != []
    ensures StrictlySorted(s[1..])
    ensures forall x :: x in s[1..] ==> Less(s[0], x)
  {
    hide Less;
  }

  lemma {:induction false} InsertSorted(s: seq<Bytes32>, k: Bytes32)
    requires StrictlySorted(s)
    ensures StrictlySorted(Insert(s, k))
  {
    hide Less;
    if s != [] && s[0] != k {
      TailSorted(s);
      if Less(k, s[0]) {
        forall i | 0 <= i < |s| ensures Less(k, s[i]) {
          if i > 0 {
            LessTransitive(k, s[0], s[i]);
          }
        }
        ConsSorted(k, s);
      } else {
        InsertSorted(s[1..], k);
        LessTotal(s[0], k);
        var t := Insert(s[1..], k);
        hide StrictlySorted;
        forall i | 0 <= i < |t| ensures Less(s[0], t[i]) {
          assert t[i] in Elems(s[1..]) + {k};
        }
        ConsSorted(s[0], t);
      }
    }
  }

  /** The sorted list without `k`. */
  function Remove(s: seq<Bytes32>, k: Bytes32): (r: seq<Bytes32>)
    ensures |r| <= |s|
  {
    if s == [] then []
    else if s[0] == k then s[1..]
    else [s[0]] + Remove(s[1..], k)
  }

  lemma {:induction false} RemoveSorted(s: seq<Bytes32>, k: Bytes32)
    requires StrictlySorted(s)
    ensures StrictlySorted(Remove(s, k)) && Elems(Remove(s, k)) == Elems(s) - {k}
  {
    hide Less;
    if s != [] {
      SortedDistinct(s);
      ElemsOfCons(s);
      if s[0] != k {
        RemoveSorted(s[1..], k);
        var t := Remove(s[1..], k);
        forall x | x in t ensures Less(s[0], x) {
          assert x in Elems(t);
          assert x in Elems(s[1..]);
        }
        ElemsOfCons([s[0]] + t);
        assert ([s[0]] + t)[1..] == t;
      }
    }
  }

  lemma {:induction false} InsertLength(s: seq<Bytes32>, k: Bytes32)
    requires StrictlySorted(s)
    ensures |Insert(s, k)| == |s| + (if k in s then 0 else 1)
  {
    hide Less;
    if s != [] && s[0] != k {
      if Less(k, s[0]) {
        forall i | 0 <= i < |s| ensures s[i] != k {
          if i > 0 {
            LessTransitive(k, s[0], s[i]);
          }
          LessIrreflexive(k);
        }
      } else {
        InsertLength(s[1..], k);
      }
    }
  }

  function InsertAll(s: seq<Bytes32>, ks: seq<Bytes32>): seq<Bytes32> {
    if ks == [] then s else Insert(InsertAll(s, ks[..|ks| - 1]), ks[|ks| - 1])
  }

  function RemoveAll(s: seq<Bytes32>, ks: seq<Bytes32>): seq<Bytes32> {
    if ks == [] then s else Remove(RemoveAll(s, ks[..|ks| - 1]), ks[|ks| - 1])
  }

  lemma {:induction false} InsertAllSorted(s: seq<Bytes32>, ks: seq<Bytes32>)
    requires StrictlySorted(s)
    ensures StrictlySorted(InsertAll(s, ks))
    ensures Elems(InsertAll(s, ks)) == Elems(s) + Elems(ks)
    ensures |InsertAll(s, ks)| <= |s| + |ks|
  {
    hide StrictlySorted;
    hide Insert;
    if ks != [] {
      var init, last := ks[..|ks| - 1], ks[|ks| - 1];
      InsertAllSorted(s, init);
      InsertSorted(InsertAll(s, init), last);
      InsertLength(InsertAll(s, init), last);
      assert ks == init + [last];
      ElemsOfAppend(init, last);
    }
  }

  lemma {:induction false} RemoveAllSorted(s: seq<Bytes32>, ks: seq<Bytes32>)
    requires StrictlySorted(s)
    ensures StrictlySorted(RemoveAll(s, ks))
    ensures Elems(RemoveAll(s, ks)) == Elems(s) - Elems(ks)
    ensures |RemoveAll(s, ks)| <= |s|
  {
    hide StrictlySorted;
    hide Remove;
    if ks != [] {
      var init, last := ks[..|ks| - 1], ks[|ks| - 1];
      RemoveAllSorted(s, init);
      RemoveSorted(RemoveAll(s, init), last);
      assert ks == init + [last];
      ElemsOfAppend(init, last);
    }
  }

  /** `binary_search` on a strictly sorted list: the place of `k`, or the place to insert it. */
  method BinarySearch(s: seq<Bytes32>, k: Bytes32) returns (found: bool, at: nat)
    requires StrictlySorted(s)
    ensures at <= |s|
    ensures found <==> k in s
    ensures found ==> at < |s| && s[at] == k && s[..at] + s[at + 1..] == Remove(s, k)
    ensures !found ==> s[..at] + [k] + s[at..] == Insert(s, k)
  {
    hide Less;
    var lo, hi := 0, |s|;
    while lo < hi
      invariant 0 <= lo <= hi <= |s|
      invariant forall i :: 0 <= i < lo ==> Less(s[i], k)
      invariant forall i :: hi <= i < |s| ==> Less(k, s[i])
    {
      var mid := (lo + hi) / 2;
      if s[mid] == k {
        RemoveAt(s, mid);
        return true, mid;
      }
      LessTotal(s[mid], k);
      if Less(s[mid], k) {
        forall i | 0 <= i < mid ensures Less(s[i], k) {
          LessTransitive(s[i], s[mid], k);
        }
        lo := mid + 1;
      } else {
        forall i | mid < i < |s| ensures Less(k, s[i]) {
          LessTransitive(k, s[mid], s[i]);
        }
        hi := mid;
      }
    }
    LessIrreflexive(k);
    InsertAt(s, k, lo);
    return false, lo;
  }

  lemma {:induction false} RemoveAt(s: seq<Bytes32>, at: nat)
    requires StrictlySorted(s) && at < |s|
    ensures s[..at] + s[at + 1..] == Remove(s, s[at])
  {
    hide Less;
    if at > 0 {
      RemoveAt(s[1..], at - 1);
      LessIrreflexive(s[0]);
      assert s[..at] + s[at + 1..] == [s[0]] + (s[1..][..at - 1] + s[1..][at..]);
    }
  }

  lemma {:induction false} InsertAt(s: seq<Bytes32>, k: Bytes32, at: nat)
    requires at <= |s|
    requires forall i :: 0 <= i < at ==> Less(s[i], k)
    requires forall i :: at <= i < |s| ==> Less(k, s[i])
    ensures s[..at] + [k] + s[at..] == Insert(s, k)
  {
    hide Less;
    LessIrreflexive(k);
    if at > 0 {
      LessAsymmetric(s[0], k);
      InsertAt(s[1..], k, at - 1);
      assert s[..at] + [k] + s[at..] == [s[0]] + (s[1..][..at - 1] + [k] + s[1..][at - 1..]);
    }
  }

  // ---------------------------------------------------------------- stable sorting

  predicate SortedBy<T>(key: T -> seq<int>, s: seq<T>) {
    forall i, j :: 0 <= i < j < |s| ==> !Less(key(s[j]), key(s[i]))
  }

  ghost predicate DistinctBy<T>(key: T -> seq<int>, s: seq<T>) {
    forall i, j :: 0 <= i < j < |s| ==> key(s[i]) != key(s[j])
  }

  function InsertBy<T>(key: T -> seq<int>, x: T, s: seq<T>): (r: seq<T>)
    ensures |r| == |s| + 1
    ensures multiset(r) == multiset(s) + multiset{x}
  {
    if s == [] then [x]
    else if !Less(key(s[0]), key(x)) then [x] + s
    else
      assert s == [s[0]] + s[1..];
      [s[0]] + InsertBy(key, x, s[1..])
  }

  /** `sort_by_key`: elements with equal keys keep their order. */
  function SortBy<T>(key: T -> seq<int>, s: seq<T>): (r: seq<T>)
    ensures |r| == |s|
    ensures multiset(r) == multiset(s)
  {
    if s == [] then []
    else
      assert s == [s[0]] + s[1..];
      InsertBy(key, s[0], SortBy(key, s[1..]))
  }

  lemma {:induction false} SameMembers<T>(r: seq<T>, s: seq<T>, y: T)
    requires multiset(r) == multiset(s)
    ensures y in r <==> y in s
  {
    assert y in r <==> multiset(r)[y] > 0;
    assert y in s <==> multiset(s)[y] > 0;
  }

  lemma {:induction false} InsertBySorted<T>(key: T -> seq<int>, x: T, s: seq<T>)
    requires SortedBy(key, s)
    ensures SortedBy(key, InsertBy(key, x, s))
  {
    hide Less;
    if s != [] {
      if !Less(key(s[0]), key(x)) {
        var r := [x] + s;
        forall i, j | 0 <= i < j < |r| ensures !Less(key(r[j]), key(r[i])) {
          if i == 0 && j > 1 && Less(key(r[j]), key(x)) {
            LessTotal(key(s[0]), key(s[j - 1]));
            if Less(key(s[0]), key(s[j - 1])) {
              LessTransitive(key(s[0]), key(s[j - 1]), key(x));
            }
          }
        }
      } else {
        InsertBySorted(key, x, s[1..]);
        LessAsymmetric(key(s[0]), key(x));
        var t := InsertBy(key, x, s[1..]);
        forall y | y in t ensures !Less(key(y), key(s[0])) {
          SameMembers(t, s[1..] + [x], y);
        }
      }
    }
  }

  lemma {:induction false} SortBySorted<T>(key: T -> seq<int>, s: seq<T>)
    ensures SortedBy(key, SortBy(key, s))
  {
    hide Less;
    if s != [] {
      SortBySorted(key, s[1..]);
      InsertBySorted(key, s[0], SortBy(key, s[1..]));
    }
  }

  /** Sorting a sorted list changes nothing. */
  lemma {:induction false} SortByFixed<T>(key: T -> seq<int>, s: seq<T>)
    requires SortedBy(key, s)
    ensures SortBy(key, s) == s
  {
    hide Less;
    if s != [] {
      SortByFixed(key, s[1..]);
      if |s| > 1 {
        assert !Less(key(s[1]), key(s[0]));
      }
      assert s == [s[0]] + s[1..];
    }
  }

  /** Two orders of the same elements, told apart by their keys, sort to one list. */
  lemma {:induction false} SortByCanonical<T>(key: T -> seq<int>, s: seq<T>, t: seq<T>)
    requires multiset(s) == multiset(t)
    requires DistinctBy(key, s)
    ensures SortBy(key, s) == SortBy(key, t)
  {
    hide Less;
    SortBySorted(key, s);
    SortBySorted(key, t);
    forall x | x in SortBy(key, s) ensures x in s {
      SameMembers(SortBy(key, s), s, x);
    }
    SortedPermutationUnique(key, s, SortBy(key, s), SortBy(key, t));
  }

  lemma {:induction false} DistinctMeansOnce<T>(key: T -> seq<int>, s: seq<T>, x: T, y: T)
    requires DistinctBy(key, s) && x in s && y in s && key(x) == key(y)
    ensures x == y
  {
  }

  /** Sorted lists of the same elements start with the same key. */
  lemma {:induction false} SortedHeads<T>(key: T -> seq<int>, a: seq<T>, b: seq<T>)
    requires multiset(a) == multiset(b) && a != [] && b != []
    requires SortedBy(key, a) && SortedBy(key, b)
    ensures key(a[0]) == key(b[0])
  {
    hide Less;
    SameMembers(a, b, a[0]);
    SameMembers(a, b, b[0]);
    var i :| 0 <= i < |b| && b[i] == a[0];
    var j :| 0 <= j < |a| && a[j] == b[0];
    LessIrreflexive(key(a[0]));
    LessTotal(key(a[0]), key(b[0]));
  }

  lemma {:induction false} DropHead<T>(s: seq<T>)
    requires s != []
    ensures multiset(s[1..]) == multiset(s) - multiset{s[0]}
  {
    assert s == [s[0]] + s[1..];
  }

  lemma {:induction false} SortedPermutationUnique<T>(key: T -> seq<int>, s: seq<T>, a: seq<T>, b: seq<T>)
    requires multiset(a) == multiset(b)
    requires SortedBy(key, a) && SortedBy(key, b)
    requires DistinctBy(key, s) && forall x :: x in a ==> x in s
    ensures a == b
    decreases |a|
  {
    hide Less;
    SameLength(a, b);
    if a != [] {
      SortedHeads(key, a, b);
      SameMembers(a, b, b[0]);
      DistinctMeansOnce(key, s, a[0], b[0]);
      DropHead(a);
      DropHead(b);
      SortedPermutationUnique(key, s, a[1..], b[1..]);
      assert a == [a[0]] + a[1..] && b == [b[0]] + b[1..];
    }
  }

  lemma {:induction false} SameLength<T>(a: seq<T>, b: seq<T>)
    requires multiset(a) == multiset(b)
    ensures |a| == |b|
  {
    assert |multiset(a)| == |a|;
    assert |multiset(b)| == |b|;
  }

  // ---------------------------------------------------------------- pairwise conditions

  predicate Apart<T>(clash: (T, T) -> bool, s: seq<T>) {
    forall i, j :: 0 <= i < j < |s| ==> !clash(s[i], s[j])
  }

  lemma {:induction false} TwoPlaces<T>(s: seq<T>, x: T) returns (a: nat, b: nat)
    requires multiset(s)[x] >= 2
    ensures a < b < |s| && s[a] == x && s[b] == x
  {
    assert s == [s[0]] + s[1..];
    if s[0] == x {
      assert multiset(s[1..])[x] >= 1;
      assert x in s[1..];
      var k :| 0 <= k < |s[1..]| && s[1..][k] == x;
      return 0, k + 1;
    } else {
      a, b := TwoPlaces(s[1..], x);
      a, b := a + 1, b + 1;
    }
  }

  lemma {:induction false} CountOfTwo<T>(s: seq<T>, i: nat, j: nat)
    requires i < j < |s| && s[i] == s[j]
    ensures multiset(s)[s[i]] >= 2
  {
    assert s == s[..j] + [s[j]] + s[j + 1..];
    assert s[i] in s[..j];
    assert multiset(s[..j])[s[i]] >= 1;
  }

  /** A condition on unordered pairs does not depend on the order of the list. */
  lemma {:induction false} ApartPermuted<T(!new)>(clash: (T, T) -> bool, s: seq<T>, t: seq<T>)
    requires multiset(s) == multiset(t)
    requires forall x :: clash(x, x)
    requires forall x, y :: clash(x, y) ==> clash(y, x)
    requires Apart(clash, s)
    ensures Apart(clash, t)
  {
    forall i, j | 0 <= i < j < |t| ensures !clash(t[i], t[j]) {
      SameMembers(s, t, t[i]);
      SameMembers(s, t, t[j]);
      if t[i] == t[j] {
        CountOfTwo(t, i, j);
        var a, b := TwoPlaces(s, t[i]);
        assert !clash(s[a], s[b]);
      } else {
        var a :| 0 <= a < |s| && s[a] == t[i];
        var b :| 0 <= b < |s| && s[b] == t[j];
        assert if a < b then !clash(s[a], s[b]) else !clash(s[b], s[a]);
      }
    }
  }
}

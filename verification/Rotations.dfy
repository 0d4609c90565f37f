/** Whether a rotation can bring back a key it replaces. */
module Rotations {
  import opened Basics
  import opened Statements
  import opened Governance

  /** An entry's slot holds the entry's key. */
  lemma {:induction false} OverlayHit(keys: seq<Key>, entries: seq<(Byte, Key)>, i: nat)
    requires Increasing(entries) && i < |entries|
    requires forall j :: 0 <= j < |entries| ==> entries[j].0 < |keys|
    ensures Overlay(keys, entries)[entries[i].0] == entries[i].1
  {
    var n := |entries| - 1;
    if i < n {
      OverlayHit(keys, entries[..n], i);
      assert entries[i].0 < entries[n].0;
    }
  }

  /** A slot no entry names keeps its key. */
  lemma {:induction false} OverlayMiss(keys: seq<Key>, entries: seq<(Byte, Key)>, slot: nat)
    requires slot < |keys|
    requires forall j :: 0 <= j < |entries| ==> entries[j].0 < |keys| && entries[j].0 != slot
    ensures Overlay(keys, entries)[slot] == keys[slot]
  {
    if entries != [] {
      OverlayMiss(keys, entries[..|entries| - 1], slot);
    }
  }

  /** No key that an entry replaces is among the keys afterwards. */
  ghost predicate NeverBringsBack(current: seq<Key>, entries: seq<(Byte, Key)>)
    requires forall j :: 0 <= j < |entries| ==> entries[j].0 < |current|
  {
    forall i :: 0 <= i < |entries| ==> current[entries[i].0] !in Overlay(current, entries)
  }

  /** Every key brought in is new. */
  predicate BringsOnlyNew(current: seq<Key>, entries: seq<(Byte, Key)>) {
    forall i :: 0 <= i < |entries| ==> entries[i].1 !in current
  }

  lemma {:induction false} OldKeyComesBack(c: Crypto, current: seq<Key>, entries: seq<(Byte, Key)>, j: nat)
    requires |current| == KEY_COUNT && RotationValid(c, current, entries)
    requires j < |entries| && entries[j].1 in current
    ensures !NeverBringsBack(current, entries)
  {
    hide Overlay;
    var t :| 0 <= t < |current| && current[t] == entries[j].1;
    var after := Overlay(current, entries);
    OverlayHit(current, entries, j);
    if i :| 0 <= i < |entries| && entries[i].0 == t {
      assert current[entries[i].0] in after;
    } else {
      OverlayMiss(current, entries, t);
      assert false;
    }
  }

  lemma {:induction false} NewKeysBringNothingBack(c: Crypto, current: seq<Key>, entries: seq<(Byte, Key)>)
    requires |current| == KEY_COUNT && Distinct(current) && RotationValid(c, current, entries)
    requires BringsOnlyNew(current, entries)
    ensures NeverBringsBack(current, entries)
  {
    hide Overlay;
    var after := Overlay(current, entries);
    forall i | 0 <= i < |entries| ensures current[entries[i].0] !in after {
      forall t | 0 <= t < |after| ensures after[t] != current[entries[i].0] {
        if k :| 0 <= k < |entries| && entries[k].0 == t {
          OverlayHit(current, entries, k);
          assert entries[k].1 !in current;
        } else {
          OverlayMiss(current, entries, t);
          assert t != entries[i].0;
        }
      }
    }
  }

  /** A valid rotation of distinct keys brings no replaced key back exactly when every key it brings in
      is new. */
  lemma {:induction false} RotationBringsBackIff(c: Crypto, current: seq<Key>, entries: seq<(Byte, Key)>)
    requires |current| == KEY_COUNT && Distinct(current) && RotationValid(c, current, entries)
    ensures NeverBringsBack(current, entries) <==> BringsOnlyNew(current, entries)
  {
    if BringsOnlyNew(current, entries) {
      NewKeysBringNothingBack(c, current, entries);
    } else {
      var j :| 0 <= j < |entries| && entries[j].1 in current;
      OldKeyComesBack(c, current, entries, j);
    }
  }

  function Uniform(b: Byte): Key {
    seq(32, i => b)
  }

  lemma {:induction false} UniformApart(a: Byte, b: Byte)
    ensures Uniform(a) == Uniform(b) ==> a == b
  {
    assert Uniform(a)[0] == a && Uniform(b)[0] == b;
  }

  /** Two slots exchange their keys: the rotation is valid, and both replaced keys are still there. */
  lemma {:induction false} RotationMayExchange() returns (c: Crypto, current: seq<Key>, entries: seq<(Byte, Key)>)
    ensures |current| == KEY_COUNT && Distinct(current) && RotationValid(c, current, entries)
    ensures |entries| == 2
    ensures forall i :: 0 <= i < |entries| ==> current[entries[i].0] in Overlay(current, entries)
  {
    c := Crypto(k => true, k => false, (k, m, s) => true, m => Uniform(0));
    current := seq(KEY_COUNT, i requires 0 <= i < KEY_COUNT => Uniform(i));
    entries := [(0, Uniform(1)), (1, Uniform(0))];
    var after := Overlay(current, entries);
    assert entries[..1] == [(0, Uniform(1))] && entries[..1][..0] == [];
    assert Overlay(current, entries[..1]) == current[0 := Uniform(1)];
    assert after == current[0 := Uniform(1)][1 := Uniform(0)];
    hide Uniform;
    forall i, j | 0 <= i < j < KEY_COUNT ensures Uniform(i) != Uniform(j) {
      UniformApart(i, j);
    }
    assert forall i :: 2 <= i < KEY_COUNT ==> after[i] == Uniform(i);
    assert after[0] == Uniform(1) && after[1] == Uniform(0);
    assert current[0] == after[1] && current[1] == after[0];
  }
}

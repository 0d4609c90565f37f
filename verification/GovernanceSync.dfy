/** The `governance` answer of one node and how another node catches up from it. */
module GovernanceSync {
  import opened Basics
  import opened Statements
  import opened Governance
  import opened GovernanceSteps
  import opened Chains
  import opened ChainTheorems

  /** What reading the archive entry of a sequence gives: a statement, or nothing usable. */
  type Archive = nat -> Option<Statement>

  /** The archive over the files of the Den: an entry over the read limit or one that does not
      decode is as good as missing. */
  function FromFiles(files: map<nat, seq<Byte>>): Archive {
    (s: nat) =>
      if s !in files || |files[s]| > MAX_STATEMENT_LEN then None
      else match Decode(files[s])
        case Success(st) => Some(st)
        case Failure(_) => None
  }

  function Position(applied: seq<Hash>, hash: Hash): (r: Option<nat>)
    ensures r.Some? ==> r.value < |applied| && applied[r.value] == hash && hash !in applied[..r.value]
    ensures r.None? ==> hash !in applied
  {
    if applied == [] then None
    else
      var init := applied[..|applied| - 1];
      assert applied == init + [applied[|applied| - 1]];
      match Position(init, hash)
      case Some(i) =>
        assert init[..i] == applied[..i];
        Some(i)
      case None => if applied[|applied| - 1] == hash then Some(|applied| - 1) else None
  }

  /** Whether entry `s` is the statement the head recorded there. */
  predicate Recorded(c: Crypto, h: Head, archive: Archive, s: nat)
    requires s < |h.applied|
  {
    archive(s).Some? && c.hash(archive(s).value.core) == h.applied[s]
  }

  /** Up to `k` statements from `s` on, ending before the first missing or mismatching entry. */
  function Serve(c: Crypto, h: Head, archive: Archive, s: nat, k: nat): seq<Statement>
    requires |h.applied| > h.sequence
    decreases k
  {
    if k == 0 || s > h.sequence || !Recorded(c, h, archive, s) then []
    else [archive(s).value] + Serve(c, h, archive, s + 1, k - 1)
  }

  function Records(c: Crypto, head: Option<Head>, archive: Archive, headHash: Hash, k: nat): seq<Statement>
    requires head.Some? ==> |head.value.applied| > head.value.sequence
  {
    if head.None? then []
    else match Position(head.value.applied, headHash)
      case None => []
      case Some(p) => Serve(c, head.value, archive, p + 1, k)
  }

  lemma {:induction false} ServeStep(c: Crypto, h: Head, archive: Archive, s: nat, k: nat)
    requires |h.applied| > h.sequence
    ensures k == 0 || s > h.sequence || !Recorded(c, h, archive, s) ==> Serve(c, h, archive, s, k) == []
    ensures k > 0 && s <= h.sequence && Recorded(c, h, archive, s) ==>
      Serve(c, h, archive, s, k) == [archive(s).value] + Serve(c, h, archive, s + 1, k - 1)
  {
  }

  lemma {:induction false} AppendFirst(a: seq<Statement>, x: Statement, b: seq<Statement>)
    ensures (a + [x]) + b == a + ([x] + b)
  {
  }

  /** `governance_records`: the answer built entry by entry. */
  method GovernanceRecords(c: Crypto, head: Option<Head>, archive: Archive, headHash: Hash, k: Byte)
    returns (statements: seq<Statement>)
    requires head.Some? ==> |head.value.applied| > head.value.sequence
    ensures statements == Records(c, head, archive, headHash, k)
  {
    hide Serve;
    statements := [];
    if head.None? {
      return;
    }
    var h := head.value;
    var position := Position(h.applied, headHash);
    if position.None? {
      return;
    }
    hide Position;
    var sequence := position.value + 1;
    while sequence <= h.sequence
      invariant |statements| <= k
      invariant statements + Serve(c, h, archive, sequence, k - |statements|)
                == Serve(c, h, archive, position.value + 1, k)
      decreases h.sequence + 1 - sequence
    {
      ServeStep(c, h, archive, sequence, k - |statements|);
      if |statements| == k {
        break;
      }
      var entry := archive(sequence);
      if entry.None? || c.hash(entry.value.core) != h.applied[sequence] {
        break;
      }
      AppendFirst(statements, entry.value, Serve(c, h, archive, sequence + 1, k - |statements| - 1));
      statements := statements + [entry.value];
      sequence := sequence + 1;
    }
    ServeStep(c, h, archive, sequence, k - |statements|);
  }

  /** The statement is the archive's entry for `at`, and the one that was applied there. */
  ghost predicate EntryAt(c: Crypto, h: Head, archive: Archive, at: nat, st: Statement)
    requires |h.applied| > h.sequence
  {
    at <= h.sequence && archive(at) == Some(st) && c.hash(st.core) == h.applied[at]
  }

  /** The longest run of matching entries from `s` on, up to `k`. */
  ghost predicate ServedFrom(c: Crypto, h: Head, archive: Archive, s: nat, k: nat, r: seq<Statement>)
    requires |h.applied| > h.sequence
  {
    && |r| <= k
    && (forall i :: 0 <= i < |r| ==> EntryAt(c, h, archive, s + i, r[i]))
    && (|r| < k && archive(s + |r|).Some? ==> !EntryAt(c, h, archive, s + |r|, archive(s + |r|).value))
  }

  lemma {:induction false} ServesRun(c: Crypto, h: Head, archive: Archive, s: nat, k: nat)
    requires |h.applied| > h.sequence
    ensures ServedFrom(c, h, archive, s, k, Serve(c, h, archive, s, k))
    decreases k
  {
    if k > 0 && s <= h.sequence && Recorded(c, h, archive, s) {
      ServesRun(c, h, archive, s + 1, k - 1);
      var r, rest := Serve(c, h, archive, s, k), Serve(c, h, archive, s + 1, k - 1);
      assert EntryAt(c, h, archive, s, archive(s).value);
      assert r == [archive(s).value] + rest;
      hide Serve;
      hide EntryAt;
      forall i | 0 <= i < |r| ensures EntryAt(c, h, archive, s + i, r[i]) {
        if i > 0 {
          assert r[i] == rest[i - 1] && s + 1 + (i - 1) == s + i;
        }
      }
      assert s + 1 + |rest| == s + |r|;
    }
  }

  /** Whatever archive a node has, it answers a known hash with exactly the longest run of entries right after
      its first place that match what was applied, up to `k`, and an unknown one with nothing. */
  lemma {:induction false} ServesExactly(c: Crypto, h: Head, archive: Archive, headHash: Hash, k: nat)
    requires |h.applied| > h.sequence
    ensures headHash !in h.applied ==> Records(c, Some(h), archive, headHash, k) == []
    ensures forall p :: 0 <= p < |h.applied| && h.applied[p] == headHash && headHash !in h.applied[..p] ==>
      ServedFrom(c, h, archive, p + 1, k, Records(c, Some(h), archive, headHash, k))
  {
    var position := Position(h.applied, headHash);
    hide Serve;
    hide ServedFrom;
    if position.Some? {
      var q := position.value;
      ServesRun(c, h, archive, q + 1, k);
      forall p | 0 <= p < |h.applied| && h.applied[p] == headHash && headHash !in h.applied[..p] ensures p == q {
      }
    }
    hide Position;
  }

  /** The head after applying `statements` in order, stopping at the first that does not apply. */
  ghost function ApplySync(c: Crypto, h: Head, statements: seq<Statement>): (r: Head)
    requires Check(h)
    ensures Check(r)
    decreases |statements|
  {
    if statements == [] then h
    else
      ApplyKeepsCheck(c, Some(h), statements[0], None);
      match Apply(c, Some(h), statements[0], None)
      case Success(Applied(next)) => ApplySync(c, next, statements[1..])
      case Success(AlreadyApplied) => ApplySync(c, h, statements[1..])
      case Success(Fork(fenced)) => fenced
      case Failure(_) => h
  }

  /** The same with saves that may fail, counted from `i`: a statement that is not archived and committed is
      not applied, a fork that is not committed is not fenced, and both stop the request. Also whether it
      stopped before the end. */
  ghost function ApplySaving(
      c: Crypto, h: Head, statements: seq<Statement>, saves: nat -> bool, i: nat): (r: (Head, bool))
    requires Check(h)
    ensures Check(r.0)
    decreases |statements|
  {
    if statements == [] then (h, false)
    else
      ApplyKeepsCheck(c, Some(h), statements[0], None);
      match Apply(c, Some(h), statements[0], None)
      case Success(Applied(next)) => if saves(i) then ApplySaving(c, next, statements[1..], saves, i + 1) else (h, true)
      case Success(AlreadyApplied) => ApplySaving(c, h, statements[1..], saves, i + 1)
      case Success(Fork(fenced)) => (if saves(i) then fenced else h, true)
      case Failure(_) => (h, true)
  }

  predicate Succeeds(c: Crypto, h: Head, st: Statement)
    requires Check(h)
  {
    var r := Apply(c, Some(h), st, None);
    r.Success? && r.value.Applied?
  }

  /** The pair is two different statements, each a valid successor of the head. */
  predicate Conflicts(c: Crypto, h: Head, pair: seq<Statement>)
    requires Check(h)
  {
    |pair| == 2 && c.hash(pair[0].core) != c.hash(pair[1].core) && Succeeds(c, h, pair[0]) && Succeeds(c, h, pair[1])
  }

  /** A whole sync request: the statements in order and, unless they stop early, the conflict, which fences
      the head once the fence is saved. */
  ghost function SyncRequest(
      c: Crypto, h: Head, statements: seq<Statement>, conflict: Option<seq<Statement>>, saves: nat -> bool): (r: Head)
    requires Check(h)
    ensures Check(r)
  {
    var (applied, stopped) := ApplySaving(c, h, statements, saves, 0);
    if !stopped && conflict.Some? && Conflicts(c, applied, conflict.value) && saves(|statements|)
    then applied.(forked := true)
    else applied
  }

  /** A node without a head cannot be given one by a sync: that takes a pinned genesis. */
  method SyncApply(
      c: Crypto, head: Option<Head>, statements: seq<Statement>, conflict: Option<seq<Statement>>, saves: nat -> bool)
    returns (current: Option<Head>)
    requires head.Some? ==> Check(head.value)
    ensures current == if head.None? then None else Some(SyncRequest(c, head.value, statements, conflict, saves))
  {
    current := head;
    if head.None? {
      if statements != [] {
        var r := ApplyStatement(c, None, statements[0], None);
        assert r.Failure?;
      }
      return;
    }
    var h := head.value;
    for i := 0 to |statements|
      invariant Check(h) && current == Some(h)
      invariant ApplySaving(c, h, statements[i..], saves, i) == ApplySaving(c, head.value, statements, saves, 0)
    {
      assert statements[i..][1..] == statements[i + 1..];
      ApplyKeepsCheck(c, Some(h), statements[i], None);
      var r := ApplyStatement(c, Some(h), statements[i], None);
      match r {
        case Success(Applied(next)) =>
          if !saves(i) {
            return;
          }
          h := next;
          current := Some(h);
        case Success(AlreadyApplied) =>
        case Success(Fork(fenced)) =>
          if saves(i) {
            current := Some(fenced);
          }
          return;
        case Failure(_) => return;
      }
    }
    if conflict.Some? && |conflict.value| == 2 {
      var pair := conflict.value;
      var first := ApplyStatement(c, Some(h), pair[0], None);
      var second := ApplyStatement(c, Some(h), pair[1], None);
      if c.hash(pair[0].core) != c.hash(pair[1].core)
        && first.Success? && first.value.Applied? && second.Success? && second.value.Applied? && saves(|statements|) {
        current := Some(h.(forked := true));
      }
    }
  }

  /** With failing saves the head is still one that a first part of the statements leads to, apart from the
      fence; with none failing it is the one they all lead to. */
  lemma {:induction false} SavingIsPrefix(c: Crypto, h: Head, statements: seq<Statement>, saves: nat -> bool, i: nat)
    returns (n: nat)
    requires Check(h)
    ensures n <= |statements|
    ensures Unforked(ApplySaving(c, h, statements, saves, i).0) == Unforked(ApplySync(c, h, statements[..n]))
    ensures (forall k :: saves(k)) ==> ApplySaving(c, h, statements, saves, i).0 == ApplySync(c, h, statements)
    decreases |statements|
  {
    hide Check;
    n := 0;
    if statements != [] {
      ApplyKeepsCheck(c, Some(h), statements[0], None);
      var r := Apply(c, Some(h), statements[0], None);
      hide Apply;
      if r.Success? && ((r.value.Applied? && saves(i)) || r.value.AlreadyApplied?) {
        var next := if r.value.Applied? then r.value.head else h;
        var m := SavingIsPrefix(c, next, statements[1..], saves, i + 1);
        n := m + 1;
        assert statements[..n][1..] == statements[1..][..m];
      }
    }
  }

  /** A recorded conflict names culprits: four slots of the keys in force signed both statements, for the
      sequence after the head. Recording it changes nothing but the fence, and the order of the pair does
      not matter. */
  lemma {:induction false} ConflictAccountability(c: Crypto, h: Head, pair: seq<Statement>)
    requires Check(h) && Conflicts(c, h, pair)
    ensures DoubleSigned(c, h.Keys(), pair[0], pair[1])
    ensures pair[0].core.sequence == pair[1].core.sequence == h.sequence + 1
    ensures Conflicts(c, h, [pair[1], pair[0]])
  {
    TwoQuorums(c, h.Keys(), pair[0], pair[1]);
  }

  /** A whole request, with any saves failing, leaves a head that a first part of its statements leads to,
      apart from the fence; and only a fork among them or an accountable conflict raises the fence. */
  lemma {:induction false} RequestOnlyFences(
      c: Crypto, h: Head, statements: seq<Statement>, conflict: Option<seq<Statement>>, saves: nat -> bool)
    returns (n: nat)
    requires Check(h)
    ensures n <= |statements|
    ensures Unforked(SyncRequest(c, h, statements, conflict, saves)) == Unforked(ApplySync(c, h, statements[..n]))
    ensures var applied := ApplySaving(c, h, statements, saves, 0).0;
      SyncRequest(c, h, statements, conflict, saves).forked && !applied.forked ==>
        && conflict.Some? && |conflict.value| == 2
        && DoubleSigned(c, applied.Keys(), conflict.value[0], conflict.value[1])
  {
    n := SavingIsPrefix(c, h, statements, saves, 0);
    hide ApplySaving;
    hide ApplySync;
    var applied := ApplySaving(c, h, statements, saves, 0).0;
    if conflict.Some? && Conflicts(c, applied, conflict.value) {
      ConflictAccountability(c, applied, conflict.value);
    }
    hide Conflicts;
    hide DoubleSigned;
  }

  /** One statement passes: it is applied and saved, or was applied before and is skipped. */
  ghost predicate Passes(c: Crypto, h: Head, st: Statement, saved: bool, next: Head)
    requires Check(h)
  {
    var r := Apply(c, Some(h), st, None);
    (r == Success(Applied(next)) && saved) || (r == Success(AlreadyApplied) && next == h)
  }

  /** The heads reached by the first statements of a request, each of which passes. */
  ghost predicate Passage(c: Crypto, heads: seq<Head>, statements: seq<Statement>, saves: nat -> bool) {
    && 0 < |heads| <= |statements| + 1
    && (forall i :: 0 <= i < |heads| ==> Check(heads[i]))
    && (forall i :: 0 <= i < |heads| - 1 ==> Passes(c, heads[i], statements[i], saves(i), heads[i + 1]))
  }

  lemma {:induction false} SavingPasses(
      c: Crypto, heads: seq<Head>, statements: seq<Statement>, saves: nat -> bool, n: nat)
    requires Passage(c, heads, statements, saves) && n < |heads|
    ensures ApplySaving(c, heads[0], statements, saves, 0) == ApplySaving(c, heads[n], statements[n..], saves, n)
  {
    hide Check;
    hide Apply;
    if n == 0 {
      assert statements[0..] == statements;
    } else {
      SavingPasses(c, heads, statements, saves, n - 1);
      assert Passes(c, heads[n - 1], statements[n - 1], saves(n - 1), heads[n]);
      assert statements[n - 1..][0] == statements[n - 1] && statements[n - 1..][1..] == statements[n..];
    }
  }

  /** A request whose statements all pass ends in the last head reached, fenced exactly when it carries two
      different statements that each apply to that head and the fence is saved. */
  lemma {:induction false} ConflictIsRecorded(
      c: Crypto, heads: seq<Head>, statements: seq<Statement>, conflict: Option<seq<Statement>>, saves: nat -> bool)
    requires Passage(c, heads, statements, saves) && |heads| == |statements| + 1
    ensures var last := heads[|statements|];
      SyncRequest(c, heads[0], statements, conflict, saves) ==
        if
          && conflict.Some? && |conflict.value| == 2
          && c.hash(conflict.value[0].core) != c.hash(conflict.value[1].core)
          && (exists a :: Apply(c, Some(last), conflict.value[0], None) == Success(Applied(a)))
          && (exists b :: Apply(c, Some(last), conflict.value[1], None) == Success(Applied(b)))
          && saves(|statements|)
        then last.(forked := true)
        else last
  {
    var n := |statements|;
    SavingPasses(c, heads, statements, saves, n);
    assert statements[n..] == [];
    hide Apply;
    hide Check;
    if conflict.Some? && |conflict.value| == 2 {
      AppliedShows(Apply(c, Some(heads[n]), conflict.value[0], None));
      AppliedShows(Apply(c, Some(heads[n]), conflict.value[1], None));
    }
  }

  lemma {:induction false} AppliedShows(r: Result<Outcome, GovError>)
    ensures (r.Success? && r.value.Applied?) <==> exists h :: r == Success(Applied(h))
  {
    if r.Success? && r.value.Applied? {
      assert r == Success(Applied(r.value.head));
    }
  }

  /** The first statement that does not pass ends the request where it stands, and nothing after it counts;
      if it is a fork, and that is saved, the head is fenced. */
  lemma {:induction false} RequestStops(
      c: Crypto, heads: seq<Head>, statements: seq<Statement>, conflict: Option<seq<Statement>>, saves: nat -> bool)
    requires Passage(c, heads, statements, saves) && |heads| <= |statements|
    requires var n := |heads| - 1; forall next :: !Passes(c, heads[n], statements[n], saves(n), next)
    ensures var n := |heads| - 1;
      SyncRequest(c, heads[0], statements, conflict, saves) ==
        if Apply(c, Some(heads[n]), statements[n], None) == Success(Fork(heads[n].(forked := true))) && saves(n)
        then heads[n].(forked := true)
        else heads[n]
  {
    var n := |heads| - 1;
    SavingPasses(c, heads, statements, saves, n);
    assert statements[n..] != [] && statements[n..][0] == statements[n];
    OtherOutcomes(c, Some(heads[n]), statements[n], None);
    var r := Apply(c, Some(heads[n]), statements[n], None);
    hide Apply;
    hide Check;
    if r.Success? && !r.value.Fork? {
      var next := if r.value.Applied? then r.value.head else heads[n];
      assert !Passes(c, heads[n], statements[n], saves(n), next);
    }
  }

  /** One question to the server about the own head, and the answer applied. */
  ghost function Round(c: Crypto, h: Head, server: Head, archive: Archive, k: nat): (r: Head)
    requires Check(h) && Check(server)
    ensures Check(r)
  {
    ApplySync(c, h, Records(c, Some(server), archive, h.hash, k))
  }

  /** `rounds` questions to one server, each answered with at most `k` statements. */
  ghost function SyncRounds(c: Crypto, h: Head, server: Head, archive: Archive, k: nat, rounds: nat): (r: Head)
    requires Check(h) && Check(server)
    ensures Check(r)
  {
    if rounds == 0 then h
    else
      Round(c, SyncRounds(c, h, server, archive, k, rounds - 1), server, archive, k)
  }

  // ---------------------------------------------------------------- one statement on the chain

  /** The head after the first `q` statements of a log. */
  ghost function HeadAt(c: Crypto, log: seq<Statement>, q: nat): (h: Head)
    requires Good(c, log) && 0 < q <= |log|
    ensures Check(h) && Fold(c, log[..q]) == Some(h)
  {
    Fold(c, log[..q]).value
  }

  lemma {:induction false} HeadAtFields(c: Crypto, log: seq<Statement>, q: nat)
    requires Good(c, log) && 0 < q <= |log|
    ensures HeadAt(c, log, q).sequence == q - 1
    ensures HeadAt(c, log, q).hash == c.hash(log[q - 1].core)
  {
    GoodPrefix(c, log, q);
    FoldDescribed(c, log[..q]);
  }

  lemma {:induction false} SameCoreApplies(c: Crypto, h: Head, a: Statement, b: Statement, next: Head)
    requires Check(h) && a.core == b.core && Apply(c, Some(h), a, Some(c.hash(a.core))) == Success(Applied(next))
    ensures SignaturesValid(c, a, h.Keys(), h.threshold)
    ensures Apply(c, Some(h), b, None) ==
      if SignaturesValid(c, b, h.Keys(), h.threshold) then Success(Applied(next)) else Failure(Signatures)
  {
    hide SignaturesValid;
    hide BodyValid;
    hide Follow;
  }

  /** A statement with the chain's next core applies, and leads along the chain, exactly when its own
      signatures are valid. */
  lemma {:induction false} ApplyOnChain(c: Crypto, log: seq<Statement>, q: nat, st: Statement)
    requires Good(c, log) && 0 < q < |log| && st.core == log[q].core
    ensures var h := HeadAt(c, log, q);
      Apply(c, Some(h), st, None)
      == if SignaturesValid(c, st, h.Keys(), h.threshold) then Success(Applied(HeadAt(c, log, q + 1)))
         else Failure(Signatures)
    ensures SignaturesValid(c, log[q], HeadAt(c, log, q).Keys(), HeadAt(c, log, q).threshold)
  {
    GoodPrefix(c, log, q + 1);
    FoldLast(c, log[..q + 1]);
    assert log[..q + 1][..q] == log[..q];
    hide Fold;
    hide SignaturesValid;
    SameCoreApplies(c, HeadAt(c, log, q), log[q], st, HeadAt(c, log, q + 1));
    hide Apply;
  }

  // ---------------------------------------------------------------- any archive

  ghost predicate OnChain(c: Crypto, log: seq<Statement>, h: Head, low: nat, high: nat)
    requires Good(c, log)
  {
    exists q :: 0 < q <= |log| && low <= q <= high && h == HeadAt(c, log, q)
  }

  /** Whatever an archive serves carries the recorded hashes, in order. */
  lemma {:induction false} ServedHashes(c: Crypto, h: Head, archive: Archive, s: nat, k: nat)
    requires |h.applied| > h.sequence
    ensures var r := Serve(c, h, archive, s, k);
      && |r| <= k && s + |r| <= (if s > h.sequence then s else h.sequence + 1)
      && forall i :: 0 <= i < |r| ==> c.hash(r[i].core) == h.applied[s + i]
    decreases k
  {
    if k > 0 && s <= h.sequence && Recorded(c, h, archive, s) {
      ServedHashes(c, h, archive, s + 1, k - 1);
      var st := archive(s).value;
      var rest := Serve(c, h, archive, s + 1, k - 1);
      var r := Serve(c, h, archive, s, k);
      assert r == [st] + rest;
      forall i | 0 <= i < |r| ensures c.hash(r[i].core) == h.applied[s + i] {
        if i > 0 {
          assert r[i] == rest[i - 1];
        }
      }
    }
  }

  lemma {:induction false} ApplyServed(c: Crypto, log: seq<Statement>, q: nat, served: seq<Statement>)
    requires Good(c, log) && 0 < q && q + |served| <= |log|
    requires forall i :: 0 <= i < |served| ==> served[i].core == log[q + i].core
    ensures OnChain(c, log, ApplySync(c, HeadAt(c, log, q), served), q, q + |served|)
    decreases |served|
  {
    hide SignaturesValid;
    hide Apply;
    hide Fold;
    var h := HeadAt(c, log, q);
    if served == [] {
      assert ApplySync(c, h, served) == h;
    } else {
      ApplyOnChain(c, log, q, served[0]);
      if SignaturesValid(c, served[0], h.Keys(), h.threshold) {
        var rest := served[1..];
        forall i | 0 <= i < |rest| ensures rest[i].core == log[q + 1 + i].core {
          assert rest[i] == served[i + 1];
        }
        ApplyServed(c, log, q + 1, rest);
        assert ApplySync(c, h, served) == ApplySync(c, HeadAt(c, log, q + 1), rest);
      } else {
        assert ApplySync(c, h, served) == h;
      }
    }
  }

  /** The server's head and the log it stands for. */
  ghost predicate Stands(c: Crypto, server: Head, log: seq<Statement>) {
    Check(server) && Good(c, log) && log != [] && Fold(c, log) == Some(Unforked(server))
  }

  /** The applied list holds the hashes of the log, whose statements carry their positions. */
  ghost predicate Tracks(c: Crypto, server: Head, log: seq<Statement>) {
    && |server.applied| == |log| == server.sequence + 1
    && (forall i :: 0 <= i < |log| ==> server.applied[i] == c.hash(log[i].core))
    && (forall i :: 0 <= i < |log| ==> log[i].core.sequence == i)
  }

  lemma {:induction false} StandsFor(c: Crypto, server: Head, log: seq<Statement>)
    requires Stands(c, server, log)
    ensures Tracks(c, server, log)
    ensures Unforked(server) == HeadAt(c, log, |log|)
  {
    FoldDescribed(c, log);
    assert Describes(c, Unforked(server), Cores(log));
    forall i | 0 <= i < |log| ensures log[i].core.sequence == i {
      assert LinkedAt(c, log, i);
    }
    assert log[..|log|] == log;
  }

  lemma {:induction false} PositionOf(c: Crypto, server: Head, log: seq<Statement>, i: nat)
    requires Tracks(c, server, log) && i < |log|
    ensures Position(server.applied, c.hash(log[i].core)) == Some(i) || Collision(c, log, log)
  {
    var p := Position(server.applied, c.hash(log[i].core));
    assert server.applied[i] == c.hash(log[i].core);
    if p.value != i {
      assert log[i].core != log[p.value].core;
    }
  }

  lemma {:induction false} PositionOnChain(c: Crypto, server: Head, log: seq<Statement>, q: nat)
    requires Stands(c, server, log) && 0 < q <= |log|
    ensures Tracks(c, server, log)
    ensures Position(server.applied, HeadAt(c, log, q).hash) == Some(q - 1) || Collision(c, log, log)
  {
    StandsFor(c, server, log);
    HeadAtFields(c, log, q);
    PositionOf(c, server, log, q - 1);
  }

  /** With archive entries missing or altered, one answer still leaves the follower on the server's
      chain and no further back, unless two statements collide under the hash. */
  lemma {:induction false} SyncStaysOnChain(
      c: Crypto, server: Head, log: seq<Statement>, archive: Archive, q: nat, k: nat)
    requires Stands(c, server, log) && 0 < q <= |log|
    ensures var h := HeadAt(c, log, q);
      var served := Records(c, Some(server), archive, h.hash, k);
      || (|served| <= k && OnChain(c, log, ApplySync(c, h, served), q, q + |served|))
      || Collision(c, log, served) || Collision(c, log, log)
  {
    hide Check;
    hide Fold;
    hide Good;
    var h := HeadAt(c, log, q);
    PositionOnChain(c, server, log, q);
    StandsFor(c, server, log);
    if !Collision(c, log, log) {
      var served := Serve(c, server, archive, q, k);
      assert Records(c, Some(server), archive, h.hash, k) == served;
      ServedHashes(c, server, archive, q, k);
      if !Collision(c, log, served) {
        forall i | 0 <= i < |served| ensures served[i].core == log[q + i].core {
          assert c.hash(log[q + i].core) == c.hash(served[i].core);
        }
        ApplyServed(c, log, q, served);
      }
    }
  }

  // ---------------------------------------------------------------- a complete archive

  ghost predicate Complete(archive: Archive, log: seq<Statement>) {
    forall s :: 0 < s < |log| ==> archive(s) == Some(log[s])
  }

  /** Archiving every applied statement in its encoding makes a complete archive. */
  lemma {:induction false} FilesComplete(c: Crypto, log: seq<Statement>, files: map<nat, seq<Byte>>)
    requires Good(c, log)
    requires forall s :: 0 < s < |log| ==> s in files && files[s] == EncodeStatement(log[s])
    ensures Complete(FromFiles(files), log)
  {
    forall s | 0 < s < |log| ensures FromFiles(files)(s) == Some(log[s]) {
      GoodPrefix(c, log, s + 1);
      FoldLast(c, log[..s + 1]);
      assert log[..s + 1][..s] == log[..s];
      AppliedStatementsEncode(c, Fold(c, log[..s]), log[s], Some(c.hash(log[s].core)));
    }
  }

  function Reach(q: nat, n: nat, limit: nat): nat {
    if q + n < limit then q + n else limit
  }

  /** A complete archive serves the next contiguous run of statements. */
  lemma {:induction false} CompleteServe(
      c: Crypto, server: Head, log: seq<Statement>, archive: Archive, s: nat, k: nat)
    requires Tracks(c, server, log) && Complete(archive, log) && 0 < s <= |log|
    ensures Serve(c, server, archive, s, k) == log[s..Reach(s, k, |log|)]
    decreases k
  {
    if k > 0 && s < |log| {
      assert Recorded(c, server, archive, s);
      CompleteServe(c, server, log, archive, s + 1, k - 1);
      assert [log[s]] + log[s + 1..Reach(s, k, |log|)] == log[s..Reach(s, k, |log|)];
    }
  }

  lemma {:induction false} ApplyRun(c: Crypto, log: seq<Statement>, q: nat, e: nat)
    requires Good(c, log) && 0 < q <= e <= |log|
    ensures ApplySync(c, HeadAt(c, log, q), log[q..e]) == HeadAt(c, log, e)
    decreases e - q
  {
    if q < e {
      ApplyOnChain(c, log, q, log[q]);
      assert log[q..e][1..] == log[q + 1..e];
      ApplyRun(c, log, q + 1, e);
    }
  }

  /** One round from a complete archive advances by `k` statements, or to the server's head. */
  lemma {:induction false} CompleteRound(c: Crypto, server: Head, log: seq<Statement>, archive: Archive, q: nat, k: nat)
    requires Stands(c, server, log) && Complete(archive, log) && 0 < q <= |log| && !Collision(c, log, log)
    ensures var h, e := HeadAt(c, log, q), Reach(q, k, |log|);
      && Records(c, Some(server), archive, h.hash, k) == log[q..e]
      && Round(c, h, server, archive, k) == HeadAt(c, log, e)
  {
    hide Check;
    hide Fold;
    hide Good;
    hide Collision;
    PositionOnChain(c, server, log, q);
    CompleteServe(c, server, log, archive, q, k);
    ApplyRun(c, log, q, Reach(q, k, |log|));
  }

  lemma {:induction false} RoundsAdvance(
      c: Crypto, server: Head, log: seq<Statement>, archive: Archive, q: nat, k: nat, rounds: nat, gap: nat)
    requires Stands(c, server, log) && Complete(archive, log) && 0 < q <= |log| && !Collision(c, log, log)
    requires gap == rounds * k
    ensures SyncRounds(c, HeadAt(c, log, q), server, archive, k, rounds) == HeadAt(c, log, Reach(q, gap, |log|))
  {
    hide Check;
    hide Fold;
    hide Collision;
    hide Round;
    var heads := seq(|log|, i requires 0 <= i < |log| => HeadAt(c, log, i + 1));
    forall i | 0 <= i < |log|
      ensures Check(heads[i])
      ensures Round(c, heads[i], server, archive, k) == heads[Reach(i, k, |log| - 1)]
    {
      CompleteRound(c, server, log, archive, i + 1, k);
    }
    RoundsFollow(c, server, heads, archive, q - 1, k, rounds, gap);
  }

  /** If one round moves `k` places along a list of heads, `rounds` rounds move `rounds * k`. */
  lemma {:induction false} RoundsFollow(
      c: Crypto, server: Head, heads: seq<Head>, archive: Archive, q: nat, k: nat, rounds: nat, gap: nat)
    requires Check(server) && q < |heads| && gap == rounds * k
    requires forall i :: 0 <= i < |heads| ==> Check(heads[i])
    requires forall i :: 0 <= i < |heads| ==>
      Round(c, heads[i], server, archive, k) == heads[Reach(i, k, |heads| - 1)]
    ensures SyncRounds(c, heads[q], server, archive, k, rounds) == heads[Reach(q, gap, |heads| - 1)]
    decreases rounds
  {
    hide Check;
    hide Round;
    if rounds == 0 {
      assert gap == 0 && Reach(q, gap, |heads| - 1) == q;
    } else {
      OneFewer(rounds, k);
      RoundsFollow(c, server, heads, archive, q, k, rounds - 1, gap - k);
      var e := Reach(q, gap - k, |heads| - 1);
      assert Reach(e, k, |heads| - 1) == Reach(q, gap, |heads| - 1);
    }
  }

  lemma {:induction false} OneFewer(rounds: nat, k: nat)
    requires rounds > 0
    ensures rounds * k - k == (rounds - 1) * k && rounds * k >= k
  {
    assert rounds * k == (rounds - 1) * k + k;
  }

  lemma {:induction false} SameCoresSameHead(c: Crypto, h: Head, a: seq<Statement>, log: seq<Statement>)
    requires Good(c, log) && a != [] && SamePrefix(a, log, |a|) && Describes(c, h, Cores(a)) && !h.forked
    ensures h == HeadAt(c, log, |a|)
  {
    hide Check;
    hide Fold;
    hide Good;
    var q := |a|;
    GoodPrefix(c, log, q);
    FoldDescribed(c, log[..q]);
    assert Cores(log[..q]) == Cores(a);
    DescribesUnique(c, h, HeadAt(c, log, q), Cores(a));
  }

  /** A follower whose head hash the server's chain contains stands on that chain. */
  lemma {:induction false} FollowerOnChain(c: Crypto, x: seq<Input>, y: seq<Input>)
    requires Run(c, x).Some? && Run(c, y).Some? && !Run(c, x).value.forked
    requires Run(c, x).value.hash in Run(c, y).value.applied
    ensures var a, log := LogOf(c, x), LogOf(c, y);
      && Stands(c, Run(c, y).value, log)
      && (|| Collision(c, a, log)
          || (0 < |a| <= |log| && Run(c, x).value == HeadAt(c, log, |a|)))
  {
    hide Check;
    hide Fold;
    hide Run;
    hide LogOf;
    hide Collision;
    var a, log := LogOf(c, x), LogOf(c, y);
    RunIsFold(c, y);
    ReachableHeads(c, x);
    ReachableHeads(c, y);
    var j :| 0 <= j < |log| && Run(c, y).value.applied[j] == Run(c, x).value.hash;
    assert c.hash(Cores(log)[j]) == c.hash(Cores(a)[|a| - 1]);
    HashForcesChain(c, a, log, |a| - 1, j);
    if !Collision(c, a, log) {
      SameCoresSameHead(c, Run(c, x).value, a, log);
    }
  }

  /** Sync converges: an unforked follower whose head is on the server's chain reaches the server's
      head, apart from `forked`, once `rounds` answers of up to `k` statements cover the gap. */
  lemma {:induction false} SyncConverges(c: Crypto, x: seq<Input>, y: seq<Input>, archive: Archive, k: nat, rounds: nat)
    requires Run(c, x).Some? && Run(c, y).Some? && !Run(c, x).value.forked
    requires Run(c, x).value.hash in Run(c, y).value.applied
    requires Complete(archive, LogOf(c, y))
    requires rounds * k >= Run(c, y).value.sequence - Run(c, x).value.sequence
    ensures
      || SyncRounds(c, Run(c, x).value, Run(c, y).value, archive, k, rounds) == Unforked(Run(c, y).value)
      || Collision(c, LogOf(c, x), LogOf(c, y)) || Collision(c, LogOf(c, y), LogOf(c, y))
  {
    hide Check;
    hide Fold;
    hide Run;
    hide LogOf;
    hide Collision;
    var log := LogOf(c, y);
    FollowerOnChain(c, x, y);
    StandsFor(c, Run(c, y).value, log);
    if !Collision(c, LogOf(c, x), log) && !Collision(c, log, log) {
      var q := |LogOf(c, x)|;
      HeadAtFields(c, log, q);
      RoundsAdvance(c, Run(c, y).value, log, archive, q, k, rounds, rounds * k);
    }
  }
}

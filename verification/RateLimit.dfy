/** The token bucket behind the RPC responder, over exact reals. */
module RateLimit {
  import opened Basics

  const BURST := 16.0
  const REFILL := 4.0

  /** Tokens left, and when they were last counted. */
  datatype Bucket = Bucket(tokens: real, last: real)

  function Elapsed(now: real, last: real): real {
    if now > last then now - last else 0.0
  }

  function Min(a: real, b: real): real {
    if a < b then a else b
  }

  function Allow(b: Option<Bucket>, now: real): (Bucket, bool) {
    var start := if b.Some? then b.value else Bucket(BURST, now);
    var tokens := Min(start.tokens + Elapsed(now, start.last) * REFILL, BURST);
    if tokens >= 1.0 then (Bucket(tokens - 1.0, now), true) else (Bucket(tokens, now), false)
  }

  // ---------------------------------------------------------------- one caller

  /** The bucket after a caller's calls at `times`, and how many were allowed. */
  function Calls(b: Option<Bucket>, times: seq<real>): (Option<Bucket>, nat) {
    if times == [] then (b, 0)
    else
      var (b', n) := Calls(b, times[..|times| - 1]);
      var (b'', ok) := Allow(b', times[|times| - 1]);
      (Some(b''), n + if ok then 1 else 0)
  }

  predicate Ordered(times: seq<real>) {
    forall i, j :: 0 <= i < j < |times| ==> times[i] <= times[j]
  }

  predicate Sensible(b: Option<Bucket>, now: real) {
    b.Some? ==> 0.0 <= b.value.tokens <= BURST && b.value.last <= now
  }

  /** Tokens are conserved: what was allowed came from the burst or from refills. */
  lemma {:induction false} TokensConserved(b: Option<Bucket>, times: seq<real>)
    requires Ordered(times) && times != [] && Sensible(b, times[0])
    ensures var (b', n) := Calls(b, times);
      && b'.Some? && b'.value.last == times[|times| - 1] && 0.0 <= b'.value.tokens <= BURST
      && n as real + b'.value.tokens <= BURST + REFILL * (times[|times| - 1] - times[0])
  {
    var before, now := times[..|times| - 1], times[|times| - 1];
    if before == [] {
      assert Calls(b, before) == (b, 0);
    } else {
      TokensConserved(b, before);
      assert before[|before| - 1] <= now;
    }
  }

  lemma {:induction false} CallsSplit(b: Option<Bucket>, first: seq<real>, rest: seq<real>)
    ensures Calls(b, first + rest) ==
      (Calls(Calls(b, first).0, rest).0, Calls(b, first).1 + Calls(Calls(b, first).0, rest).1)
    decreases |rest|
  {
    hide Allow;
    if rest == [] {
      assert first + rest == first;
    } else {
      var n := |rest| - 1;
      assert (first + rest)[..|first| + n] == first + rest[..n];
      CallsSplit(b, first, rest[..n]);
    }
  }

  /** How many of the calls from `i` up to `j` were allowed. */
  function AllowedBetween(b: Option<Bucket>, times: seq<real>, i: nat, j: nat): int
    requires i <= j <= |times|
  {
    Calls(b, times[..j]).1 - Calls(b, times[..i]).1
  }

  /** In any window of length `d` at most 16 + 4d calls get through, whatever went before. */
  lemma {:induction false} WindowBound(times: seq<real>, i: nat, j: nat, d: real)
    requires Ordered(times) && i < j <= |times| && times[j - 1] - times[i] <= d
    ensures AllowedBetween(None, times, i, j) as real <= BURST + REFILL * d
  {
    var before, window := times[..i], times[i..j];
    assert times[..j] == before + window;
    OrderedSlices(times, i, j);
    SensibleAfter(before, times[i]);
    hide Calls;
    hide Ordered;
    hide Sensible;
    assert window[0] == times[i] && window[|window| - 1] == times[j - 1];
    var start := Calls(None, before).0;
    FromSensible(start, window, d);
    CallsSplit(None, before, window);
    assert AllowedBetween(None, times, i, j) == Calls(start, window).1;
  }

  lemma {:induction false} SensibleAfter(times: seq<real>, now: real)
    requires Ordered(times) && (times != [] ==> times[|times| - 1] <= now)
    ensures Sensible(Calls(None, times).0, now)
  {
    if times != [] {
      TokensConserved(None, times);
    }
  }

  lemma {:induction false} FromSensible(b: Option<Bucket>, times: seq<real>, d: real)
    requires Ordered(times) && times != [] && Sensible(b, times[0]) && times[|times| - 1] - times[0] <= d
    ensures Calls(b, times).1 as real <= BURST + REFILL * d
  {
    TokensConserved(b, times);
    hide Calls;
    Spent(Calls(b, times).1, Calls(b, times).0.value.tokens, times[|times| - 1] - times[0], d);
  }

  lemma {:induction false} Spent(n: nat, tokens: real, elapsed: real, d: real)
    requires n as real + tokens <= BURST + REFILL * elapsed && tokens >= 0.0 && elapsed <= d
    ensures n as real <= BURST + REFILL * d
  {
  }

  lemma {:induction false} OrderedSlices(times: seq<real>, i: nat, j: nat)
    requires Ordered(times) && i < j <= |times|
    ensures Ordered(times[..i]) && Ordered(times[i..j])
    ensures i > 0 ==> times[i - 1] <= times[i]
  {
  }

  /** A caller that waits at least a quarter second between calls is never refused. */
  lemma {:induction false} PatientCallersPass(times: seq<real>)
    requires forall i :: 0 < i < |times| ==> times[i] - times[i - 1] >= 0.25
    ensures Calls(None, times).1 == |times|
    ensures times != [] ==>
      var b := Calls(None, times).0; b.Some? && 0.0 <= b.value.tokens <= BURST && b.value.last == times[|times| - 1]
  {
    if times != [] {
      var before := times[..|times| - 1];
      assert forall i :: 0 < i < |before| ==> before[i] - before[i - 1] == times[i] - times[i - 1];
      PatientCallersPass(before);
    }
  }

  // ---------------------------------------------------------------- the burst

  /** The bucket holds at least this much at `now`. */
  ghost predicate HoldsAtLeast(b: Option<Bucket>, now: real, tokens: real) {
    if b.Some? then b.value.tokens + Elapsed(now, b.value.last) * REFILL >= tokens && tokens <= BURST
    else tokens <= BURST
  }

  /** Whoever holds `n` tokens gets the next `n` calls through, whenever they come. */
  lemma {:induction false} TokensAreSpent(b: Option<Bucket>, times: seq<real>, n: nat)
    requires |times| <= n && (times != [] ==> HoldsAtLeast(b, times[0], n as real))
    ensures Calls(b, times).1 == |times|
    ensures times != [] ==> Calls(b, times).0.Some? && Calls(b, times).0.value.tokens >= (n - |times|) as real
  {
    if times != [] {
      var before := times[..|times| - 1];
      TokensAreSpent(b, before, n);
      if before != [] {
        SpendOne(Calls(b, before).0, times[|times| - 1], n - |before|);
      } else {
        assert Calls(b, before) == (b, 0);
        SpendFirst(b, times[0], n);
      }
    }
  }

  lemma {:induction false} SpendFirst(b: Option<Bucket>, now: real, n: nat)
    requires n > 0 && HoldsAtLeast(b, now, n as real)
    ensures Allow(b, now).1 && Allow(b, now).0.tokens >= (n - 1) as real
  {
  }

  lemma {:induction false} SpendOne(b: Option<Bucket>, now: real, n: nat)
    requires 0 < n <= 16 && b.Some? && b.value.tokens >= n as real
    ensures Allow(b, now).1 && Allow(b, now).0.tokens >= (n - 1) as real
  {
    assert Elapsed(now, b.value.last) >= 0.0;
  }

  /** A new caller's first sixteen calls pass, however close together; sixteen is exact: of any number at one
      instant no more pass. */
  lemma {:induction false} NewCallersBurst(times: seq<real>, now: real)
    ensures |times| <= 16 ==> Calls(None, times).1 == |times|
    ensures (forall i :: 0 <= i < |times| ==> times[i] == now) ==>
      Calls(None, times).1 == if |times| <= 16 then |times| else 16
  {
    if |times| <= 16 {
      TokensAreSpent(None, times, 16);
    }
    if forall i :: 0 <= i < |times| ==> times[i] == now {
      AtOneInstant(times, now);
    }
  }

  lemma {:induction false} AtOneInstant(times: seq<real>, now: real)
    requires forall i :: 0 <= i < |times| ==> times[i] == now
    ensures Calls(None, times).1 == if |times| <= 16 then |times| else 16
    ensures times != [] ==>
      Calls(None, times).0 == Some(Bucket(if |times| <= 16 then 16.0 - |times| as real else 0.0, now))
  {
    if times != [] {
      AtOneInstant(times[..|times| - 1], now);
    }
  }

  /** A caller that has been quiet for four seconds has its whole burst again. */
  lemma {:induction false} RestedCallersBurst(before: seq<real>, times: seq<real>)
    requires Ordered(before) && before != [] && times != [] && |times| <= 16
    requires times[0] - before[|before| - 1] >= 4.0
    ensures Calls(Calls(None, before).0, times).1 == |times|
  {
    TokensConserved(None, before);
    TokensAreSpent(Calls(None, before).0, times, 16);
  }

  // ---------------------------------------------------------------- all callers

  /** One call: who, and when. */
  datatype Call = Call(peer: string, at: real)

  function Serve(buckets: map<string, Bucket>, call: Call): (map<string, Bucket>, bool) {
    var (b, ok) := Allow(if call.peer in buckets then Some(buckets[call.peer]) else None, call.at);
    (buckets[call.peer := b], ok)
  }

  function ServeAll(calls: seq<Call>): map<string, Bucket> {
    if calls == [] then map[] else Serve(ServeAll(calls[..|calls| - 1]), calls[|calls| - 1]).0
  }

  function TimesOf(calls: seq<Call>, peer: string): seq<real> {
    if calls == [] then []
    else
      var before, last := calls[..|calls| - 1], calls[|calls| - 1];
      if last.peer == peer then TimesOf(before, peer) + [last.at] else TimesOf(before, peer)
  }

  function AllowedFor(calls: seq<Call>, peer: string): nat {
    if calls == [] then 0
    else
      var before, last := calls[..|calls| - 1], calls[|calls| - 1];
      AllowedFor(before, peer) + if last.peer == peer && Serve(ServeAll(before), last).1 then 1 else 0
  }

  lemma {:induction false} OneMoreCall(b: Option<Bucket>, times: seq<real>, now: real)
    ensures var (b', n) := Calls(b, times);
      var (b'', ok) := Allow(b', now);
      Calls(b, times + [now]) == (Some(b''), n + if ok then 1 else 0)
  {
    hide Allow;
    assert (times + [now])[..|times|] == times;
  }

  ghost predicate Alone(calls: seq<Call>, peer: string) {
    var (b, n) := Calls(None, TimesOf(calls, peer));
    && b == (if peer in ServeAll(calls) then Some(ServeAll(calls)[peer]) else None)
    && n == AllowedFor(calls, peer)
  }

  /** Callers do not share tokens: each fares as if it were alone. */
  lemma {:induction false} CallersAreSeparate(calls: seq<Call>, peer: string)
    ensures Alone(calls, peer)
  {
    hide Allow;
    if calls != [] {
      var before, last := calls[..|calls| - 1], calls[|calls| - 1];
      CallersAreSeparate(before, peer);
      if last.peer == peer {
        OneMoreCall(None, TimesOf(before, peer), last.at);
      }
      hide Calls;
    }
  }

  // ---------------------------------------------------------------- the bound, among all callers

  predicate InOrder(calls: seq<Call>) {
    forall i, j :: 0 <= i < j < |calls| ==> calls[i].at <= calls[j].at
  }

  /** A caller's times are ordered and lie between any bounds on all the calls. */
  lemma {:induction false} TimesInOrder(calls: seq<Call>, peer: string, low: real, high: real)
    requires InOrder(calls) && forall i :: 0 <= i < |calls| ==> low <= calls[i].at <= high
    ensures Ordered(TimesOf(calls, peer))
    ensures forall k :: 0 <= k < |TimesOf(calls, peer)| ==> low <= TimesOf(calls, peer)[k] <= high
  {
    if calls != [] {
      var before, last := calls[..|calls| - 1], calls[|calls| - 1];
      forall i | 0 <= i < |before| ensures low <= before[i].at <= last.at {
        assert before[i] == calls[i];
      }
      TimesInOrder(before, peer, low, last.at);
    }
  }

  lemma {:induction false} TimesJoin(a: seq<Call>, b: seq<Call>, peer: string)
    ensures TimesOf(a + b, peer) == TimesOf(a, peer) + TimesOf(b, peer)
    decreases |b|
  {
    if b == [] {
      assert a + b == a;
    } else {
      var n := |b| - 1;
      assert (a + b)[..|a| + n] == a + b[..n] && (a + b)[|a| + n] == b[n];
      TimesJoin(a, b[..n], peer);
    }
  }

  lemma {:induction false} SliceInOrder(calls: seq<Call>, i: nat, j: nat)
    requires InOrder(calls) && i < j <= |calls|
    ensures InOrder(calls[..j]) && InOrder(calls[i..j])
    ensures forall k :: 0 <= k < j - i ==> calls[i].at <= calls[i..j][k].at <= calls[j - 1].at
    ensures forall k :: 0 <= k < j ==> calls[0].at <= calls[..j][k].at <= calls[j - 1].at
  {
    assert forall k :: 0 <= k < j - i ==> calls[i..j][k] == calls[i + k];
    assert forall k :: 0 <= k < j ==> calls[..j][k] == calls[k];
  }

  /** Among any callers' interleaved calls, one peer gets at most 16 + 4d through in a window of length `d`. */
  lemma {:induction false} PeerWindowBound(calls: seq<Call>, peer: string, i: nat, j: nat, d: real)
    requires InOrder(calls) && i < j <= |calls| && calls[j - 1].at - calls[i].at <= d
    ensures (AllowedFor(calls[..j], peer) - AllowedFor(calls[..i], peer)) as real <= BURST + REFILL * d
  {
    var first, window, times := TimesOf(calls[..i], peer), TimesOf(calls[i..j], peer), TimesOf(calls[..j], peer);
    assert calls[..j] == calls[..i] + calls[i..j];
    TimesJoin(calls[..i], calls[i..j], peer);
    SliceInOrder(calls, i, j);
    TimesInOrder(calls[i..j], peer, calls[i].at, calls[j - 1].at);
    TimesInOrder(calls[..j], peer, calls[0].at, calls[j - 1].at);
    CallersAreSeparate(calls[..i], peer);
    CallersAreSeparate(calls[..j], peer);
    hide Calls;
    hide TimesOf;
    hide AllowedFor;
    hide ServeAll;
    if window == [] {
      assert times == first;
      assert calls[i].at <= calls[j - 1].at;
    } else {
      assert times[..|first|] == first && times[..|times|] == times;
      assert times[|first|] == window[0] && times[|times| - 1] == window[|window| - 1];
      WindowBound(times, |first|, |times|, d);
    }
  }

  class RpcLimiter {
    var buckets: map<string, Bucket>

    constructor ()
      ensures buckets == map[]
    {
      buckets := map[];
    }

    method AllowAt(peer: string, now: real) returns (ok: bool)
      modifies this
      ensures (buckets, ok) == Serve(old(buckets), Call(peer, now))
    {
      var tokens, last := BURST, now;
      if peer in buckets {
        tokens, last := buckets[peer].tokens, buckets[peer].last;
      }
      tokens := Min(tokens + Elapsed(now, last) * REFILL, BURST);
      ok := tokens >= 1.0;
      if ok {
        tokens := tokens - 1.0;
      }
      buckets := buckets[peer := Bucket(tokens, now)];
    }
  }
}

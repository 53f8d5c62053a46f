/**
 * The per-token fixed-window request counter of `CheckLimitsMiddlware`.
 * Each token owns an entry with a request counter and the end of its current
 * window; `N` requests are allowed per window of `M` milliseconds, and a
 * window is renewed lazily, by the first over-limit request after it ended.
 */
module Limiter {
  import opened Wrappers

  /** The cached state of one token: requests counted and the window's end (ms). */
  datatype Entry = Entry(counter: int, endTime: int)

  /** What the limiter answers for one request. */
  datatype Decision = Allowed | Rejected(retryAfter: int)

  /** The entry after a request, and the answer to it. */
  datatype Transition = Transition(entry: Entry, decision: Decision)

  /** The entries and answers after a sequence of requests of one token. */
  datatype Trace = Trace(last: Option<Entry>, decisions: seq<Decision>)

  function Lookup(cache: map<string, Entry>, token: string): Option<Entry> {
    if token in cache then Some(cache[token]) else None
  }

  /**
   * One request at time `now` for a token whose entry is `e` (None when the
   * token has not been seen), with `n` requests allowed per window of `m` ms.
   */
  function Step(e: Option<Entry>, n: int, m: int, now: int): (r: Transition)
    ensures (e.Some? ==> e.value.counter >= 0) ==> r.entry.counter >= 1
    ensures r.decision.Allowed? ==> r.entry.counter <= n || r.entry == Entry(1, now + m)
    ensures r.decision.Rejected? ==> 0 < r.decision.retryAfter && r.entry.endTime == now + r.decision.retryAfter
  {
    var cur := if e.Some? then e.value else Entry(0, now + m);
    var counted := cur.(counter := cur.counter + 1);
    if counted.counter <= n then Transition(counted, Allowed)
    else if now < counted.endTime then Transition(counted, Rejected(counted.endTime - now))
    else Transition(Entry(1, now + m), Allowed)
  }

  /** The requests of one token at the times `times`, in order, starting from entry `e`. */
  function Run(e: Option<Entry>, n: int, m: int, times: seq<int>): (r: Trace)
    ensures |r.decisions| == |times|
    decreases |times|
  {
    if times == [] then Trace(e, [])
    else
      var t := Step(e, n, m, times[0]);
      var rest := Run(Some(t.entry), n, m, times[1..]);
      Trace(rest.last, [t.decision] + rest.decisions)
  }

  function CountAllowed(ds: seq<Decision>): nat
    decreases |ds|
  {
    if ds == [] then 0 else (if ds[0].Allowed? then 1 else 0) + CountAllowed(ds[1..])
  }

  function Clamp(x: int, lo: int, hi: int): int {
    if x < lo then lo else if x > hi then hi else x
  }

  /** A request at `s` starts a new window: the token is unseen, or its window ended and its limit is used up. */
  predicate OpensWindow(e: Option<Entry>, n: int, s: int) {
    e.None? || (e.value.counter >= n && s >= e.value.endTime)
  }

  predicate Nondecreasing(times: seq<int>) {
    forall i, j :: 0 <= i < j < |times| ==> times[i] <= times[j]
  }

  /** An unseen token gets counter 0 and endTime now + m, which the increment turns into counter 1. */
  lemma UnseenToken(n: int, m: int, now: int)
    ensures Step(None, n, m, now).entry == Entry(1, now + m)
    ensures Step(None, n, m, now).decision == if n >= 1 || m <= 0 then Allowed else Rejected(m)
  {
  }

  /** Within the limit the request is admitted, the counter grows by one and endTime is kept. */
  lemma WithinLimit(e: Entry, n: int, m: int, now: int)
    requires e.counter + 1 <= n
    ensures Step(Some(e), n, m, now) == Transition(Entry(e.counter + 1, e.endTime), Allowed)
  {
  }

  /**
   * Over the limit before the window ends the request is rejected with the
   * positive time left; the counter stays incremented and endTime is kept.
   */
  lemma OverLimitInWindow(e: Entry, n: int, m: int, now: int)
    requires e.counter + 1 > n && now < e.endTime
    ensures Step(Some(e), n, m, now) == Transition(Entry(e.counter + 1, e.endTime), Rejected(e.endTime - now))
    ensures Step(Some(e), n, m, now).decision.retryAfter > 0
  {
  }

  /** Over the limit once the window has ended, a new window starts at `now` and the request is admitted. */
  lemma OverLimitAfterWindow(e: Entry, n: int, m: int, now: int)
    requires e.counter + 1 > n && now >= e.endTime
    ensures Step(Some(e), n, m, now) == Transition(Entry(1, now + m), Allowed)
  {
  }

  /** A request is rejected exactly when its incremented counter exceeds n before endTime. */
  lemma RejectedIff(e: Entry, n: int, m: int, now: int)
    ensures Step(Some(e), n, m, now).decision.Rejected? <==> e.counter + 1 > n && now < e.endTime
  {
  }

  /** With no requests allowed and a positive window, the very first request of a token is rejected. */
  lemma ZeroLimitFirstRejected(n: int, m: int, now: int)
    requires n <= 0 < m
    ensures Step(None, n, m, now).decision == Rejected(m)
  {
  }

  /** Even with no requests allowed, the first request after the window ended is admitted. */
  lemma ZeroLimitAdmitsAfterWindow(e: Entry, m: int, now: int)
    requires e.counter >= 0 && now >= e.endTime
    ensures Step(Some(e), 0, m, now) == Transition(Entry(1, now + m), Allowed)
  {
  }

  /**
   * Requests before the window's end never renew it: every one of them is
   * counted, the i-th is admitted exactly while the counter stays within n,
   * and the others are rejected with the time left until endTime.
   */
  lemma {:induction false} InWindowRun(e: Entry, n: int, m: int, times: seq<int>)
    requires forall i :: 0 <= i < |times| ==> times[i] < e.endTime
    ensures Run(Some(e), n, m, times).last == Some(Entry(e.counter + |times|, e.endTime))
    ensures forall i :: 0 <= i < |times| ==>
      Run(Some(e), n, m, times).decisions[i] ==
        (if e.counter + i + 1 <= n then Allowed else Rejected(e.endTime - times[i]))
    decreases |times|
  {
    if times != [] {
      var t := Step(Some(e), n, m, times[0]);
      assert t.entry == Entry(e.counter + 1, e.endTime);
      var rest := Run(Some(t.entry), n, m, times[1..]);
      InWindowRun(t.entry, n, m, times[1..]);
      var ds := Run(Some(e), n, m, times).decisions;
      assert ds == [t.decision] + rest.decisions;
      forall i | 0 <= i < |times|
        ensures ds[i] == (if e.counter + i + 1 <= n then Allowed else Rejected(e.endTime - times[i]))
      {
        if i > 0 {
          assert ds[i] == rest.decisions[i - 1];
          assert times[1..][i - 1] == times[i];
        }
      }
    }
  }

  /** Before the window's end, a token with counter c gets exactly clamp(n - c) more requests admitted. */
  lemma {:induction false} InWindowAllowedCount(e: Entry, n: int, m: int, times: seq<int>)
    requires forall i :: 0 <= i < |times| ==> times[i] < e.endTime
    ensures CountAllowed(Run(Some(e), n, m, times).decisions) == Clamp(n - e.counter, 0, |times|)
    decreases |times|
  {
    if times != [] {
      var t := Step(Some(e), n, m, times[0]);
      assert t.entry == Entry(e.counter + 1, e.endTime);
      var rest := Run(Some(t.entry), n, m, times[1..]);
      InWindowAllowedCount(t.entry, n, m, times[1..]);
      var ds := Run(Some(e), n, m, times).decisions;
      assert ds == [t.decision] + rest.decisions;
      assert ds[1..] == rest.decisions;
    }
  }

  /**
   * With n >= 1, a window opened at time s admits exactly its first n
   * requests before s + m: in particular at most n, and the (n+1)-th is rejected.
   */
  lemma WindowAdmitsAtMostN(e: Option<Entry>, n: int, m: int, s: int, times: seq<int>)
    requires n >= 1
    requires OpensWindow(e, n, s)
    requires forall i :: 0 <= i < |times| ==> times[i] < s + m
    ensures forall i :: 0 <= i <= |times| ==> (Run(e, n, m, [s] + times).decisions[i].Allowed? <==> i < n)
    ensures CountAllowed(Run(e, n, m, [s] + times).decisions) == Clamp(n, 0, |times| + 1) <= n
  {
    var all := [s] + times;
    assert all[0] == s && all[1..] == times;
    var first := Step(e, n, m, s);
    assert first == Transition(Entry(1, s + m), Allowed);
    var rest := Run(Some(first.entry), n, m, times);
    InWindowRun(first.entry, n, m, times);
    InWindowAllowedCount(first.entry, n, m, times);
    var ds := Run(e, n, m, all).decisions;
    assert ds == [Allowed] + rest.decisions;
    assert ds[1..] == rest.decisions;
    forall i | 0 <= i <= |times|
      ensures ds[i].Allowed? <==> i < n
    {
      if i > 0 {
        assert ds[i] == rest.decisions[i - 1];
      }
    }
  }

  /**
   * For requests at nondecreasing times, every rejection waits a positive
   * time of at most m, provided the starting window ends at most m after `clock`
   * and no request comes before `clock`.
   */
  lemma {:induction false} RetryAfterBounds(e: Option<Entry>, n: int, m: int, clock: int, times: seq<int>)
    requires Nondecreasing(times)
    requires forall i :: 0 <= i < |times| ==> clock <= times[i]
    requires e.Some? ==> e.value.endTime <= clock + m
    ensures forall i :: 0 <= i < |times| ==>
      Run(e, n, m, times).decisions[i].Rejected? ==> 0 < Run(e, n, m, times).decisions[i].retryAfter <= m
    decreases |times|
  {
    if times != [] {
      var now := times[0];
      var t := Step(e, n, m, now);
      assert t.entry.endTime <= now + m;
      var rest := Run(Some(t.entry), n, m, times[1..]);
      var ds := Run(e, n, m, times).decisions;
      assert ds == [t.decision] + rest.decisions;
      forall i | 0 <= i < |times| - 1
        ensures now <= times[1..][i]
      {
        assert times[1..][i] == times[i + 1];
      }
      RetryAfterBounds(Some(t.entry), n, m, now, times[1..]);
      forall i | 0 <= i < |times|
        ensures ds[i].Rejected? ==> 0 < ds[i].retryAfter <= m
      {
        if i > 0 {
          assert ds[i] == rest.decisions[i - 1];
        }
      }
    }
  }

  /**
   * The limiter state: the fixed settings N (requests per window) and M
   * (window length in ms), and the cache of entries keyed by token.
   */
  class Throttler {
    const N: int
    const M: int
    var cache: map<string, Entry>

    /** Every cached token has counted at least the request that created its entry. */
    ghost predicate Valid()
      reads this
    {
      forall token :: token in cache ==> cache[token].counter >= 1
    }

    /** A throttler with the given settings and no cached token. */
    constructor (n: int, m: int)
      ensures N == n && M == m
      ensures cache == map[]
      ensures Valid()
    {
      N, M := n, m;
      cache := map[];
    }

    /**
     * Counts a request of `token` at time `now` and decides it. Only the
     * token's own entry changes; the key set grows by that token at most.
     */
    method Admit(token: string, now: int) returns (d: Decision)
      requires Valid()
      modifies this
      ensures Valid()
      ensures cache == old(cache)[token := Step(Lookup(old(cache), token), N, M, now).entry]
      ensures d == Step(Lookup(old(cache), token), N, M, now).decision
      ensures cache.Keys == old(cache).Keys + {token}
      ensures forall other :: other in old(cache) && other != token ==> cache[other] == old(cache)[other]
      ensures N == 0 && token in old(cache) && old(cache)[token].endTime <= now ==>
        d == Allowed && cache[token] == Entry(1, now + M)
    {
      var entry: Entry;
      if token in cache {
        entry := cache[token];
      } else {
        entry := Entry(0, now + M);
        cache := cache[token := entry];
      }
      entry := entry.(counter := entry.counter + 1);
      if entry.counter > N {
        if now < entry.endTime {
          cache := cache[token := entry];
          return Rejected(entry.endTime - now);
        }
        entry := Entry(1, now + M);
      }
      cache := cache[token := entry];
      d := Allowed;
    }
  }
}

/** A registered resolver's circuit breaker and the worker's rate (`_Breaker` and `Resolvers.wait` in
  * `src/niadra/resolvers.py`). Clock readings are parameters. */
module Resolvers {
  import opened Basics

  const FAILURES: nat := 5
  const WINDOW := 30.0
  const OPEN := 30.0

  // ---- The breaker ----

  datatype State = State(failures: seq<real>, openUntil: real)

  const CLOSED := State([], 0.0)

  predicate Lately(t: real, now: real) { now - t < WINDOW }

  function Recent(failures: seq<real>, now: real): (r: seq<real>)
    ensures |r| <= |failures|
  {
    if failures == [] then []
    else (if Lately(failures[0], now) then [failures[0]] else []) + Recent(failures[1..], now)
  }

  function AfterFailed(s: State, now: real): State {
    var failures := Recent(s.failures, now) + [now];
    if |failures| >= FAILURES then State([], now + OPEN) else s.(failures := failures)
  }

  class Breaker {
    var failures: seq<real>
    var openUntil: real

    ghost function View(): State
      reads this
    {
      State(failures, openUntil)
    }

    constructor ()
      ensures View() == CLOSED
    {
      failures, openUntil := [], 0.0;
    }

    method Closed(now: real) returns (closed: bool)
      ensures closed <==> now >= openUntil
    {
      closed := now >= openUntil;
    }

    method Failed(now: real)
      modifies this
      ensures View() == AfterFailed(old(View()), now)
    {
      var kept := [];
      var i := |failures|;
      while i > 0
        invariant 0 <= i <= |failures| && kept == Recent(failures[i..], now)
      {
        i := i - 1;
        assert failures[i..][1..] == failures[i + 1..];
        if now - failures[i] < WINDOW {
          kept := [failures[i]] + kept;
        }
      }
      assert failures[0..] == failures;
      failures := kept + [now];
      if |failures| >= FAILURES {
        openUntil, failures := now + OPEN, [];
      }
    }

    method Succeeded()
      modifies this`failures
      ensures failures == []
    {
      failures := [];
    }
  }

  /** What a call to the resolver came to: an object, or that there is none, both a success. */
  datatype Outcome = Success | Failure(at: real)

  function After(s: State, e: Outcome): State {
    match e
    case Success => s.(failures := [])
    case Failure(at) => AfterFailed(s, at)
  }

  function AfterAll(outcomes: seq<Outcome>): State {
    if outcomes == [] then CLOSED else After(AfterAll(outcomes[..|outcomes| - 1]), outcomes[|outcomes| - 1])
  }

  predicate OpensAt(outcomes: seq<Outcome>, n: nat)
    requires n < |outcomes|
  {
    outcomes[n].Failure? && |Recent(AfterAll(outcomes[..n]).failures, outcomes[n].at) + [outcomes[n].at]| >= FAILURES
  }

  /** The failures since the last success or opening, all of them. */
  function Since(outcomes: seq<Outcome>): seq<real> {
    if outcomes == [] then []
    else
      var init, last := outcomes[..|outcomes| - 1], outcomes[|outcomes| - 1];
      if last.Success? || OpensAt(outcomes, |outcomes| - 1) then [] else Since(init) + [last.at]
  }

  predicate Ascending(ts: seq<real>) { forall i, j :: 0 <= i < j < |ts| ==> ts[i] <= ts[j] }

  /** The readings of one clock that never goes back. */
  predicate Timely(outcomes: seq<Outcome>) {
    forall i, j :: 0 <= i < j < |outcomes| && outcomes[i].Failure? && outcomes[j].Failure? ==>
                     outcomes[i].at <= outcomes[j].at
  }

  lemma {:induction false} AllRecent(ts: seq<real>, now: real)
    requires forall k :: 0 <= k < |ts| ==> Lately(ts[k], now)
    ensures Recent(ts, now) == ts
  {
    if ts != [] {
      AllRecent(ts[1..], now);
      assert [ts[0]] + ts[1..] == ts;
    }
  }

  /** Of failures in order, the recent ones are a tail: the k-th last is recent exactly when there are k. */
  lemma {:induction false} RecentIsTail(ts: seq<real>, now: real, k: nat)
    requires Ascending(ts) && 1 <= k <= |ts|
    ensures |Recent(ts, now)| >= k <==> Lately(ts[|ts| - k], now)
  {
    if Lately(ts[0], now) {
      AllRecent(ts, now);
    } else if k < |ts| {
      RecentIsTail(ts[1..], now, k);
    }
  }

  lemma {:induction false} SinceAreFailures(outcomes: seq<Outcome>, t: real)
    requires t in Since(outcomes)
    ensures Failure(t) in outcomes
  {
    var n := |outcomes| - 1;
    if t in Since(outcomes[..n]) {
      SinceAreFailures(outcomes[..n], t);
    }
  }

  lemma TimelyPrefix(outcomes: seq<Outcome>, n: nat)
    requires Timely(outcomes) && n <= |outcomes|
    ensures Timely(outcomes[..n])
  {
  }

  lemma TimelySkips(init: seq<Outcome>, last: Outcome, next: Outcome)
    requires Timely(init + [last] + [next])
    ensures Timely(init + [last]) && Timely(init + [next])
    ensures last.Failure? && next.Failure? ==> last.at <= next.at
  {
    var all := init + [last] + [next];
    var n := |init|;
    assert all[n] == last && all[n + 1] == next;
    assert all[..n + 1] == init + [last];
    forall i, j | 0 <= i < j < n + 1 && (init + [next])[i].Failure? && (init + [next])[j].Failure?
      ensures (init + [next])[i].at <= (init + [next])[j].at
    {
      assert (init + [next])[i] == all[i];
      assert (init + [next])[j] == all[if j == n then n + 1 else j];
    }
  }

  lemma {:induction false} SinceAscends(outcomes: seq<Outcome>)
    requires Timely(outcomes)
    ensures Ascending(Since(outcomes))
  {
    if outcomes != [] {
      var n := |outcomes| - 1;
      var before := Since(outcomes[..n]);
      TimelyPrefix(outcomes, n);
      SinceAscends(outcomes[..n]);
      if outcomes[n].Failure? {
        forall i | 0 <= i < |before|
          ensures before[i] <= outcomes[n].at
        {
          SinceAreFailures(outcomes[..n], before[i]);
          var k :| 0 <= k < n && outcomes[..n][k] == Failure(before[i]);
          assert outcomes[k] == Failure(before[i]);
        }
      }
    }
  }

  /** The failures the breaker keeps are the last of those, up to the window. */
  lemma {:induction false} KeepsTheRecent(outcomes: seq<Outcome>, now: real)
    requires Timely(outcomes + [Failure(now)])
    ensures Recent(AfterAll(outcomes).failures, now) == Recent(Since(outcomes), now)
  {
    if outcomes != [] {
      var n := |outcomes| - 1;
      var init, last := outcomes[..n], outcomes[n];
      assert init + [last] == outcomes;
      TimelySkips(init, last, Failure(now));
      if last.Failure? {
        KeepsTheRecent(init, last.at);
        RecentTwice(Since(init), last.at, now);
        RecentConcat(Recent(Since(init), last.at), [last.at], now);
        RecentConcat(Since(init), [last.at], now);
      }
    }
  }

  lemma {:induction false} RecentConcat(a: seq<real>, b: seq<real>, now: real)
    ensures Recent(a + b, now) == Recent(a, now) + Recent(b, now)
  {
    if a == [] {
      assert a + b == b;
    } else {
      RecentConcat(a[1..], b, now);
      assert (a + b)[1..] == a[1..] + b && (a + b)[0] == a[0];
      var head := if Lately(a[0], now) then [a[0]] else [];
      SeqAssoc(head, Recent(a[1..], now), Recent(b, now));
    }
  }

  lemma {:induction false} RecentTwice(ts: seq<real>, earlier: real, now: real)
    requires earlier <= now
    ensures Recent(Recent(ts, earlier), now) == Recent(ts, now)
  {
    if ts != [] {
      RecentTwice(ts[1..], earlier, now);
      RecentConcat(if Lately(ts[0], earlier) then [ts[0]] else [], Recent(ts[1..], earlier), now);
    }
  }

  /** With a clock that never goes back, a failure opens the circuit exactly when it is the fifth, or a later
    * one, since the last success or opening, and the fourth before it came less than 30 seconds ago. */
  lemma OpensExactly(outcomes: seq<Outcome>, n: nat)
    requires Timely(outcomes) && n < |outcomes| && outcomes[n].Failure?
    ensures var since := Since(outcomes[..n]);
            OpensAt(outcomes, n) <==>
              |since| >= 4 && outcomes[n].at - since[|since| - 4] < 30.0
    ensures AfterAll(outcomes[..n + 1]).openUntil ==
            if OpensAt(outcomes, n) then outcomes[n].at + 30.0 else AfterAll(outcomes[..n]).openUntil
  {
    var init, now := outcomes[..n], outcomes[n].at;
    assert init + [Failure(now)] == outcomes[..n + 1];
    assert outcomes[..n + 1][..n] == init;
    TimelyPrefix(outcomes, n + 1);
    TimelyPrefix(outcomes, n);
    KeepsTheRecent(init, now);
    SinceAscends(init);
    if |Since(init)| + 1 >= FAILURES {
      RecentIsTail(Since(init), now, FAILURES - 1);
    }
  }

  // ---- The worker's rate ----

  /** When the next call may start; the one after it, a period later. */
  function StartAt(nextAt: real, now: real): real { Max(now, nextAt) }

  class Entry {
    const rate: Option<real>
    var nextAt: real

    constructor (rate: Option<real>)
      ensures this.rate == rate && nextAt == 0.0
    {
      this.rate, nextAt := rate, 0.0;
    }

    /** Seconds until the worker may call, taking the slot. */
    method Wait(now: real) returns (seconds: real)
      requires rate.Some? ==> rate.value != 0.0
      modifies this
      ensures rate.None? ==> seconds == 0.0 && nextAt == old(nextAt)
      ensures rate.Some? ==>
                && seconds == StartAt(old(nextAt), now) - now
                && nextAt == StartAt(old(nextAt), now) + 1.0 / rate.value
    {
      if rate.None? {
        return 0.0;
      }
      var at := if now >= nextAt then now else nextAt;
      nextAt := at + 1.0 / rate.value;
      seconds := at - now;
    }
  }

  /** When each call asked for at `asked` starts. */
  function Starts(asked: seq<real>, period: real): (r: seq<real>)
    ensures |r| == |asked|
  {
    if asked == [] then []
    else
      var n := |asked| - 1;
      var before := Starts(asked[..n], period);
      before + [StartAt(if n == 0 then 0.0 else before[n - 1] + period, asked[n])]
  }

  /** Calls start at least a period apart, and never before they were asked for, whatever the clock read. */
  lemma {:induction false} CallsAreSpaced(asked: seq<real>, period: real, i: nat, j: nat)
    requires period > 0.0 && i <= j < |asked|
    ensures Starts(asked, period)[j] - Starts(asked, period)[i] >= (j - i) as real * period
    ensures Starts(asked, period)[j] >= asked[j]
  {
    var n := |asked| - 1;
    if j < n {
      CallsAreSpaced(asked[..n], period, i, j);
    } else if i < j {
      CallsAreSpaced(asked[..n], period, i, j - 1);
      assert (j - 1 - i) as real * period + period == (j - i) as real * period;
    }
  }

  /** So no stretch of `seconds` holds more than one call and `seconds` times the rate. */
  lemma RateHolds(asked: seq<real>, rate: real, i: nat, j: nat, seconds: real)
    requires rate > 0.0 && i <= j < |asked|
    requires Starts(asked, 1.0 / rate)[j] <= Starts(asked, 1.0 / rate)[i] + seconds
    ensures (j - i + 1) as real <= 1.0 + seconds * rate
  {
    CallsAreSpaced(asked, 1.0 / rate, i, j);
    PeriodsFit((j - i) as real, 1.0 / rate, rate, seconds);
  }

  lemma PeriodsFit(n: real, period: real, rate: real, seconds: real)
    requires rate > 0.0 && period * rate == 1.0 && n * period <= seconds
    ensures n <= seconds * rate
  {
    assert (seconds - n * period) * rate >= 0.0;
    assert n * period * rate == n * (period * rate);
  }

  /** Nor does a call wait longer than its rate needs: some call no later than it was asked for, or the start
    * of the clock, is exactly as many periods back as calls lie between. */
  lemma {:induction false} NoNeedlessWait(asked: seq<real>, period: real, j: nat)
    requires period > 0.0 && j < |asked|
    ensures var s := Starts(asked, period)[j];
            || s == j as real * period
            || exists i :: 0 <= i <= j && s == asked[i] + (j - i) as real * period
  {
    var n := |asked| - 1;
    if j < n {
      NoNeedlessWait(asked[..n], period, j);
      if Starts(asked, period)[j] != j as real * period {
        var i :| 0 <= i <= j && Starts(asked, period)[j] == asked[..n][i] + (j - i) as real * period;
        assert asked[i] == asked[..n][i];
      }
    } else if Starts(asked, period)[j] == asked[j] {
      assert Starts(asked, period)[j] == asked[j] + (j - j) as real * period;
    } else if j > 0 {
      NoNeedlessWait(asked[..n], period, j - 1);
      OnePeriodMore(asked, Starts(asked[..n], period)[j - 1], period, j);
    }
  }

  lemma OnePeriodMore(asked: seq<real>, before: real, period: real, j: nat)
    requires 0 < j < |asked|
    requires || before == (j - 1) as real * period
             || exists i :: 0 <= i <= j - 1 && before == asked[..j][i] + (j - 1 - i) as real * period
    ensures || before + period == j as real * period
            || exists i :: 0 <= i <= j && before + period == asked[i] + (j - i) as real * period
  {
    if before == (j - 1) as real * period {
      assert (j - 1) as real * period + period == j as real * period;
    } else {
      var i :| 0 <= i <= j - 1 && before == asked[..j][i] + (j - 1 - i) as real * period;
      assert (j - 1 - i) as real * period + period == (j - i) as real * period;
      assert asked[i] == asked[..j][i];
    }
  }
}

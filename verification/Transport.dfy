/** Retries inside a time budget, and the guess of which connections are likely open
  * (`src/niadra/_transport.py`). The network is a parameter: what the k-th attempt takes and answers. */
module Transport {
  import opened Basics

  datatype Request = Request(timeout: real, budget: Option<real>, maxAttempts: int, ceiling: Option<real>)

  /** An answer, with its `Retry-After` seconds if it carried them, or no answer at all. */
  datatype Reply = Response(status: int, retryAfter: Option<real>) | NoAnswer

  datatype Attempt = Attempt(duration: real, reply: Reply)

  datatype Decision = Decision(retry: bool, delay: real, reconnect: bool)

  datatype Result = Returned | Failed(reply: Reply) | OutOfBudget

  const BASE_DELAY := 0.2
  const MAX_DELAY := 8.0
  const SPENT := 0.001

  predicate Retryable(reply: Reply) {
    reply.NoAnswer? || reply.status in {421, 429, 500, 502, 503, 504}
  }

  predicate Success(reply: Reply) { reply.Response? && reply.status < 400 }

  /** `jitter` is a random number from 0 up to 1. */
  function Backoff(attempt: nat, jitter: real): real
    requires attempt >= 1
  {
    Min(MAX_DELAY, BASE_DELAY * Pow2(attempt - 1) as real) * (0.5 + jitter / 2.0)
  }

  function DelayFor(reply: Reply, attempt: nat, jitter: real): real
    requires attempt >= 1
  {
    if reply.Response? && reply.status == 421 then 0.0
    else if reply.Response? && reply.status == 429 && reply.retryAfter.Some? then reply.retryAfter.value
    else Backoff(attempt, jitter)
  }

  class RetryState {
    const request: Request
    const started: real
    var attempt: nat

    constructor (request: Request, now: real)
      ensures this.request == request && started == now && attempt == 0
    {
      this.request, started, attempt := request, now, 0;
    }

    function Deadline(): Option<real> {
      if request.budget.Some? then Some(started + request.budget.value) else None
    }

    /** How long the next attempt may take; None once no time is left for one. */
    method AttemptTimeout(now: real) returns (timeout: Option<real>)
      modifies this
      ensures attempt == old(attempt) + 1
      ensures Deadline().None? ==> timeout == Some(request.timeout)
      ensures Deadline().Some? ==>
                timeout == if Deadline().value - now <= SPENT then None
                           else Some(Min(request.timeout, Deadline().value - now))
    {
      attempt := attempt + 1;
      if Deadline().None? {
        return Some(request.timeout);
      }
      var remaining := Deadline().value - now;
      if remaining <= SPENT {
        return None;
      }
      return Some(Min(request.timeout, remaining));
    }

    /** Whether to try again after `reply`, which did not succeed, and when. */
    method Decide(reply: Reply, jitter: real, now: real) returns (decision: Decision)
      requires attempt >= 1 && !Success(reply)
      ensures var delay := DelayFor(reply, attempt, jitter);
              decision.retry <==>
                && Retryable(reply) && attempt < request.maxAttempts
                && (Deadline().Some? ==> now + delay < Deadline().value)
      ensures decision.retry ==> decision.delay == DelayFor(reply, attempt, jitter)
      ensures decision.retry ==> (decision.reconnect <==> reply.Response? && reply.status == 421)
    {
      if !Retryable(reply) {
        return Decision(false, 0.0, false);
      }
      var delay := DelayFor(reply, attempt, jitter);
      if attempt >= request.maxAttempts || (Deadline().Some? && now + delay >= Deadline().value) {
        return Decision(false, 0.0, false);
      }
      return Decision(true, delay, reply.Response? && reply.status == 421);
    }
  }

  // ---- Connections likely open ----

  /** One moment for each connection believed open, that of its last answer, newest first; how many requests with a
    * budget are out; and the moment of this outage's first grant. */
  datatype Pool = Pool(open: seq<real>, inFlight: int, granted: Option<real>)

  datatype WarmthOptions = WarmthOptions(keepalive: real, allowance: real)

  function LiveOf(open: seq<real>, now: real, keepalive: real): (r: seq<real>)
    ensures |r| <= |open|
    ensures forall at :: at in r ==> at in open && now - at <= keepalive
  {
    if open == [] then []
    else (if now - open[0] <= keepalive then [open[0]] else []) + LiveOf(open[1..], now, keepalive)
  }

  /** What a request gets on top, when the allowance is given: never past its ceiling. */
  function Extra(o: WarmthOptions, request: Request): real
    requires request.budget.Some?
  {
    var room := if request.ceiling.Some? then request.ceiling.value - request.budget.value else o.allowance;
    Max(0.0, Min(o.allowance, room))
  }

  /** Every connection believed open is taken, and the outage still has time to grant. */
  predicate Gives(o: WarmthOptions, w: Pool, request: Request, now: real) {
    && request.budget.Some? && o.allowance > 0.0
    && |LiveOf(w.open, now, o.keepalive)| <= w.inFlight
    && (w.granted.Some? ==> now - w.granted.value <= o.allowance)
  }

  function AfterBegin(o: WarmthOptions, w: Pool, request: Request, now: real): Pool {
    if request.budget.None? then w
    else if o.allowance <= 0.0 then w.(inFlight := w.inFlight + 1)
    else
      var live := LiveOf(w.open, now, o.keepalive);
      Pool(live, w.inFlight + 1,
           if |live| <= w.inFlight && w.granted.None? then Some(now) else w.granted)
  }

  function Begun(o: WarmthOptions, w: Pool, request: Request, now: real): Request {
    if Gives(o, w, request, now) && Extra(o, request) > 0.0 then
      var extra := Extra(o, request);
      request.(budget := Some(request.budget.value + extra), timeout := request.timeout + extra)
    else request
  }

  function Repeat(at: real, n: nat): (r: seq<real>)
    ensures |r| == n && forall i :: 0 <= i < n ==> r[i] == at
  {
    if n == 0 then [] else Repeat(at, n - 1) + [at]
  }

  function AfterAnswered(o: WarmthOptions, w: Pool, now: real): Pool {
    var live := LiveOf(w.open, now, o.keepalive);
    var used := MaxInt(w.inFlight, 1);
    Pool(Repeat(now, used) + (if used <= |live| then live[used..] else []), w.inFlight, None)
  }

  /** What `begin` gives is the caller's budget, or at most the allowance more; never above the ceiling, unless
    * the caller's already was. */
  lemma BudgetGiven(o: WarmthOptions, w: Pool, request: Request, now: real)
    requires request.budget.Some?
    ensures var given := Begun(o, w, request, now);
            && given.budget.Some? && given.maxAttempts == request.maxAttempts
            && request.budget.value <= given.budget.value <= request.budget.value + Max(0.0, o.allowance)
            && (request.ceiling.Some? ==> given.budget.value <= Max(request.ceiling.value, request.budget.value))
            && given.timeout - request.timeout == given.budget.value - request.budget.value
  {
  }

  class Warmth {
    const options: WarmthOptions
    var open: seq<real>
    var inFlight: int
    var granted: Option<real>

    ghost function View(): Pool
      reads this
    {
      Pool(open, inFlight, granted)
    }

    constructor (options: WarmthOptions)
      ensures this.options == options && View() == Pool([], 0, None)
    {
      this.options := options;
      open, inFlight, granted := [], 0, None;
    }

    method Live(now: real)
      modifies this`open
      ensures open == LiveOf(old(open), now, options.keepalive)
    {
      var kept := [];
      var i := |open|;
      while i > 0
        invariant 0 <= i <= |open| && kept == LiveOf(open[i..], now, options.keepalive)
      {
        i := i - 1;
        assert open[i..][1..] == open[i + 1..];
        if now - open[i] <= options.keepalive {
          kept := [open[i]] + kept;
        }
      }
      assert open[0..] == open;
      open := kept;
    }

    method Begin(request: Request, now: real) returns (given: Request)
      modifies this
      ensures View() == AfterBegin(options, old(View()), request, now)
      ensures given == Begun(options, old(View()), request, now)
    {
      if request.budget.None? {
        return request;
      }
      var busy := inFlight;
      inFlight := inFlight + 1;
      if options.allowance <= 0.0 {
        return request;
      }
      Live(now);
      if |open| > busy {
        return request;
      }
      if granted.None? {
        granted := Some(now);
      }
      if now - granted.value > options.allowance {
        return request;
      }
      var extra := options.allowance;
      if request.ceiling.Some? {
        extra := Min(extra, request.ceiling.value - request.budget.value);
      }
      if extra <= 0.0 {
        return request;
      }
      return request.(budget := Some(request.budget.value + extra), timeout := request.timeout + extra);
    }

    method End(request: Request)
      modifies this`inFlight
      ensures inFlight == if request.budget.Some? then old(inFlight) - 1 else old(inFlight)
    {
      if request.budget.Some? {
        inFlight := inFlight - 1;
      }
    }

    method Answered(now: real)
      modifies this
      ensures View() == AfterAnswered(options, old(View()), now)
    {
      Live(now);
      var used := MaxInt(inFlight, 1);
      open := Repeat(now, used) + (if used <= |open| then open[used..] else []);
      granted := None;
    }

    method Forget()
      modifies this
      ensures open == [] && granted == None && inFlight == old(inFlight)
    {
      open, granted := [], None;
    }
  }

  /** How long to wait before the next attempt: not at all after a 421, as long as a 429 asks, and otherwise some of
    * 0.2 seconds doubled with each attempt, 8 at most: half to all of it. */
  lemma DelaysByReply(reply: Reply, attempt: nat, jitter: real)
    requires attempt >= 1
    ensures DelayFor(reply, attempt, jitter) ==
            if reply.Response? && reply.status == 421 then 0.0
            else if reply.Response? && reply.status == 429 && reply.retryAfter.Some? then reply.retryAfter.value
            else Min(8.0, 0.2 * Pow2(attempt - 1) as real) * (0.5 + jitter / 2.0)
  {
  }

  lemma BackoffIsHalfToAll(attempt: nat, jitter: real)
    requires attempt >= 1 && 0.0 <= jitter < 1.0
    ensures var most := Min(8.0, 0.2 * Pow2(attempt - 1) as real);
            most / 2.0 <= Backoff(attempt, jitter) <= most
  {
    HalfToAll(Min(8.0, 0.2 * Pow2(attempt - 1) as real), 0.5 + jitter / 2.0);
  }

  lemma HalfToAll(most: real, part: real)
    requires most >= 0.0 && 0.5 <= part <= 1.0
    ensures most / 2.0 <= most * part <= most
  {
    assert most * (part - 0.5) >= 0.0 && most * (1.0 - part) >= 0.0;
  }

  function LiveAt(open: seq<real>, now: real, keepalive: real): set<nat> {
    set i: nat | i < |open| && now - open[i] <= keepalive
  }

  lemma LiveAtLast(open: seq<real>, now: real, keepalive: real)
    requires open != []
    ensures var n := |open| - 1;
            LiveAt(open, now, keepalive) ==
            LiveAt(open[..n], now, keepalive) + (if now - open[n] <= keepalive then {n} else {})
  {
  }

  lemma {:induction false} LiveCount(open: seq<real>, now: real, keepalive: real)
    ensures |LiveOf(open, now, keepalive)| == |LiveAt(open, now, keepalive)|
  {
    if open == [] {
      assert LiveAt(open, now, keepalive) == {};
    } else {
      var n := |open| - 1;
      LiveCount(open[..n], now, keepalive);
      LiveOfLast(open, now, keepalive);
      LiveAtLast(open, now, keepalive);
    }
  }

  lemma {:induction false} LiveOfLast(open: seq<real>, now: real, keepalive: real)
    requires open != []
    ensures var n := |open| - 1;
            LiveOf(open, now, keepalive) ==
            LiveOf(open[..n], now, keepalive) + (if now - open[n] <= keepalive then [open[n]] else [])
  {
    if |open| > 1 {
      var n := |open| - 1;
      LiveOfLast(open[1..], now, keepalive);
      assert open[1..][..n - 1] == open[..n][1..];
      SeqAssoc(if now - open[0] <= keepalive then [open[0]] else [], LiveOf(open[..n][1..], now, keepalive),
               if now - open[n] <= keepalive then [open[n]] else []);
    }
  }

  /** A budgeted request is given more exactly when no more connections are live than requests are out, the outage's
    * allowance has not run out, and its ceiling leaves room; then as much of the allowance as fits. So the first one
    * on cold connections always is. */
  lemma GivenExactly(o: WarmthOptions, w: Pool, request: Request, now: real)
    ensures var given := Begun(o, w, request, now);
            var gives := && request.budget.Some? && o.allowance > 0.0
                         && |LiveAt(w.open, now, o.keepalive)| <= w.inFlight
                         && (w.granted.Some? ==> now - w.granted.value <= o.allowance)
                         && (request.ceiling.Some? ==> request.ceiling.value > request.budget.value);
            if gives then
              var extra := if request.ceiling.Some? then Min(o.allowance, request.ceiling.value - request.budget.value)
                           else o.allowance;
              given == request.(budget := Some(request.budget.value + extra), timeout := request.timeout + extra)
            else given == request
  {
    LiveCount(w.open, now, o.keepalive);
  }

  /** A grant is remembered from the first request that finds no idle connection, and every budgeted one is counted. */
  lemma BeginRemembers(o: WarmthOptions, w: Pool, request: Request, now: real)
    ensures var after := AfterBegin(o, w, request, now);
            && after.inFlight == w.inFlight + (if request.budget.Some? then 1 else 0)
            && after.granted ==
               if w.granted == None && request.budget.Some? && o.allowance > 0.0
                  && |LiveAt(w.open, now, o.keepalive)| <= w.inFlight
               then Some(now) else w.granted
  {
    LiveCount(w.open, now, o.keepalive);
  }

  /** An answer says that as many connections as requests are out, one at least, answered just now; the newest of the
    * others stay, and the outage is over. */
  lemma AnswerRenews(o: WarmthOptions, w: Pool, now: real)
    ensures var after, used := AfterAnswered(o, w, now), MaxInt(w.inFlight, 1);
            && after.granted == None && after.inFlight == w.inFlight
            && |after.open| == MaxInt(used, |LiveAt(w.open, now, o.keepalive)|)
            && (forall i :: 0 <= i < used ==> after.open[i] == now)
            && (forall i :: used <= i < |after.open| ==> after.open[i] == LiveOf(w.open, now, o.keepalive)[i])
  {
    LiveCount(w.open, now, o.keepalive);
  }

  // ---- One call ----

  /** An attempt takes some time, at most its timeout for a request with a budget. */
  ghost predicate StopsAtTimeout(net: (nat, real) -> Attempt, budgeted: bool) {
    forall k, t :: 0.0 <= net(k, t).duration && (budgeted && t >= 0.0 ==> net(k, t).duration <= t)
  }

  /** One call to make: `net(k, timeout)` is what its k-th attempt meets, `jitter(k)` the random number before the
    * next one. */
  datatype Plan = Plan(
    options: WarmthOptions, owns: bool, request: Request, net: (nat, real) -> Attempt, jitter: nat -> real, start: real)

  /** One attempt: when it ran, what it met, and the pool as that was noted. */
  datatype Made = Made(start: real, end: real, reply: Reply, pool: Pool)

  /** What one call did: how it ended and when, and its attempts. */
  datatype Trace = Trace(result: Result, end: real, log: seq<Made>)

  function Answering(o: WarmthOptions, w: Pool, reply: Reply, now: real): Pool {
    if reply.Response? then AfterAnswered(o, w, now) else w
  }

  function Forgotten(w: Pool): Pool { w.(open := [], granted := None) }

  /** When the next attempt starts, its wait over; and the pool then, with new connections after a 421. */
  function NextStart(p: Plan, log: seq<Made>): real {
    var k := |log|;
    if k == 0 then p.start else log[k - 1].end + DelayFor(log[k - 1].reply, k, p.jitter(k))
  }

  function NextPool(p: Plan, first: Pool, log: seq<Made>): Pool {
    if log == [] then first
    else
      var last := log[|log| - 1];
      if p.owns && last.reply.Response? && last.reply.status == 421 then Forgotten(last.pool) else last.pool
  }

  function Timeout(p: Plan, now: real): real {
    if p.request.budget.None? then p.request.timeout
    else Min(p.request.timeout, p.start + p.request.budget.value - now)
  }

  function MadeNext(p: Plan, first: Pool, log: seq<Made>): Made {
    var start := NextStart(p, log);
    MadeOf(p.options, NextPool(p, first, log), p.net(|log|, Timeout(p, start)), start)
  }

  function MadeOf(o: WarmthOptions, w: Pool, met: Attempt, start: real): Made {
    var end := start + met.duration;
    Made(start, end, met.reply, Answering(o, w, met.reply, end))
  }

  predicate HasTime(p: Plan, now: real) {
    p.request.budget.Some? ==> p.start + p.request.budget.value - now > 0.001
  }

  predicate EndsInBudget(p: Plan, end: real) {
    p.request.budget.Some? ==> end <= p.start + Max(0.0, p.request.budget.value)
  }

  /** An attempt that started when the one before and its wait were over, with time left, and ended in the budget. */
  ghost predicate InTurn(p: Plan, first: Pool, log: seq<Made>, k: nat)
    requires k < |log|
  {
    && log[k] == MadeNext(p, first, log[..k]) && HasTime(p, log[k].start)
    && EndsInBudget(p, log[k].end)
  }

  /** It is followed by another: its reply was worth it, attempts were left, and the wait ended before the deadline. */
  ghost predicate GoesOn(p: Plan, log: seq<Made>, k: nat)
    requires k < |log|
  {
    && Retryable(log[k].reply) && !Success(log[k].reply) && k + 1 < p.request.maxAttempts
    && (p.request.budget.Some? ==> NextStart(p, log[..k + 1]) < p.start + p.request.budget.value)
  }

  ghost predicate LogHolds(p: Plan, first: Pool, log: seq<Made>) {
    forall k :: 0 <= k < |log| ==> InTurn(p, first, log, k)
  }

  ghost predicate AllGoOn(p: Plan, log: seq<Made>, n: nat)
    requires n <= |log|
  {
    forall k :: 0 <= k < n ==> GoesOn(p, log, k)
  }

  /** Nothing was left to try: the last reply is not worth another attempt, or there are none left, or the wait before
    * it would reach the deadline. */
  ghost predicate CouldNotGoOn(p: Plan, log: seq<Made>)
    requires log != []
  {
    var n := |log|;
    var last := log[n - 1].reply;
    var delay := if last.Response? && last.status == 421 then 0.0
                 else if last.Response? && last.status == 429 && last.retryAfter.Some? then last.retryAfter.value
                 else Min(8.0, 0.2 * Pow2(n - 1) as real) * (0.5 + p.jitter(n) / 2.0);
    || (last.Response? && last.status !in {421, 429, 500, 502, 503, 504})
    || n >= p.request.maxAttempts
    || (p.request.budget.Some? && log[n - 1].end + delay >= p.start + p.request.budget.value)
  }

  /** The whole account of a call that began with the pool `first` and left it as `pool`: it is tried again exactly as
    * long as it can be. */
  ghost predicate Called(p: Plan, first: Pool, trace: Trace, pool: Pool) {
    var n := |trace.log|;
    && LogHolds(p, first, trace.log) && n <= MaxInt(p.request.maxAttempts, 1)
    && AllGoOn(p, trace.log, if trace.result == OutOfBudget || n == 0 then n else n - 1)
    && (trace.result == OutOfBudget ==>
          && p.request.budget.Some? && trace.end == NextStart(p, trace.log) && pool == NextPool(p, first, trace.log)
          && p.start + p.request.budget.value - trace.end <= SPENT)
    && (trace.result != OutOfBudget ==>
          && n > 0 && trace.end == trace.log[n - 1].end && pool == trace.log[n - 1].pool
          && (trace.result == Returned <==> trace.log[n - 1].reply.Response? && trace.log[n - 1].reply.status < 400)
          && (trace.result.Failed? ==> trace.result.reply == trace.log[n - 1].reply && CouldNotGoOn(p, trace.log)))
  }

  /** So no sleep reaches the deadline, and a call with a budget ends within it. */
  lemma CalledInTime(p: Plan, first: Pool, trace: Trace, pool: Pool)
    requires Called(p, first, trace, pool)
    ensures p.request.budget.Some? ==>
              && trace.end <= p.start + Max(0.0, p.request.budget.value)
              && forall k :: 0 < k < |trace.log| ==> trace.log[k].start < p.start + p.request.budget.value
  {
    var n := |trace.log|;
    if p.request.budget.Some? {
      forall k | 0 < k < n
        ensures trace.log[k].start < p.start + p.request.budget.value
      {
        assert GoesOn(p, trace.log, k - 1) && InTurn(p, first, trace.log, k);
        assert trace.log[..k - 1 + 1] == trace.log[..k];
      }
      if n > 0 {
        assert InTurn(p, first, trace.log, n - 1);
        if trace.result == OutOfBudget {
          assert GoesOn(p, trace.log, n - 1);
          assert trace.log[..n - 1 + 1] == trace.log;
        }
      }
    }
  }

  lemma EndsInItsTime(p: Plan, first: Pool, log: seq<Made>)
    requires StopsAtTimeout(p.net, p.request.budget.Some?) && p.request.timeout >= 0.0
    requires HasTime(p, NextStart(p, log))
    ensures EndsInBudget(p, MadeNext(p, first, log).end)
  {
  }

  lemma OneMoreMade(p: Plan, first: Pool, log: seq<Made>)
    requires LogHolds(p, first, log) && AllGoOn(p, log, |log|)
    requires HasTime(p, NextStart(p, log)) && EndsInBudget(p, MadeNext(p, first, log).end)
    ensures var all := log + [MadeNext(p, first, log)]; LogHolds(p, first, all) && AllGoOn(p, all, |log|)
  {
    var all := log + [MadeNext(p, first, log)];
    assert all[..|log|] == log;
    forall k | 0 <= k < |log|
      ensures InTurn(p, first, all, k) && GoesOn(p, all, k)
    {
      assert InTurn(p, first, log, k) && GoesOn(p, log, k);
      assert all[..k] == log[..k] && all[..k + 1] == log[..k + 1];
    }
    assert InTurn(p, first, all, |log|);
  }

  /** Nothing is learnt of the connections from an attempt without an answer; and a retry after a 421, which the SDK
    * makes on connections of its own, starts with none believed open and no grant. */
  lemma PoolBetween(p: Plan, first: Pool, log: seq<Made>)
    ensures var made := MadeNext(p, first, log);
            && (made.reply.NoAnswer? ==> made.pool == NextPool(p, first, log))
            && (made.reply.Response? ==> made.pool == AfterAnswered(p.options, NextPool(p, first, log), made.end))
    ensures NextPool(p, first, []) == first
    ensures log != [] ==>
              var last := log[|log| - 1];
              if p.owns && last.reply.Response? && last.reply.status == 421
              then NextPool(p, first, log) == Pool([], last.pool.inFlight, None)
              else NextPool(p, first, log) == last.pool
  {
  }

  lemma CannotGoOn(p: Plan, log: seq<Made>)
    requires log != [] && !Success(log[|log| - 1].reply) && !GoesOn(p, log, |log| - 1)
    ensures CouldNotGoOn(p, log)
  {
    assert log[..|log|] == log;
  }

  /** What holds as the next attempt is about to start; and with it made, whatever it met. */
  ghost predicate OnTheWay(p: Plan, first: Pool, log: seq<Made>) {
    LogHolds(p, first, log) && AllGoOn(p, log, |log|) && (log != [] ==> |log| < p.request.maxAttempts)
  }

  ghost predicate JustMade(p: Plan, first: Pool, log: seq<Made>) {
    log != [] && LogHolds(p, first, log) && AllGoOn(p, log, |log| - 1) && |log| <= MaxInt(p.request.maxAttempts, 1)
  }

  lemma MakesNext(p: Plan, first: Pool, log: seq<Made>)
    requires OnTheWay(p, first, log) && HasTime(p, NextStart(p, log))
    requires StopsAtTimeout(p.net, p.request.budget.Some?) && p.request.timeout >= 0.0
    ensures JustMade(p, first, log + [MadeNext(p, first, log)])
  {
    EndsInItsTime(p, first, log);
    OneMoreMade(p, first, log);
  }

  lemma TimeIsUp(p: Plan, first: Pool, log: seq<Made>)
    requires OnTheWay(p, first, log) && !HasTime(p, NextStart(p, log))
    ensures Called(p, first, Trace(OutOfBudget, NextStart(p, log), log), NextPool(p, first, log))
  {
  }

  lemma Decided(p: Plan, first: Pool, log: seq<Made>, result: Result)
    requires JustMade(p, first, log) && result != OutOfBudget
    requires result == Returned <==> Success(log[|log| - 1].reply)
    requires result.Failed? ==> result.reply == log[|log| - 1].reply && !GoesOn(p, log, |log| - 1)
    ensures Called(p, first, Trace(result, log[|log| - 1].end, log), log[|log| - 1].pool)
  {
    if result.Failed? {
      CannotGoOn(p, log);
    }
  }

  lemma IsOnTheWay(p: Plan, first: Pool, log: seq<Made>)
    requires JustMade(p, first, log) && GoesOn(p, log, |log| - 1)
    ensures OnTheWay(p, first, log)
  {
  }

  class SyncTransport {
    const warmth: Warmth
    const ownsClient: bool

    constructor (options: WarmthOptions, ownsClient: bool)
      ensures fresh(warmth) && warmth.options == options && this.ownsClient == ownsClient
    {
      warmth := new Warmth(options);
      this.ownsClient := ownsClient;
    }

    /** A client of the SDK's own gets new connections. */
    method Reconnect()
      modifies warmth
      ensures warmth.View() == if ownsClient then Forgotten(old(warmth.View())) else old(warmth.View())
    {
      if ownsClient {
        warmth.Forget();
      }
    }

    /** One attempt, and what an answer to it says of the connections. */
    method Bounded(net: (nat, real) -> Attempt, k: nat, timeout: real, now: real) returns (made: Made)
      modifies warmth
      ensures made == MadeOf(warmth.options, old(warmth.View()), net(k, timeout), now)
      ensures warmth.View() == made.pool && warmth.inFlight == old(warmth.inFlight)
    {
      var met := net(k, timeout);
      var end := now + met.duration;
      if met.reply.Response? {
        warmth.Answered(end);
      }
      made := Made(now, end, met.reply, Pool(warmth.open, warmth.inFlight, warmth.granted));
    }

    method Attempts(request: Request, net: (nat, real) -> Attempt, jitter: nat -> real, start: real)
      returns (trace: Trace)
      requires StopsAtTimeout(net, request.budget.Some?) && request.timeout >= 0.0
      modifies warmth
      ensures warmth.inFlight == old(warmth.inFlight)
      ensures Called(Plan(warmth.options, ownsClient, request, net, jitter, start), old(warmth.View()),
                     trace, warmth.View())
    {
      ghost var p, first := Plan(warmth.options, ownsClient, request, net, jitter, start), warmth.View();
      var state := new RetryState(request, start);
      var now := start;
      var log: seq<Made> := [];
      while true
        invariant fresh(state) && state.request == request && state.started == start
        invariant warmth.inFlight == old(warmth.inFlight) && state.attempt == |log|
        invariant now == NextStart(p, log) && warmth.View() == NextPool(p, first, log)
        invariant OnTheWay(p, first, log)
        decreases request.maxAttempts - |log|
      {
        var timeout := state.AttemptTimeout(now);
        if timeout.None? {
          TimeIsUp(p, first, log);
          return Trace(OutOfBudget, now, log);
        }
        MakesNext(p, first, log);
        ghost var next := MadeNext(p, first, log);
        var made := Bounded(net, |log|, timeout.value, now);
        assert made == next;
        log, now := log + [made], made.end;
        if Success(made.reply) {
          Decided(p, first, log, Returned);
          return Trace(Returned, now, log);
        }
        var decision := state.Decide(made.reply, jitter(|log|), now);
        assert log[..|log| - 1 + 1] == log;
        if !decision.retry {
          Decided(p, first, log, Failed(made.reply));
          return Trace(Failed(made.reply), now, log);
        }
        IsOnTheWay(p, first, log);
        if decision.reconnect {
          Reconnect();
        }
        if decision.delay != 0.0 {
          now := now + decision.delay;
        }
      }
    }

    /** A call ends within the budget `Warmth.Begin` gave it: the caller's plus the allowance at most, and
      * within the ceiling unless the caller's budget was past it. */
    method Call(request: Request, net: (nat, real) -> Attempt, jitter: nat -> real, start: real)
      returns (trace: Trace)
      requires StopsAtTimeout(net, request.budget.Some?) && request.timeout >= 0.0
      modifies warmth
      ensures warmth.inFlight == old(warmth.inFlight)
      ensures var given := Begun(warmth.options, old(warmth.View()), request, start);
              var first := AfterBegin(warmth.options, old(warmth.View()), request, start);
              exists pool: Pool ::
                && Called(Plan(warmth.options, ownsClient, given, net, jitter, start), first, trace, pool)
                && warmth.open == pool.open && warmth.granted == pool.granted
      ensures request.budget.Some? ==>
                && trace.end <= start + Max(0.0, request.budget.value + Max(0.0, warmth.options.allowance))
                && (request.ceiling.Some? ==>
                      trace.end <= start + Max(0.0, Max(request.ceiling.value, request.budget.value)))
    {
      ghost var before := warmth.View();
      var given := warmth.Begin(request, start);
      if request.budget.Some? {
        BudgetGiven(warmth.options, before, request, start);
      }
      ghost var first := warmth.View();
      trace := Attempts(given, net, jitter, start);
      ghost var pool := warmth.View();
      CalledInTime(Plan(warmth.options, ownsClient, given, net, jitter, start), first, trace, pool);
      warmth.End(given);
    }
  }
}

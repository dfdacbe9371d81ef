/** Every run of `Warmth` (`src/niadra/_transport.py`) with a clock that never goes back. */
module WarmthRuns {
  import opened Basics
  import opened Transport

  /** The pool and what a run remembers: the clock, the budgeted begins and ends, the most out at once, and when
    * each request that was given the allowance since the last answer started. */
  datatype State = State(pool: Pool, now: real, begun: nat, ended: nat, peak: nat, given: seq<real>)

  datatype Event =
    | Begin(request: Request, now: real)
    | End(request: Request)
    | Answered(now: real)
    | Look(now: real)
    | Forget

  function Start(now: real): State { State(Pool([], 0, None), now, 0, 0, 0, []) }

  /** Every end has its begin. */
  predicate Enabled(s: State, e: Event) {
    match e
    case Begin(_, now) => now >= s.now
    case End(request) => request.budget.Some? ==> s.ended < s.begun
    case Answered(now) => now >= s.now
    case Look(now) => now >= s.now
    case Forget => true
  }

  function Step(o: WarmthOptions, s: State, e: Event): State
    requires Enabled(s, e)
  {
    match e
    case Begin(request, now) =>
      var more := Begun(o, s.pool, request, now) != request;
      var counted := if request.budget.Some? then 1 else 0;
      State(AfterBegin(o, s.pool, request, now), now, s.begun + counted, s.ended,
            if s.begun + counted - s.ended > s.peak then s.begun + counted - s.ended else s.peak,
            if more then s.given + [now] else s.given)
    case End(request) =>
      if request.budget.Some?
      then s.(pool := s.pool.(inFlight := s.pool.inFlight - 1), ended := s.ended + 1)
      else s
    case Answered(now) => s.(pool := AfterAnswered(o, s.pool, now), now := now, given := [])
    case Look(now) => s.(pool := s.pool.(open := LiveOf(s.pool.open, now, o.keepalive)), now := now)
    case Forget => s.(pool := s.pool.(open := [], granted := None), given := [])
  }

  ghost predicate Next(o: WarmthOptions, s: State, t: State) { exists e :: Enabled(s, e) && t == Step(o, s, e) }

  ghost predicate IsRun(o: WarmthOptions, run: seq<State>) {
    && run != [] && (exists now :: run[0] == Start(now))
    && forall i :: 0 <= i < |run| - 1 ==> Next(o, run[i], run[i + 1])
  }

  predicate LatestFirst(open: seq<real>, now: real) {
    && (forall i, j :: 0 <= i < j < |open| ==> open[i] >= open[j])
    && (forall i :: 0 <= i < |open| ==> open[i] <= now)
  }

  predicate Bounded(o: WarmthOptions, s: State) {
    && s.pool.inFlight == s.begun - s.ended && s.ended <= s.begun <= s.ended + s.peak
    && LatestFirst(s.pool.open, s.now) && |s.pool.open| <= MaxInt(s.peak, 1)
    && (s.pool.granted.None? ==> s.given == [])
    && (s.pool.granted.Some? ==>
          forall i :: 0 <= i < |s.given| ==>
            s.pool.granted.value <= s.given[i] <= s.pool.granted.value + o.allowance)
    && (s.pool.granted.Some? ==> s.pool.granted.value <= s.now)
  }

  lemma {:induction false} LiveKeepsOrder(open: seq<real>, now: real, later: real, keepalive: real)
    requires LatestFirst(open, now) && now <= later
    ensures LatestFirst(LiveOf(open, later, keepalive), later)
  {
    if open != [] {
      assert LatestFirst(open[1..], now) by {
        forall i, j | 0 <= i < j < |open[1..]|
          ensures open[1..][i] >= open[1..][j]
        {
          assert open[i + 1] >= open[j + 1];
        }
      }
      LiveKeepsOrder(open[1..], now, later, keepalive);
      var rest := LiveOf(open[1..], later, keepalive);
      forall i | 0 <= i < |rest|
        ensures rest[i] <= open[0]
      {
        assert rest[i] in rest;
        var j :| 0 <= j < |open[1..]| && open[1..][j] == rest[i];
        assert open[0] >= open[j + 1];
      }
    }
  }

  lemma BeginIsBounded(o: WarmthOptions, s: State, request: Request, now: real)
    requires Bounded(o, s) && Enabled(s, Begin(request, now))
    ensures Bounded(o, Step(o, s, Begin(request, now)))
  {
    LiveKeepsOrder(s.pool.open, s.now, now, o.keepalive);
  }

  lemma NewestInFront(live: seq<real>, now: real, used: nat)
    requires LatestFirst(live, now)
    ensures var open := Repeat(now, used) + (if used <= |live| then live[used..] else []);
            LatestFirst(open, now) && |open| == if used <= |live| then |live| else used
  {
  }

  lemma AnsweredIsBounded(o: WarmthOptions, s: State, now: real)
    requires Bounded(o, s) && Enabled(s, Answered(now))
    ensures Bounded(o, Step(o, s, Answered(now)))
  {
    var live := LiveOf(s.pool.open, now, o.keepalive);
    LiveKeepsOrder(s.pool.open, s.now, now, o.keepalive);
    NewestInFront(live, now, MaxInt(s.pool.inFlight, 1));
  }

  /** In every state of every run: the requests in flight are the budgeted begins less the ends; the open list is
    * latest first and no longer than the most requests out at once, or 1; and every request given the allowance
    * since the last answer or reconnect started within one allowance of the moment it was first given. */
  lemma {:induction false} RunsAreBounded(o: WarmthOptions, run: seq<State>, i: nat)
    requires IsRun(o, run) && i < |run|
    ensures Bounded(o, run[i])
  {
    if i > 0 {
      RunsAreBounded(o, run, i - 1);
      var s := run[i - 1];
      assert Next(o, s, run[i - 1 + 1]);
      var e :| Enabled(s, e) && run[i] == Step(o, s, e);
      match e
      case Begin(request, now) => BeginIsBounded(o, s, request, now);
      case Answered(now) => AnsweredIsBounded(o, s, now);
      case Look(now) => LiveKeepsOrder(s.pool.open, s.now, now, o.keepalive);
      case _ =>
    }
  }

  /** So any two requests given the allowance for one outage started within one allowance of each other. */
  lemma OneAllowancePerOutage(o: WarmthOptions, run: seq<State>, i: nat, a: nat, b: nat)
    requires IsRun(o, run) && i < |run| && a < |run[i].given| && b < |run[i].given|
    ensures run[i].given[b] - run[i].given[a] <= o.allowance
  {
    RunsAreBounded(o, run, i);
    assert run[i].pool.granted.Some?;
    assert run[i].given[a] >= run[i].pool.granted.value;
    assert run[i].given[b] <= run[i].pool.granted.value + o.allowance;
  }

  /** In every run the first budgeted request to find no connection live, since the start, a reconnect or the last
    * answer, is given the allowance, as far as its ceiling leaves room. */
  lemma ColdStartIsGiven(o: WarmthOptions, run: seq<State>, i: nat, request: Request, now: real)
    requires IsRun(o, run) && i < |run| && o.allowance > 0.0 && request.budget.Some?
    requires run[i].pool.granted.None?
    requires forall k :: 0 <= k < |run[i].pool.open| ==> now - run[i].pool.open[k] > o.keepalive
    ensures var extra := if request.ceiling.Some? then Min(o.allowance, request.ceiling.value - request.budget.value)
                         else o.allowance;
            Begun(o, run[i].pool, request, now).budget == Some(request.budget.value + Max(0.0, extra))
  {
    RunsAreBounded(o, run, i);
    assert LiveAt(run[i].pool.open, now, o.keepalive) == {};
    GivenExactly(o, run[i].pool, request, now);
  }
}

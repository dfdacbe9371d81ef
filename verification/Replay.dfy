/** The regression statistics of a replay run: Fisher's exact test against a baseline and the verdict of a
  * scenario (`src/niadra_mock/replay.py`). Values are exact; `rounded` is the rounding applied to them. */
module Replay {
  import opened Basics
  import opened Binomials

  datatype Outcome = Pass | Fail | NotChecked
  datatype Status = Completed | PinMismatched | InfrastructureFailed
  datatype Execution = Execution(status: Status, outcomes: map<string, Outcome>)
  datatype Baseline = Baseline(passed: nat, failed: nat)

  datatype Stats = Stats(
    passed: nat, failed: nat, baseline: Baseline, drop: real, pValue: real, regression: bool, flaky: bool)

  datatype Verdict = Passes | IsFlaky | InfrastructureError | PinMismatch | Regression

  // ---- Fisher's exact test ----

  /** The terms of the source's `sum`, from `x` to `hi`. */
  function TailSum(failures: nat, rest: nat, drawn: nat, x: nat, hi: nat): nat
    requires hi <= drawn
    decreases hi + 1 - x
  {
    if x > hi then 0
    else Choose(failures, x) * Choose(rest, drawn - x) + TailSum(failures, rest, drawn, x + 1, hi)
  }

  /** How many of the ways to draw the run hold at least the failures it had. */
  function Tail(base: Baseline, passed: nat, failed: nat): nat {
    var failures, drawn := base.failed + failed, passed + failed;
    TailSum(failures, base.passed + passed, drawn, failed, MinInt(failures, drawn))
  }

  function Ways(base: Baseline, passed: nat, failed: nat): (n: nat)
    ensures n > 0
  {
    Positive(base.passed + base.failed + passed + failed, passed + failed);
    Choose(base.passed + base.failed + passed + failed, passed + failed)
  }

  function Fisher(base: Baseline, passed: nat, failed: nat): real {
    if base.failed + failed == 0 || passed + failed == 0 then 1.0
    else Tail(base, passed, failed) as real / Ways(base, passed, failed) as real
  }

  lemma {:induction false} TailSumIsDraws(failures: nat, rest: nat, drawn: nat, x: nat, hi: nat)
    requires hi <= drawn && (hi == drawn || hi == failures)
    ensures TailSum(failures, rest, drawn, x, hi) == Draws(failures, rest, drawn, x)
    decreases hi + 1 - x
  {
    if x > hi {
      if hi < drawn {
        NothingToDraw(failures, rest, drawn, x);
      }
    } else {
      TailSumIsDraws(failures, rest, drawn, x + 1, hi);
    }
  }

  lemma TailIsDraws(base: Baseline, passed: nat, failed: nat)
    ensures Tail(base, passed, failed) == Draws(base.failed + failed, base.passed + passed, passed + failed, failed)
  {
    var failures, drawn := base.failed + failed, passed + failed;
    TailSumIsDraws(failures, base.passed + passed, drawn, failed, MinInt(failures, drawn));
  }

  lemma Fraction(a: nat, b: nat)
    requires 0 < a <= b
    ensures 0.0 < a as real / b as real <= 1.0
  {
  }

  lemma ProductPositive(a: nat, b: nat)
    requires a > 0 && b > 0
    ensures a * b > 0
  {
  }

  /** For any baseline the value is a probability, and never zero. */
  lemma FisherIsProbability(base: Baseline, passed: nat, failed: nat)
    ensures 0.0 < Fisher(base, passed, failed) <= 1.0
  {
    var failures, rest, drawn := base.failed + failed, base.passed + passed, passed + failed;
    TailIsDraws(base, passed, failed);
    Vandermonde(failures, rest, drawn);
    FewerDraws(failures, rest, drawn, 0, failed);
    assert failures + rest == base.passed + base.failed + passed + failed;
    Positive(failures, failed);
    Positive(rest, passed);
    ProductPositive(Choose(failures, failed), Choose(rest, passed));
    assert drawn - failed == passed;
    Fraction(Tail(base, passed, failed), Ways(base, passed, failed));
  }

  /** One more failure among as many checks never raises the value, whatever the baseline. */
  lemma OneMoreFailure(base: Baseline, passed: nat, failed: nat)
    requires passed > 0
    ensures Fisher(base, passed - 1, failed + 1) <= Fisher(base, passed, failed)
  {
    FisherIsProbability(base, passed - 1, failed + 1);
    TailIsDraws(base, passed, failed);
    TailIsDraws(base, passed - 1, failed + 1);
    MovingOne(base.failed + failed, base.passed + passed - 1, passed + failed, failed);
    SmallerNumerator(Tail(base, passed - 1, failed + 1), Tail(base, passed, failed), Ways(base, passed, failed));
  }

  lemma {:induction false} MoreFailures(base: Baseline, n: nat, f: nat, g: nat)
    requires f <= g <= n
    ensures Fisher(base, n - g, g) <= Fisher(base, n - f, f)
  {
    if f < g {
      MoreFailures(base, n, f, g - 1);
      OneMoreFailure(base, n - (g - 1), g - 1);
    }
  }

  lemma RecordingTail(n: nat, f: nat)
    requires f <= n
    ensures Tail(Baseline(n, 0), n - f, f) == Choose(2 * n - f, n - f)
    ensures Ways(Baseline(n, 0), n - f, f) == Choose(2 * n, n) > 0
  {
    TailIsDraws(Baseline(n, 0), n - f, f);
    assert n + (n - f) == 2 * n - f && n + 0 + (n - f) + f == 2 * n;
    NothingToDraw(f, 2 * n - f, n, f + 1);
    Ends(f);
    assert Choose(f, f) * Choose(2 * n - f, n - f) == Choose(2 * n - f, n - f);
  }

  lemma Whole(x: nat)
    requires x > 0
    ensures x as real / x as real == 1.0
  {
  }

  /** Against the recording, which never failed, the value is one ratio of coefficients. */
  lemma AgainstRecording(n: nat, f: nat)
    requires f <= n
    ensures Choose(2 * n, n) > 0
    ensures Fisher(Baseline(n, 0), n - f, f) == Choose(2 * n - f, n - f) as real / Choose(2 * n, n) as real
  {
    RecordingTail(n, f);
    if f == 0 {
      Whole(Choose(2 * n, n));
    }
  }

  /** Each failure at least halves it. */
  lemma {:induction false} Halves(n: nat, f: nat)
    requires f <= n
    ensures Pow2(f) * Choose(2 * n - f, n - f) <= Choose(2 * n, n)
  {
    if f > 0 {
      Halves(n, f - 1);
      var row, k := 2 * n - f + 1, n - f + 1;
      Pascal(row, k);
      GrowsToMiddle(row - 1, k);
      Doubling(Pow2(f - 1), Choose(row - 1, k - 1), Choose(row, k));
    }
  }

  lemma Doubling(p: nat, x: nat, y: nat)
    requires 2 * x <= y
    ensures (2 * p) * x <= p * y
  {
    assert p * (y - 2 * x) >= 0;
  }

  lemma AtMostTwoToMinus(n: nat, f: nat)
    requires f <= n
    ensures Fisher(Baseline(n, 0), n - f, f) <= 1.0 / Pow2(f) as real
  {
    AgainstRecording(n, f);
    Halves(n, f);
    var x, y, p := Choose(2 * n - f, n - f), Choose(2 * n, n), Pow2(f);
    CrossMultiply(x, y, p);
  }

  lemma CrossMultiply(x: nat, y: nat, p: nat)
    requires y > 0 && p > 0 && p * x <= y
    ensures x as real / y as real <= 1.0 / p as real
  {
    var q, c := x as real / y as real, p as real;
    assert q * y as real == x as real;
    assert c * x as real <= y as real by {
      assert (p * x) as real == c * x as real;
    }
    assert (c * q) * y as real == c * x as real;
    if c * q > 1.0 {
      assert (c * q - 1.0) * y as real > 0.0;
    }
  }

  // ---- Verdicts ----

  function Rate(passed: nat, failed: nat): real {
    if passed + failed == 0 then 1.0 else passed as real / (passed + failed) as real
  }

  function Count(outcomes: seq<Outcome>, what: Outcome): nat {
    if outcomes == [] then 0 else (if outcomes[0] == what then 1 else 0) + Count(outcomes[1..], what)
  }

  predicate Regressed(failed: nat, drop: real, pValue: real) { failed >= 2 && drop >= 0.2 && pValue < 0.05 }

  function StatsAt(passed: nat, failed: nat, base: Baseline, rounded: real -> real): Stats {
    var drop := rounded(Rate(base.passed, base.failed) - Rate(passed, failed));
    var pValue := rounded(Fisher(base, passed, failed));
    var regression := Regressed(failed, drop, pValue);
    Stats(passed, failed, base, drop, pValue, regression, !regression && failed >= 1)
  }

  /** Without a baseline, the recording: as many checks as were completed, all passed. */
  function BaseFor(baseline: Option<Baseline>, completed: nat): Baseline {
    if baseline.Some? then baseline.value else Baseline(completed, 0)
  }

  function AssertionStats(outcomes: seq<Outcome>, baseline: Option<Baseline>, rounded: real -> real): Stats {
    var passed, failed := Count(outcomes, Pass), Count(outcomes, Fail);
    StatsAt(passed, failed, BaseFor(baseline, passed + failed), rounded)
  }

  /** The outcomes of one assertion, over the completed executions that checked it. */
  function OutcomesOf(runs: seq<Execution>, id: string): seq<Outcome> {
    if runs == [] then []
    else
      (if runs[0].status.Completed? && id in runs[0].outcomes then [runs[0].outcomes[id]] else []) +
      OutcomesOf(runs[1..], id)
  }

  function Ids(runs: seq<Execution>): set<string> {
    set i, id | 0 <= i < |runs| && runs[i].status.Completed? && id in runs[i].outcomes :: id
  }

  function StatsOf(runs: seq<Execution>, baseline: map<string, Baseline>, rounded: real -> real, id: string)
    : Stats
  {
    AssertionStats(OutcomesOf(runs, id), if id in baseline then Some(baseline[id]) else None, rounded)
  }

  predicate AnyStatus(runs: seq<Execution>, status: Status) {
    exists i :: 0 <= i < |runs| && runs[i].status == status
  }

  function RegressedIds(runs: seq<Execution>, baseline: map<string, Baseline>, rounded: real -> real): set<string> {
    set id | id in Ids(runs) && StatsOf(runs, baseline, rounded, id).regression
  }

  function FlakyIds(runs: seq<Execution>, baseline: map<string, Baseline>, rounded: real -> real): set<string> {
    set id | id in Ids(runs) && StatsOf(runs, baseline, rounded, id).flaky
  }

  function ScenarioVerdict(runs: seq<Execution>, baseline: map<string, Baseline>, rounded: real -> real): Verdict {
    Judged(AnyStatus(runs, PinMismatched), AnyStatus(runs, Completed),
           RegressedIds(runs, baseline, rounded) != {}, FlakyIds(runs, baseline, rounded) != {})
  }

  function Judged(mismatched: bool, completed: bool, regression: bool, flaky: bool): Verdict {
    if mismatched then PinMismatch
    else if !completed then InfrastructureError
    else if regression then Regression
    else if flaky then IsFlaky
    else Passes
  }

  /** A verdict's place in the source's `ORDER`. */
  function Severity(v: Verdict): nat {
    match v
    case Passes => 0
    case IsFlaky => 1
    case InfrastructureError => 2
    case PinMismatch => 3
    case Regression => 4
  }

  ghost predicate Monotone(rounded: real -> real) { forall x, y :: x <= y ==> rounded(x) <= rounded(y) }

  /** The same executions, except that some assertions that passed now fail. */
  predicate Worsened(before: Execution, after: Execution) {
    && before.status == after.status && before.outcomes.Keys == after.outcomes.Keys
    && forall id :: id in before.outcomes ==> Worse(before.outcomes[id], after.outcomes[id])
  }

  predicate Worse(before: Outcome, after: Outcome) { before == after || (before == Pass && after == Fail) }

  predicate AllWorsened(before: seq<Execution>, after: seq<Execution>) {
    |before| == |after| && forall i :: 0 <= i < |before| ==> Worsened(before[i], after[i])
  }

  lemma {:induction false} WorsenedCounts(before: seq<Execution>, after: seq<Execution>, id: string)
    requires AllWorsened(before, after)
    ensures var b, a := OutcomesOf(before, id), OutcomesOf(after, id);
            && Count(a, Pass) + Count(a, Fail) == Count(b, Pass) + Count(b, Fail)
            && Count(b, Fail) <= Count(a, Fail)
  {
    if before != [] {
      WorsenedCounts(before[1..], after[1..], id);
      assert Worsened(before[0], after[0]);
      var rest, worse := OutcomesOf(before[1..], id), OutcomesOf(after[1..], id);
      if before[0].status.Completed? && id in before[0].outcomes {
        assert ([before[0].outcomes[id]] + rest)[1..] == rest;
        assert ([after[0].outcomes[id]] + worse)[1..] == worse;
      } else {
        assert [] + rest == rest && [] + worse == worse;
      }
    }
  }

  lemma RateFalls(n: nat, f: nat, g: nat)
    requires f <= g <= n
    ensures Rate(n - g, g) <= Rate(n - f, f)
  {
    if n > 0 {
      SmallerNumerator(n - g, n - f, n);
    }
  }

  lemma RoundedWorsens(base: real, rate: real, lower: real, p: real, smaller: real, failed: nat, more: nat,
                       rounded: real -> real)
    requires Monotone(rounded) && lower <= rate && smaller <= p && failed <= more
    ensures Regressed(failed, rounded(base - rate), rounded(p)) ==>
            Regressed(more, rounded(base - lower), rounded(smaller))
  {
  }

  lemma FewerPass(base: Baseline, n: nat, failed: nat, more: nat, rounded: real -> real)
    requires Monotone(rounded) && failed <= more <= n
    ensures StatsAt(n - failed, failed, base, rounded).regression ==> StatsAt(n - more, more, base, rounded).regression
  {
    MoreFailures(base, n, failed, more);
    RateFalls(n, failed, more);
    RoundedWorsens(Rate(base.passed, base.failed), Rate(n - failed, failed), Rate(n - more, more),
                   Fisher(base, n - failed, failed), Fisher(base, n - more, more), failed, more, rounded);
  }

  lemma StatsWorsen(base: Baseline, passed: nat, failed: nat, fewer: nat, more: nat, rounded: real -> real)
    requires Monotone(rounded) && passed + failed == fewer + more && failed <= more
    ensures var b, a := StatsAt(passed, failed, base, rounded), StatsAt(fewer, more, base, rounded);
            && (b.regression ==> a.regression)
            && (b.flaky ==> a.flaky || a.regression)
  {
    var n := passed + failed;
    assert passed == n - failed && fewer == n - more;
    FewerPass(base, n, failed, more, rounded);
  }

  lemma MoreFailuresWorsen(before: seq<Outcome>, after: seq<Outcome>, baseline: Option<Baseline>,
                           rounded: real -> real)
    requires Monotone(rounded)
    requires Count(after, Pass) + Count(after, Fail) == Count(before, Pass) + Count(before, Fail)
    requires Count(before, Fail) <= Count(after, Fail)
    ensures var b, a := AssertionStats(before, baseline, rounded), AssertionStats(after, baseline, rounded);
            && (b.regression ==> a.regression)
            && (b.flaky ==> a.flaky || a.regression)
  {
    var base := BaseFor(baseline, Count(before, Pass) + Count(before, Fail));
    StatsWorsen(base, Count(before, Pass), Count(before, Fail), Count(after, Pass), Count(after, Fail), rounded);
    assert AssertionStats(before, baseline, rounded) ==
           StatsAt(Count(before, Pass), Count(before, Fail), base, rounded);
    assert AssertionStats(after, baseline, rounded) == StatsAt(Count(after, Pass), Count(after, Fail), base, rounded);
  }

  lemma WorsenedStats(before: seq<Execution>, after: seq<Execution>, baseline: map<string, Baseline>,
                      rounded: real -> real, id: string)
    requires AllWorsened(before, after) && Monotone(rounded)
    ensures var b, a := StatsOf(before, baseline, rounded, id), StatsOf(after, baseline, rounded, id);
            && (b.regression ==> a.regression)
            && (b.flaky ==> a.flaky || a.regression)
  {
    WorsenedCounts(before, after, id);
    MoreFailuresWorsen(OutcomesOf(before, id), OutcomesOf(after, id),
                       if id in baseline then Some(baseline[id]) else None, rounded);
  }

  lemma WorsenedIds(before: seq<Execution>, after: seq<Execution>)
    requires AllWorsened(before, after)
    ensures Ids(before) == Ids(after)
    ensures forall status :: AnyStatus(before, status) <==> AnyStatus(after, status)
  {
    forall i | 0 <= i < |before|
      ensures before[i].status == after[i].status && before[i].outcomes.Keys == after[i].outcomes.Keys
    {
      assert Worsened(before[i], after[i]);
    }
    forall id | id in Ids(before)
      ensures id in Ids(after)
    {
      var i :| 0 <= i < |before| && before[i].status.Completed? && id in before[i].outcomes;
      assert after[i].status.Completed? && id in after[i].outcomes;
    }
    forall id | id in Ids(after)
      ensures id in Ids(before)
    {
      var i :| 0 <= i < |after| && after[i].status.Completed? && id in after[i].outcomes;
      assert before[i].status.Completed? && id in before[i].outcomes;
    }
  }

  lemma WorsenedSets(before: seq<Execution>, after: seq<Execution>,
                     baseline: map<string, Baseline>, rounded: real -> real)
    requires AllWorsened(before, after) && Monotone(rounded)
    ensures RegressedIds(before, baseline, rounded) <= RegressedIds(after, baseline, rounded)
    ensures FlakyIds(before, baseline, rounded) <=
            FlakyIds(after, baseline, rounded) + RegressedIds(after, baseline, rounded)
  {
    WorsenedIds(before, after);
    forall id | id in Ids(before)
      ensures id in RegressedIds(before, baseline, rounded) ==> id in RegressedIds(after, baseline, rounded)
      ensures id in FlakyIds(before, baseline, rounded) ==>
                id in FlakyIds(after, baseline, rounded) || id in RegressedIds(after, baseline, rounded)
    {
      WorsenedStats(before, after, baseline, rounded, id);
    }
  }

  lemma JudgedByIds(mismatched: bool, completed: bool, regressed: set<string>, flaky: set<string>,
                    regressed': set<string>, flaky': set<string>)
    requires regressed <= regressed' && flaky <= flaky' + regressed'
    ensures Severity(Judged(mismatched, completed, regressed != {}, flaky != {})) <=
            Severity(Judged(mismatched, completed, regressed' != {}, flaky' != {}))
  {
  }

  /** Turning passed checks into failed ones never makes a scenario's verdict less severe, for any baseline and
    * any rounding that keeps order. */
  lemma MoreFailuresNeverHelp(before: seq<Execution>, after: seq<Execution>,
                              baseline: map<string, Baseline>, rounded: real -> real)
    requires AllWorsened(before, after) && Monotone(rounded)
    ensures Severity(ScenarioVerdict(before, baseline, rounded)) <=
            Severity(ScenarioVerdict(after, baseline, rounded))
  {
    WorsenedIds(before, after);
    WorsenedSets(before, after, baseline, rounded);
    JudgedByIds(AnyStatus(before, PinMismatched), AnyStatus(before, Completed),
                RegressedIds(before, baseline, rounded), FlakyIds(before, baseline, rounded),
                RegressedIds(after, baseline, rounded), FlakyIds(after, baseline, rounded));
  }

  // ---- What each verdict means ----

  /** The completed executions in which an assertion came out as `what`. */
  function CameOut(runs: seq<Execution>, id: string, what: Outcome): set<nat> {
    set i: nat | i < |runs| && runs[i].status == Completed && id in runs[i].outcomes && runs[i].outcomes[id] == what
  }

  lemma {:induction false} CountLast(outcomes: seq<Outcome>, last: Outcome, what: Outcome)
    ensures Count(outcomes + [last], what) == Count(outcomes, what) + (if last == what then 1 else 0)
  {
    if outcomes == [] {
      assert outcomes + [last] == [last] && [last][1..] == [];
    } else {
      CountLast(outcomes[1..], last, what);
      assert (outcomes + [last])[1..] == outcomes[1..] + [last];
    }
  }

  lemma {:induction false} OutcomesOfLast(runs: seq<Execution>, last: Execution, id: string)
    ensures OutcomesOf(runs + [last], id) ==
            OutcomesOf(runs, id) + (if last.status.Completed? && id in last.outcomes then [last.outcomes[id]] else [])
  {
    if runs == [] {
      assert runs + [last] == [last] && [last][1..] == [];
    } else {
      OutcomesOfLast(runs[1..], last, id);
      assert (runs + [last])[1..] == runs[1..] + [last];
      SeqAssoc(if runs[0].status.Completed? && id in runs[0].outcomes then [runs[0].outcomes[id]] else [],
               OutcomesOf(runs[1..], id),
               if last.status.Completed? && id in last.outcomes then [last.outcomes[id]] else []);
    }
  }

  /** What counts for an assertion is each completed execution that checked it, once. */
  lemma {:induction false} CountsExecutions(runs: seq<Execution>, id: string, what: Outcome)
    ensures Count(OutcomesOf(runs, id), what) == |CameOut(runs, id, what)|
  {
    if runs == [] {
      assert CameOut(runs, id, what) == {};
    } else {
      var n := |runs| - 1;
      var init, last := runs[..n], runs[n];
      CountsExecutions(init, id, what);
      assert runs == init + [last];
      OutcomesOfLast(init, last, id);
      CameOutLast(runs, id, what);
      if last.status.Completed? && id in last.outcomes {
        CountLast(OutcomesOf(init, id), last.outcomes[id], what);
      } else {
        assert OutcomesOf(init, id) + [] == OutcomesOf(init, id);
      }
    }
  }

  lemma CameOutLast(runs: seq<Execution>, id: string, what: Outcome)
    requires runs != []
    ensures var n := |runs| - 1;
            var counts := runs[n].status == Completed && id in runs[n].outcomes && runs[n].outcomes[id] == what;
            CameOut(runs, id, what) == CameOut(runs[..n], id, what) + (if counts then {n} else {})
  {
  }

  function RateOf(passed: nat, failed: nat): real {
    if passed == 0 && failed == 0 then 1.0 else passed as real / (passed + failed) as real
  }

  /** An assertion regressed: it failed twice at least, its rate fell by a fifth at least, and so many failures by
    * chance are less likely than one in twenty. Without a baseline it is compared with as many passed checks. */
  predicate HasRegressed(runs: seq<Execution>, baseline: map<string, Baseline>, rounded: real -> real, id: string) {
    var passed, failed := |CameOut(runs, id, Pass)|, |CameOut(runs, id, Fail)|;
    var base := if id in baseline then baseline[id] else Baseline(passed + failed, 0);
    && failed >= 2
    && rounded(RateOf(base.passed, base.failed) - RateOf(passed, failed)) >= 0.2
    && rounded(Fisher(base, passed, failed)) < 0.05
  }

  lemma RegressedExactly(runs: seq<Execution>, baseline: map<string, Baseline>, rounded: real -> real, id: string)
    ensures StatsOf(runs, baseline, rounded, id).regression <==> HasRegressed(runs, baseline, rounded, id)
    ensures StatsOf(runs, baseline, rounded, id).flaky <==>
            CameOut(runs, id, Fail) != {} && !HasRegressed(runs, baseline, rounded, id)
  {
    CountsExecutions(runs, id, Pass);
    CountsExecutions(runs, id, Fail);
  }

  predicate Checked(runs: seq<Execution>, id: string) {
    exists i :: 0 <= i < |runs| && runs[i].status == Completed && id in runs[i].outcomes
  }

  /** A scenario's verdict, from the worst its executions allow to say: a pin mismatch in any of them, none completed,
    * an assertion that regressed, one that failed at all, and otherwise a pass. */
  lemma VerdictExactly(runs: seq<Execution>, baseline: map<string, Baseline>, rounded: real -> real)
    ensures var mismatch := exists i :: 0 <= i < |runs| && runs[i].status == PinMismatched;
            var completed := exists i :: 0 <= i < |runs| && runs[i].status == Completed;
            var regressed := exists id :: Checked(runs, id) && HasRegressed(runs, baseline, rounded, id);
            var failed := exists id :: Checked(runs, id) && CameOut(runs, id, Fail) != {};
            ScenarioVerdict(runs, baseline, rounded) ==
            if mismatch then PinMismatch
            else if !completed then InfrastructureError
            else if regressed then Regression
            else if failed then IsFlaky
            else Passes
  {
    forall id
      ensures id in Ids(runs) <==> Checked(runs, id)
      ensures id in RegressedIds(runs, baseline, rounded) <==>
              Checked(runs, id) && HasRegressed(runs, baseline, rounded, id)
      ensures id in FlakyIds(runs, baseline, rounded) <==>
              Checked(runs, id) && CameOut(runs, id, Fail) != {} && !HasRegressed(runs, baseline, rounded, id)
    {
      RegressedExactly(runs, baseline, rounded, id);
    }
    VerdictOfSets(runs, baseline, rounded);
  }

  lemma VerdictOfSets(runs: seq<Execution>, baseline: map<string, Baseline>, rounded: real -> real)
    ensures ScenarioVerdict(runs, baseline, rounded) ==
            if exists i :: 0 <= i < |runs| && runs[i].status == PinMismatched then PinMismatch
            else if !exists i :: 0 <= i < |runs| && runs[i].status == Completed then InfrastructureError
            else if exists id :: id in RegressedIds(runs, baseline, rounded) then Regression
            else if exists id :: id in FlakyIds(runs, baseline, rounded) then IsFlaky
            else Passes
  {
    NonEmpty(RegressedIds(runs, baseline, rounded));
    NonEmpty(FlakyIds(runs, baseline, rounded));
  }

  lemma NonEmpty(ids: set<string>)
    ensures ids != {} <==> exists id :: id in ids
  {
  }
}

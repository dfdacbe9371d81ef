/** Every interleaving of one voice line: partials heard, settlers, speculative reads and turns. A settler and a
  * finished read each carry a text from one hold of the lock to the next, and anything may come in between. */
module VoiceRuns {
  import opened Basics
  import opened VoiceLine

  /** What became of a settled partial. */
  datatype Fate = Carried | Waiting | Read(id: nat) | Skipped | Replaced | Forgotten

  /** The line with its settlers and the texts carried between two holds of the lock, by number. `fates` has one
    * entry for each settled partial; `taken` is one more than the newest that was read or left waiting. */
  datatype System = System(line: Line, settlers: set<nat>, carried: map<nat, Words>, fates: seq<Fate>, taken: nat)

  datatype Event =
    | Ask
    | Turn(words: Words, submits: bool)
    | Hear(words: Words, settler: nat)
    | Settle(settler: nat)
    | Speculate(n: nat, submits: bool)
    | Done(read: nat, ok: bool)
    | ForgetReads
    | Drop
    | Evict

  const START := System(NEW, {}, map[], [], 0)

  predicate Shaped(s: System) {
    && WellFormed(s.line)
    && (forall n :: n in s.carried ==> n < |s.fates|)
    && (s.line.waiting.Some? ==> s.line.waiting.value.serial < |s.fates|)
  }

  predicate Enabled(s: System, e: Event) {
    && Shaped(s)
    && match e
       case Hear(_, settler) => settler !in s.settlers
       case Settle(settler) => settler in s.settlers
       case Speculate(n, _) => n in s.carried
       case Done(read, _) => read < |s.line.started| && s.line.started[read].status.Running?
       case _ => true
  }

  function FateOf(l: Line, words: Words): Fate
    requires WellFormed(l)
  {
    match Judge(l, words)
    case Closed => Forgotten
    case NothingNew => Skipped
    case Wait => Waiting
    case Start => Read(|l.started|)
  }

  predicate Takes(l: Line, words: Words)
    requires WellFormed(l)
  {
    Judge(l, words).Wait? || Judge(l, words).Start?
  }

  /** The text that waited makes way. */
  function Unseated(s: System, fate: Fate): seq<Fate>
    requires Shaped(s)
  {
    if s.line.waiting.Some? then s.fates[s.line.waiting.value.serial := fate] else s.fates
  }

  function Present(s: System, n: nat, submits: bool): System
    requires Enabled(s, Speculate(n, submits))
  {
    var words := s.carried[n];
    var fates := if Judge(s.line, words).Wait? then Unseated(s, Replaced) else s.fates;
    s.(line := SpeculateStep(s.line, Settled(n, words), submits), carried := s.carried - {n},
       fates := fates[n := FateOf(s.line, words)],
       taken := if Takes(s.line, words) && n >= s.taken then n + 1 else s.taken)
  }

  function Finish(s: System, read: nat, ok: bool): System
    requires Enabled(s, Done(read, ok))
  {
    var t := s.(line := DoneStep(s.line, read, ok));
    match Following(s.line, read)
    case None => t
    case Some(text) => t.(carried := s.carried[text.serial := text.words], fates := s.fates[text.serial := Carried])
  }

  function SettleOf(s: System, settler: nat): System {
    var t := s.(line := SettleStep(s.line), settlers := s.settlers - {settler});
    if Settles(s.line) then
      t.(carried := s.carried[|s.fates| := s.line.heard.value], fates := s.fates + [Carried])
    else t
  }

  function Step(s: System, e: Event): System
    requires Enabled(s, e)
  {
    match e
    case Ask => s.(line := s.line.(asked := true))
    case Turn(words, submits) => s.(line := StartStep(s.line.(asked := true), words, None, submits))
    case Hear(words, settler) =>
      var starts := !s.line.closed && s.line.asked && !s.line.settling;
      s.(line := HearStep(s.line, words), settlers := if starts then s.settlers + {settler} else s.settlers)
    case Settle(settler) => SettleOf(s, settler)
    case Speculate(n, submits) => Present(s, n, submits)
    case Done(read, ok) => Finish(s, read, ok)
    case ForgetReads => s.(line := ForgetReadsStep(s.line))
    case Drop => s.(line := DropStep(s.line), fates := Unseated(s, Forgotten))
    case Evict => s.(line := s.line.(closed := true))
  }

  ghost predicate IsRun(run: seq<System>, events: seq<Event>) {
    && |run| == |events| + 1 && run[0] == START
    && (forall i :: 0 <= i < |events| ==> StepAt(run, events, i))
  }

  ghost predicate StepAt(run: seq<System>, events: seq<Event>, i: nat)
    requires i < |events| && |run| == |events| + 1
  {
    Enabled(run[i], events[i]) && run[i + 1] == Step(run[i], events[i])
  }

  // ---- What holds in every run ----

  predicate Speculative(l: Line, i: nat) { i < |l.started| && l.started[i].serial.Some? }

  predicate Flying(l: Line, i: nat) { Speculative(l, i) && l.started[i].status.Running? }

  predicate OwnRead(l: Line) {
    WellFormed(l) && (l.speculating.Some? ==> Speculative(l, l.speculating.value))
  }

  /** At most one settler, and only of a line that was asked for. */
  predicate OneSettler(s: System) {
    && (s.line.settling <==> s.settlers != {})
    && (forall a, b :: a in s.settlers && b in s.settlers ==> a == b)
    && (s.settlers != {} || s.fates != [] || s.line.heard.Some? ==> s.line.asked)
  }

  predicate Is(s: System, n: nat, fate: Fate) { n < |s.fates| && s.fates[n] == fate }

  predicate Waits(s: System, n: nat) { s.line.waiting.Some? && s.line.waiting.value.serial == n }

  /** The texts carried, and the one that waits, are those whose fate says so. */
  ghost predicate Moving(s: System) {
    && (forall n: nat :: n in s.carried <==> Is(s, n, Carried))
    && (forall n: nat :: Waits(s, n) <==> Is(s, n, Waiting))
  }

  /** The texts read are those whose fate says so, each by one read. */
  ghost predicate Reads(s: System) {
    && (forall i: nat :: Speculative(s.line, i) ==> Is(s, s.line.started[i].serial.value, Read(i)))
    && (forall n: nat :: n < |s.fates| && s.fates[n].Read? ==>
                           Speculative(s.line, s.fates[n].id) && s.line.started[s.fates[n].id].serial == Some(n))
  }

  /** Only a closed line forgets, and what was not taken is carried or came to nothing. */
  ghost predicate Rest(s: System) {
    && s.taken <= |s.fates|
    && (forall n: nat :: Is(s, n, Forgotten) ==> s.line.closed)
    && (forall n: nat :: s.taken <= n < |s.fates| ==> s.fates[n] in {Carried, Skipped, Forgotten})
  }

  ghost predicate Orderly(s: System) {
    OwnRead(s.line) && OneSettler(s) && Shaped(s) && Moving(s) && Reads(s) && Rest(s)
  }

  lemma OwnReadStep(s: System, e: Event)
    requires OwnRead(s.line) && Enabled(s, e)
    ensures OwnRead(Step(s, e).line)
  {
  }

  lemma SettlerStep(s: System, e: Event)
    requires OneSettler(s) && Enabled(s, e)
    ensures OneSettler(Step(s, e))
  {
  }

  /** The places of a text that moves are not each other's. */
  lemma Apart(s: System, n: nat)
    requires Moving(s)
    ensures n in s.carried ==> Is(s, n, Carried) && !Waits(s, n)
    ensures s.line.waiting.Some? ==> Is(s, s.line.waiting.value.serial, Waiting)
  {
    assert Waits(s, n) ==> Is(s, n, Waiting);
    if s.line.waiting.Some? {
      assert Waits(s, s.line.waiting.value.serial);
    }
  }

  lemma MovingStep(s: System, e: Event)
    requires Moving(s) && Enabled(s, e)
    ensures Shaped(Step(s, e)) && Moving(Step(s, e))
  {
    var t := Step(s, e);
    Apart(s, if e.Speculate? then e.n else 0);
    forall n: nat
      ensures (n in t.carried <==> Is(t, n, Carried)) && (Waits(t, n) <==> Is(t, n, Waiting))
    {
      assert n in s.carried <==> Is(s, n, Carried);
      assert Waits(s, n) <==> Is(s, n, Waiting);
    }
    forall n | n in t.carried
      ensures n < |t.fates|
    {
      assert Is(t, n, Carried);
    }
  }

  lemma ReadsStay(s: System, t: System, i: nat)
    requires Reads(s) && Speculative(s.line, i)
    requires i < |t.line.started| && t.line.started[i].serial == s.line.started[i].serial
    requires forall n :: 0 <= n < |s.fates| && s.fates[n].Read? ==> n < |t.fates| && t.fates[n] == s.fates[n]
    ensures Is(t, t.line.started[i].serial.value, Read(i))
  {
    assert Is(s, s.line.started[i].serial.value, Read(i));
  }

  /** A read that was counted stays so, and a step adds at most its own. */
  lemma StepKeepsReads(s: System, e: Event)
    requires Moving(s) && Enabled(s, e)
    ensures var t := Step(s, e);
            && (forall n :: 0 <= n < |s.fates| && s.fates[n].Read? ==> n < |t.fates| && t.fates[n] == s.fates[n])
            && |s.line.started| <= |t.line.started|
            && (forall i :: 0 <= i < |s.line.started| ==> t.line.started[i].serial == s.line.started[i].serial)
  {
    Apart(s, if e.Speculate? then e.n else 0);
  }

  lemma ReadsStep(s: System, e: Event)
    requires Moving(s) && Reads(s) && Enabled(s, e)
    ensures Reads(Step(s, e))
  {
    var t := Step(s, e);
    StepKeepsReads(s, e);
    forall i: nat | Speculative(t.line, i)
      ensures Is(t, t.line.started[i].serial.value, Read(i))
    {
      if i < |s.line.started| {
        ReadsStay(s, t, i);
      }
    }
    forall n: nat | n < |t.fates| && t.fates[n].Read?
      ensures Speculative(t.line, t.fates[n].id) && t.line.started[t.fates[n].id].serial == Some(n)
    {
      if n < |s.fates| && s.fates[n].Read? {
        assert Speculative(s.line, s.fates[n].id);
      }
    }
  }

  lemma RestStep(s: System, e: Event)
    requires OneSettler(s) && Moving(s) && Rest(s) && Enabled(s, e)
    ensures Rest(Step(s, e))
  {
    var t := Step(s, e);
    Apart(s, if e.Speculate? then e.n else 0);
    forall n: nat | Is(t, n, Forgotten)
      ensures t.line.closed
    {
      if n < |s.fates| && s.fates[n] == Forgotten {
        assert Is(s, n, Forgotten);
      }
    }
  }

  lemma StepIsOrderly(s: System, e: Event)
    requires Orderly(s) && Enabled(s, e)
    ensures Orderly(Step(s, e))
  {
    OwnReadStep(s, e);
    SettlerStep(s, e);
    MovingStep(s, e);
    ReadsStep(s, e);
    RestStep(s, e);
  }

  lemma {:induction false} RunsAreOrderly(run: seq<System>, events: seq<Event>, i: nat)
    requires IsRun(run, events) && i < |run|
    ensures Orderly(run[i])
  {
    if i > 0 {
      RunsAreOrderly(run, events, i - 1);
      assert StepAt(run, events, i - 1);
      StepIsOrderly(run[i - 1], events[i - 1]);
    }
  }

  predicate SameText(l: Line, a: nat, b: nat) {
    Speculative(l, a) && Speculative(l, b) && l.started[a].serial == l.started[b].serial
  }

  /** In every interleaving at most one settler runs, and no settled partial is read twice. */
  lemma ReadOnce(run: seq<System>, events: seq<Event>, i: nat)
    requires IsRun(run, events) && i < |run|
    ensures forall a, b :: a in run[i].settlers && b in run[i].settlers ==> a == b
    ensures forall a: nat, b: nat :: SameText(run[i].line, a, b) ==> a == b
  {
    RunsAreOrderly(run, events, i);
  }

  // ---- How many reads fly ----

  /** The reads were forgotten at `k`, while `a` flew. */
  predicate CutOff(run: seq<System>, events: seq<Event>, k: nat, a: nat)
    requires k < |events| && |run| == |events| + 1
  {
    events[k].ForgetReads? && Flying(run[k].line, a)
  }

  ghost predicate WasCutOff(run: seq<System>, events: seq<Event>, i: nat, a: nat, b: nat)
    requires i < |run| && |run| == |events| + 1
  {
    exists k: nat :: k < i && CutOff(run, events, k, a) && |run[k].line.started| <= b
  }

  lemma StartedStep(s: System, e: Event)
    requires Enabled(s, e)
    ensures |s.line.started| <= |Step(s, e).line.started|
  {
  }

  /** A read that flies is the line's own, unless it was already no longer, or the reads are forgotten now. */
  lemma FlyingStep(s: System, e: Event, a: nat)
    requires OwnRead(s.line) && Enabled(s, e) && Flying(Step(s, e).line, a)
    requires Step(s, e).line.speculating != Some(a)
    ensures Flying(s.line, a) && (s.line.speculating == Some(a) ==> e.ForgetReads?)
  {
  }

  /** A read joins one that flies only when that one is not the line's own. */
  lemma JoiningStep(s: System, e: Event, a: nat, b: nat)
    requires OwnRead(s.line) && Enabled(s, e) && a < b
    requires Flying(Step(s, e).line, a) && Flying(Step(s, e).line, b) && !Flying(s.line, b)
    ensures Flying(s.line, a) && s.line.speculating != Some(a) && b == |s.line.started|
  {
  }

  lemma {:induction false} OthersWereCutOff(run: seq<System>, events: seq<Event>, i: nat, a: nat)
    requires IsRun(run, events) && i < |run| && Flying(run[i].line, a) && run[i].line.speculating != Some(a)
    ensures WasCutOff(run, events, i, a, |run[i].line.started|)
  {
    if i > 0 {
      var s, e := run[i - 1], events[i - 1];
      assert StepAt(run, events, i - 1);
      RunsAreOrderly(run, events, i - 1);
      FlyingStep(s, e, a);
      StartedStep(s, e);
      if s.line.speculating == Some(a) {
        assert CutOff(run, events, i - 1, a);
      } else {
        OthersWereCutOff(run, events, i - 1, a);
        Later(run, events, i - 1, a, |s.line.started|, |run[i].line.started|);
      }
    }
  }

  lemma Later(run: seq<System>, events: seq<Event>, i: nat, a: nat, b: nat, c: nat)
    requires |run| == |events| + 1 && i + 1 < |run| && WasCutOff(run, events, i, a, b) && b <= c
    ensures WasCutOff(run, events, i + 1, a, c)
  {
    var k: nat :| k < i && CutOff(run, events, k, a) && |run[k].line.started| <= b;
    assert CutOff(run, events, k, a);
  }

  /** When two speculative reads fly at once, the reads were forgotten while the older one flew, before the younger
    * one started. */
  lemma {:induction false} JoinedIsCutOff(run: seq<System>, events: seq<Event>, i: nat, a: nat, b: nat)
    requires IsRun(run, events) && i < |run| && a < b && Flying(run[i].line, a) && Flying(run[i].line, b)
    ensures WasCutOff(run, events, i, a, b)
  {
    if i > 0 {
      var s, e := run[i - 1], events[i - 1];
      assert StepAt(run, events, i - 1);
      RunsAreOrderly(run, events, i - 1);
      if Flying(s.line, b) {
        StillFlying(s, e, a, b);
        JoinedIsCutOff(run, events, i - 1, a, b);
        Later(run, events, i - 1, a, b, b);
      } else {
        JoiningStep(s, e, a, b);
        OthersWereCutOff(run, events, i - 1, a);
        Later(run, events, i - 1, a, b, b);
      }
    }
  }

  lemma StillFlying(s: System, e: Event, a: nat, b: nat)
    requires Enabled(s, e) && a < b && Flying(Step(s, e).line, a) && Flying(s.line, b)
    ensures Flying(s.line, a)
  {
  }

  ghost predicate AtMostOneFlies(l: Line) { forall a: nat, b: nat :: Flying(l, a) && Flying(l, b) ==> a == b }

  /** While at most one flies, a step lets a second fly exactly when it starts one and the other, cut off from the
    * line, still flies. */
  lemma SecondFliesExactly(s: System, e: Event)
    requires OwnRead(s.line) && Enabled(s, e) && AtMostOneFlies(s.line)
    ensures !AtMostOneFlies(Step(s, e).line) <==>
              && e.Speculate? && e.submits && Judge(s.line, s.carried[e.n]).Start?
              && exists a: nat :: Flying(s.line, a)
  {
    var l := Step(s, e).line;
    if e.Speculate? && e.submits && Judge(s.line, s.carried[e.n]).Start? {
      assert Flying(l, |s.line.started|);
      forall a: nat | a < |s.line.started|
        ensures Flying(l, a) <==> Flying(s.line, a)
      {
      }
    } else {
      forall a: nat | Flying(l, a)
        ensures Flying(s.line, a)
      {
      }
    }
  }

  /** So at most one flies as long as the reads are forgotten only while none does. */
  lemma OneAtATime(run: seq<System>, events: seq<Event>, i: nat)
    requires IsRun(run, events) && i < |run|
    requires forall k: nat, a: nat :: k < i ==> !CutOff(run, events, k, a)
    ensures AtMostOneFlies(run[i].line)
  {
    forall a: nat, b: nat | a < b && Flying(run[i].line, a) && Flying(run[i].line, b)
      ensures false
    {
      JoinedIsCutOff(run, events, i, a, b);
    }
  }

  // ---- What becomes of a text ----

  /** No speculative read in flight, and no text on its way to one. */
  ghost predicate Quiet(s: System) { s.carried == map[] && forall i: nat :: !Flying(s.line, i) }

  /** Read, of no new words, or forgotten with its conversation. */
  predicate Ended(s: System, n: nat)
    requires n < |s.fates|
  {
    s.fates[n].Read? || s.fates[n] == Skipped || (s.fates[n] == Forgotten && s.line.closed)
  }

  lemma QuietEnds(s: System, n: nat)
    requires OwnRead(s.line) && Moving(s) && Rest(s) && Quiet(s) && n < |s.fates|
    ensures !InFlight(s.line)
    ensures Ended(s, n) <==> s.fates[n] != Replaced && !Waits(s, n)
  {
    assert Is(s, n, Carried) <==> n in s.carried;
    assert Is(s, n, Waiting) <==> Waits(s, n);
    assert Is(s, n, Forgotten) ==> s.line.closed;
    if s.line.speculating.Some? {
      assert !Flying(s.line, s.line.speculating.value);
    }
  }

  /** The step leaves another text waiting in the place of `n`. */
  predicate Displaces(s: System, e: Event, n: nat) {
    Enabled(s, e) && e.Speculate? && Judge(s.line, s.carried[e.n]).Wait? && Waits(s, n)
  }

  /** The step takes the waiting text from its place. */
  predicate Moves(s: System, e: Event) {
    && Enabled(s, e)
    && ((e.Done? && s.line.speculating == Some(e.read))
        || (e.Speculate? && Judge(s.line, s.carried[e.n]).Wait?)
        || e.Drop?)
  }

  lemma ReplacedStep(s: System, e: Event, n: nat)
    requires Orderly(s) && Enabled(s, e)
    ensures Is(Step(s, e), n, Replaced) <==> Is(s, n, Replaced) || Displaces(s, e, n)
  {
    Apart(s, n);
    Apart(s, if e.Speculate? then e.n else n);
  }

  lemma WaitsStep(s: System, e: Event, n: nat)
    requires Orderly(s) && Enabled(s, e) && Waits(s, n)
    ensures Waits(Step(s, e), n) <==> !Moves(s, e)
  {
    Apart(s, if e.Speculate? then e.n else n);
  }

  /** A text comes to wait behind a read in flight, and only forgetting that read leaves it waiting for none. */
  lemma BehindStep(s: System, e: Event, n: nat)
    requires Orderly(s) && Enabled(s, e) && Waits(Step(s, e), n) && !InFlight(Step(s, e).line)
    ensures Waits(s, n) && !Moves(s, e) && (InFlight(s.line) ==> e.ForgetReads?)
  {
    if Waits(s, n) {
      WaitsStep(s, e, n);
    }
  }

  ghost predicate Displaced(run: seq<System>, events: seq<Event>, i: nat, n: nat)
    requires i < |run| && |run| == |events| + 1
  {
    exists k: nat :: k < i && Displaces(run[k], events[k], n)
  }

  /** The reads were forgotten at `k` while `n` waited, and nothing took it from its place after that. */
  ghost predicate LeftSince(run: seq<System>, events: seq<Event>, k: nat, i: nat, n: nat)
    requires k < i < |run| && |run| == |events| + 1
  {
    events[k].ForgetReads? && Waits(run[k], n) && forall m :: k < m < i ==> !Moves(run[m], events[m])
  }

  ghost predicate LeftBehind(run: seq<System>, events: seq<Event>, i: nat, n: nat)
    requires i < |run| && |run| == |events| + 1
  {
    exists k: nat :: k < i && LeftSince(run, events, k, i, n)
  }

  lemma {:induction false} ReplacedIsDisplaced(run: seq<System>, events: seq<Event>, i: nat, n: nat)
    requires IsRun(run, events) && i < |run|
    ensures Is(run[i], n, Replaced) <==> Displaced(run, events, i, n)
  {
    if i > 0 {
      var s, e := run[i - 1], events[i - 1];
      assert StepAt(run, events, i - 1);
      RunsAreOrderly(run, events, i - 1);
      ReplacedIsDisplaced(run, events, i - 1, n);
      ReplacedStep(s, e, n);
      DisplacedStep(run, events, i, n);
    }
  }

  lemma DisplacedStep(run: seq<System>, events: seq<Event>, i: nat, n: nat)
    requires 0 < i < |run| && |run| == |events| + 1
    ensures Displaced(run, events, i, n) <==>
              Displaced(run, events, i - 1, n) || Displaces(run[i - 1], events[i - 1], n)
  {
  }

  lemma {:induction false} LeftStillWaits(run: seq<System>, events: seq<Event>, k: nat, i: nat, n: nat)
    requires IsRun(run, events) && k < i < |run| && LeftSince(run, events, k, i, n)
    ensures Waits(run[i], n)
  {
    var s, e := run[i - 1], events[i - 1];
    assert StepAt(run, events, i - 1);
    RunsAreOrderly(run, events, i - 1);
    if k < i - 1 {
      LeftStillWaits(run, events, k, i - 1, n);
      WaitsStep(s, e, n);
    }
  }

  lemma {:induction false} WaitsForNothing(run: seq<System>, events: seq<Event>, i: nat, n: nat)
    requires IsRun(run, events) && i < |run| && Waits(run[i], n) && !InFlight(run[i].line)
    ensures LeftBehind(run, events, i, n)
  {
    if i > 0 {
      var s, e := run[i - 1], events[i - 1];
      assert StepAt(run, events, i - 1);
      RunsAreOrderly(run, events, i - 1);
      BehindStep(s, e, n);
      if InFlight(s.line) {
        assert LeftSince(run, events, i - 1, i, n);
      } else {
        WaitsForNothing(run, events, i - 1, n);
        var k: nat :| k < i - 1 && LeftSince(run, events, k, i - 1, n);
        assert LeftSince(run, events, k, i, n);
      }
    }
  }

  /** For every run: in a quiet line a settled partial has ended exactly when no other was left waiting in its
    * place, and the reads were not forgotten while it waited with no read of the line ending since. */
  lemma EndsExactly(run: seq<System>, events: seq<Event>, i: nat, n: nat)
    requires IsRun(run, events) && i < |run| && Quiet(run[i]) && n < |run[i].fates|
    ensures Ended(run[i], n) <==> !Displaced(run, events, i, n) && !LeftBehind(run, events, i, n)
  {
    RunsAreOrderly(run, events, i);
    QuietEnds(run[i], n);
    ReplacedIsDisplaced(run, events, i, n);
    if Waits(run[i], n) {
      WaitsForNothing(run, events, i, n);
    }
    if LeftBehind(run, events, i, n) {
      var k: nat :| k < i && LeftSince(run, events, k, i, n);
      LeftStillWaits(run, events, k, i, n);
    }
  }

  /** So nothing is stranded as long as the reads are forgotten only while no text waits: what has not ended made
    * way for another. */
  lemma NothingStranded(run: seq<System>, events: seq<Event>, i: nat, n: nat)
    requires IsRun(run, events) && i < |run| && Quiet(run[i]) && n < |run[i].fates|
    requires forall k :: 0 <= k < i && events[k].ForgetReads? ==> run[k].line.waiting.None?
    ensures Ended(run[i], n) || Displaced(run, events, i, n)
  {
    EndsExactly(run, events, i, n);
  }

  /** What displaces the newest partial of a run is always an older one. */
  lemma NewestIsDisplacedByOlder(run: seq<System>, events: seq<Event>, i: nat, k: nat)
    requires IsRun(run, events) && k < i < |run| && run[i].fates != []
    requires Displaces(run[k], events[k], |run[i].fates| - 1)
    ensures events[k].n < |run[i].fates| - 1
  {
    RunsAreOrderly(run, events, k);
    Apart(run[k], events[k].n);
    FatesGrow(run, events, k, i);
  }

  lemma {:induction false} FatesGrow(run: seq<System>, events: seq<Event>, k: nat, i: nat)
    requires IsRun(run, events) && k <= i < |run|
    ensures |run[k].fates| <= |run[i].fates|
  {
    if k < i {
      FatesGrow(run, events, k, i - 1);
      assert StepAt(run, events, i - 1);
    }
  }

  // ---- The newest text next ----

  /** A text is read, or left waiting, only when no newer one was. */
  predicate InTurn(s: System, e: Event)
    requires Enabled(s, e)
  {
    e.Speculate? && Takes(s.line, s.carried[e.n]) ==> e.n + 1 >= s.taken
  }

  ghost predicate IsRunInTurn(run: seq<System>, events: seq<Event>) {
    IsRun(run, events) && forall i :: 0 <= i < |events| ==> Enabled(run[i], events[i]) && InTurn(run[i], events[i])
  }

  /** The newest text taken is never replaced, none that waits is newer, and texts are read in order. */
  ghost predicate NewestKept(s: System) {
    && (s.taken > 0 ==> !Is(s, s.taken - 1, Replaced))
    && (s.line.waiting.Some? ==> s.line.waiting.value.serial < s.taken)
    && ReadInOrder(s.line)
  }

  ghost predicate ReadInOrder(l: Line) {
    forall i: nat, j: nat :: i < j && Speculative(l, i) && Speculative(l, j) ==>
                               l.started[i].serial.value < l.started[j].serial.value
  }

  /** A new speculative read is of a text newer than all read before it. */
  lemma NewReadIsNewest(s: System, n: nat, i: nat)
    requires Orderly(s) && n in s.carried && n + 1 >= s.taken && Speculative(s.line, i)
    ensures s.line.started[i].serial.value < n
  {
    assert Is(s, s.line.started[i].serial.value, Read(i)) && Is(s, n, Carried);
  }

  lemma SameReads(s: System, e: Event, i: nat)
    requires Enabled(s, e) && Speculative(Step(s, e).line, i)
    ensures i < |s.line.started| ==>
              Speculative(s.line, i) && Step(s, e).line.started[i].serial == s.line.started[i].serial
    ensures i >= |s.line.started| ==>
              && e.Speculate? && Takes(s.line, s.carried[e.n]) && i == |s.line.started|
              && Step(s, e).line.started[i].serial == Some(e.n)
  {
  }

  lemma OrderKept(s: System, e: Event)
    requires Orderly(s) && NewestKept(s) && Enabled(s, e) && InTurn(s, e)
    ensures ReadInOrder(Step(s, e).line)
  {
    var l := Step(s, e).line;
    forall i: nat, j: nat | i < j && Speculative(l, i) && Speculative(l, j)
      ensures l.started[i].serial.value < l.started[j].serial.value
    {
      SameReads(s, e, i);
      SameReads(s, e, j);
      if j >= |s.line.started| {
        NewReadIsNewest(s, e.n, i);
      }
    }
  }

  lemma OldReadsStay(s: System, e: Event, i: nat)
    requires Enabled(s, e) && Speculative(s.line, i)
    ensures Speculative(Step(s, e).line, i) && Step(s, e).line.started[i].serial == s.line.started[i].serial
  {
  }

  lemma NoNewReadKeepsOrder(s: System, e: Event)
    requires Enabled(s, e) && ReadInOrder(s.line) && !(e.Speculate? && Judge(s.line, s.carried[e.n]).Start?)
    ensures ReadInOrder(Step(s, e).line)
  {
    var l := Step(s, e).line;
    forall i: nat | Speculative(l, i)
      ensures Speculative(s.line, i) && l.started[i].serial == s.line.started[i].serial
    {
      SameReads(s, e, i);
    }
  }

  lemma NewReadKeepsOrder(s: System, e: Event)
    requires Orderly(s) && Enabled(s, e) && ReadInOrder(s.line)
    requires e.Speculate? && Judge(s.line, s.carried[e.n]).Start?
    requires forall i: nat :: Speculative(s.line, i) ==> s.line.started[i].serial.value <= e.n
    ensures ReadInOrder(Step(s, e).line)
  {
    var l := Step(s, e).line;
    forall i: nat, j: nat | i < j && Speculative(l, i) && Speculative(l, j)
      ensures l.started[i].serial.value < l.started[j].serial.value
    {
      SameReads(s, e, i);
      SameReads(s, e, j);
      if j >= |s.line.started| {
        assert Is(s, s.line.started[i].serial.value, Read(i)) && Is(s, e.n, Carried);
      }
    }
  }

  /** Up to then in order, a step breaks the order exactly when it starts a read of a text older than one read. */
  lemma OrderBreaksExactly(s: System, e: Event)
    requires Orderly(s) && Enabled(s, e) && ReadInOrder(s.line)
    ensures !ReadInOrder(Step(s, e).line) <==>
              && e.Speculate? && Judge(s.line, s.carried[e.n]).Start?
              && exists i: nat :: Speculative(s.line, i) && s.line.started[i].serial.value > e.n
  {
    if !(e.Speculate? && Judge(s.line, s.carried[e.n]).Start?) {
      NoNewReadKeepsOrder(s, e);
    } else if i: nat :| Speculative(s.line, i) && s.line.started[i].serial.value > e.n {
      OldReadsStay(s, e, i);
      assert Speculative(Step(s, e).line, |s.line.started|);
    } else {
      NewReadKeepsOrder(s, e);
    }
  }

  lemma NewestStep(s: System, e: Event)
    requires Orderly(s) && NewestKept(s) && Enabled(s, e) && InTurn(s, e)
    ensures NewestKept(Step(s, e))
  {
    OrderKept(s, e);
    if e.Speculate? {
      Apart(s, e.n);
    }
    if Step(s, e).taken > 0 {
      ReplacedStep(s, e, Step(s, e).taken - 1);
    }
  }

  lemma {:induction false} InTurnKeepsNewest(run: seq<System>, events: seq<Event>, i: nat)
    requires IsRunInTurn(run, events) && i < |run|
    ensures Orderly(run[i]) && NewestKept(run[i])
  {
    if i > 0 {
      InTurnKeepsNewest(run, events, i - 1);
      assert StepAt(run, events, i - 1);
      StepIsOrderly(run[i - 1], events[i - 1]);
      NewestStep(run[i - 1], events[i - 1]);
    }
  }

  /** When texts are taken up in turn, partials are read in the order they settled, and in a quiet line the newest
    * has ended unless the reads were forgotten while it waited. */
  lemma NewestIsNext(run: seq<System>, events: seq<Event>, i: nat)
    requires IsRunInTurn(run, events) && i < |run|
    ensures ReadInOrder(run[i].line)
    ensures Quiet(run[i]) && run[i].fates != [] ==>
              var n := |run[i].fates| - 1;
              Ended(run[i], n) <==> !LeftBehind(run, events, i, n)
  {
    InTurnKeepsNewest(run, events, i);
    if Quiet(run[i]) && run[i].fates != [] {
      var n := |run[i].fates| - 1;
      EndsExactly(run, events, i, n);
      ReplacedIsDisplaced(run, events, i, n);
    }
  }

  /** An older text is on its way to be judged. */
  predicate Overtakes(s: System, e: Event)
    requires Enabled(s, e)
  {
    e.Speculate? && Takes(s.line, s.carried[e.n]) && exists n :: n in s.carried && n < e.n
  }

  predicate LeavesBehind(s: System, e: Event) { e.ForgetReads? && s.line.waiting.Some? }

  /** No text is taken up while an older one is on its way, nor the reads forgotten while one waits. */
  ghost predicate IsCalm(run: seq<System>, events: seq<Event>) {
    && IsRun(run, events)
    && forall i :: 0 <= i < |events| ==>
         Enabled(run[i], events[i]) && !Overtakes(run[i], events[i]) && !LeavesBehind(run[i], events[i])
  }

  /** What is on its way, or waits, is as new as what was taken up. */
  ghost predicate NothingOlder(s: System) {
    && (forall n :: n in s.carried ==> n + 1 >= s.taken)
    && (s.line.waiting.Some? ==> InFlight(s.line) && s.line.waiting.value.serial + 1 == s.taken)
  }

  lemma CalmStep(s: System, e: Event)
    requires Orderly(s) && NothingOlder(s) && Enabled(s, e) && !Overtakes(s, e) && !LeavesBehind(s, e)
    ensures InTurn(s, e) && NothingOlder(Step(s, e))
  {
  }

  lemma {:induction false} CalmIsInTurn(run: seq<System>, events: seq<Event>, i: nat)
    requires IsCalm(run, events) && i < |run|
    ensures NothingOlder(run[i]) && (i < |events| ==> InTurn(run[i], events[i]))
  {
    RunsAreOrderly(run, events, i);
    if i > 0 {
      CalmIsInTurn(run, events, i - 1);
      RunsAreOrderly(run, events, i - 1);
      assert StepAt(run, events, i - 1);
      CalmStep(run[i - 1], events[i - 1]);
    }
    if i < |events| {
      CalmStep(run[i], events[i]);
    }
  }

  /** With neither, the promise holds: texts are read in order, and a quiet line has ended with its newest. */
  lemma CalmReadsNewest(run: seq<System>, events: seq<Event>, i: nat)
    requires IsCalm(run, events) && i < |run|
    ensures ReadInOrder(run[i].line)
    ensures Quiet(run[i]) && run[i].fates != [] ==> Ended(run[i], |run[i].fates| - 1)
  {
    forall k | 0 <= k < |events|
      ensures InTurn(run[k], events[k])
    {
      CalmIsInTurn(run, events, k);
    }
    NewestIsNext(run, events, i);
    CalmIsInTurn(run, events, i);
    RunsAreOrderly(run, events, i);
    if Quiet(run[i]) && run[i].fates != [] {
      InTurnKeepsNewest(run, events, i);
      QuietEnds(run[i], |run[i].fates| - 1);
    }
  }

  /** The newest text taken up made way, or waits behind no read. */
  predicate NewestLost(s: System) {
    s.taken > 0 && (Is(s, s.taken - 1, Replaced) || (Waits(s, s.taken - 1) && !InFlight(s.line)))
  }

  /** From any state where it did not, a step loses the newest text exactly when an older one is left waiting in
    * its place, or the reads are forgotten while it waits. */
  lemma LostExactly(s: System, e: Event)
    requires Orderly(s) && Enabled(s, e) && !NewestLost(s)
    ensures NewestLost(Step(s, e)) <==>
              && s.taken > 0 && Waits(s, s.taken - 1)
              && (e.ForgetReads?
                  || (e.Speculate? && Judge(s.line, s.carried[e.n]).Wait? && e.n < s.taken - 1))
  {
    var t := Step(s, e);
    if e.Speculate? {
      Apart(s, e.n);
    }
    if t.taken > 0 {
      ReplacedStep(s, e, t.taken - 1);
    }
  }

  // ---- What is read, and what is remembered ----

  /** A speculative read starts exactly for a text with words none of the remembered reads has, but a lost one, on an
    * open line with none of its own in flight; its words are the text's, and it is the latest remembered. */
  lemma ReadsExactly(s: System, n: nat, submits: bool)
    requires Enabled(s, Speculate(n, submits))
    ensures var l, t, words := s.line, Step(s, Speculate(n, submits)).line, s.carried[n];
            var known := exists i :: 0 <= i < |l.recent| && l.started[l.recent[i]].words == words
                                     && l.started[l.recent[i]].status != Lost;
            var flies := l.speculating.Some? && l.speculating.value < |l.started|
                         && l.started[l.speculating.value].status == Running;
            if l.closed || !l.asked || words == [] || known then t == l
            else if flies then t == l.(waiting := Some(Settled(n, words)))
            else
              && t.started == l.started + [TurnRead(words, Some(n), if submits then Running else Lost)]
              && t.speculating == Some(|l.started|) && t.waiting == l.waiting && t.heard == l.heard
              && |t.recent| > 0 && t.recent[|t.recent| - 1] == |l.started|
  {
    var l, words := s.line, s.carried[n];
    assert AlreadyRead(l, words) <==>
             exists i :: 0 <= i < |l.recent| && l.started[l.recent[i]].words == words
                         && l.started[l.recent[i]].status != Lost;
  }

  /** In every run the line remembers at most its four latest reads, in the order they started. */
  lemma {:induction false} RemembersTheLatest(run: seq<System>, events: seq<Event>, i: nat)
    requires IsRun(run, events) && i < |run|
    ensures var l := run[i].line;
            && |l.recent| <= 4
            && forall k :: 0 <= k < |l.recent| ==> l.recent[k] == |l.started| - |l.recent| + k
  {
    if i > 0 {
      RemembersTheLatest(run, events, i - 1);
      assert StepAt(run, events, i - 1);
    }
  }

  /** A read is remembered as it starts, and stays so for the next three. */
  lemma ReadIsRemembered(l: Line, words: Words, serial: Option<nat>, submits: bool)
    ensures var t := StartStep(l, words, serial, submits);
            && |t.recent| == (if |l.recent| < 4 then |l.recent| + 1 else 4)
            && t.started == l.started + [TurnRead(words, serial, if submits then Running else Lost)]
  {
  }

  /** A partial heard on an open line is what its settler takes, when nothing else is heard before: it becomes the
    * newest settled one, on its way to be judged. */
  lemma HeardIsTaken(s: System, words: Words, settler: nat)
    requires Enabled(s, Hear(words, settler)) && OneSettler(s) && !s.line.closed && s.line.asked
    ensures var t := Step(s, Hear(words, settler));
            && t.settlers != {} && t.fates == s.fates && t.carried == s.carried
            && forall one :: one in t.settlers ==>
                 var u := Step(t, Settle(one));
                 && |u.fates| == |s.fates| + 1 && u.carried == s.carried[|s.fates| := words] && u.settlers == {}
  {
  }

  /** A read that ends stays in its place with its outcome; the line's own takes the waiting text along. */
  lemma DoneTakesTheWaiting(s: System, read: nat, ok: bool)
    requires Orderly(s) && Enabled(s, Done(read, ok))
    ensures var t := Step(s, Done(read, ok));
            && t.line.started == s.line.started[read := s.line.started[read].(status := if ok then Answered else Lost)]
            && (s.line.speculating == Some(read) ==>
                  && t.line.speculating == None && t.line.waiting == None
                  && t.carried == match s.line.waiting
                                  case None => s.carried
                                  case Some(text) => s.carried[text.serial := text.words])
            && (s.line.speculating != Some(read) ==>
                  t.line == s.line.(started := t.line.started) && t.carried == s.carried)
  {
  }

  // ---- What overtaking does, and what forgetting the reads does ----

  /** Some run ends in `s`, with no text overtaken unless `overtaking`, nor any reads forgotten unless `forgetting`. */
  ghost predicate Reaches(s: System, overtaking: bool, forgetting: bool) {
    exists run, events :: IsRun(run, events) && run[|events|] == s && Keeps(run, events, overtaking, forgetting)
  }

  ghost predicate Keeps(run: seq<System>, events: seq<Event>, overtaking: bool, forgetting: bool)
    requires |run| == |events| + 1
  {
    forall i :: 0 <= i < |events| ==> Allowed(run[i], events[i], overtaking, forgetting)
  }

  predicate Allowed(s: System, e: Event, overtaking: bool, forgetting: bool) {
    Enabled(s, e) && (Overtakes(s, e) ==> overtaking) && (e.ForgetReads? ==> forgetting)
  }

  lemma ReachesStep(s: System, e: Event, overtaking: bool, forgetting: bool)
    requires Reaches(s, overtaking, forgetting) && Allowed(s, e, overtaking, forgetting)
    ensures Reaches(Step(s, e), overtaking, forgetting)
  {
    var run, events :| IsRun(run, events) && run[|events|] == s && Keeps(run, events, overtaking, forgetting);
    var longer, more := run + [Step(s, e)], events + [e];
    forall i | 0 <= i < |more|
      ensures StepAt(longer, more, i) && Allowed(longer[i], more[i], overtaking, forgetting)
    {
      if i < |events| {
        assert StepAt(run, events, i) && Allowed(run[i], events[i], overtaking, forgetting);
      }
    }
    assert IsRun(longer, more) && longer[|more|] == Step(s, e);
  }

  /** An open line with nothing heard and no settler. */
  predicate Open(s: System) {
    Shaped(s) && !s.line.closed && s.line.asked && !s.line.settling && s.line.heard.None? && s.settlers == {}
  }

  /** A partial heard, settled and judged with nothing in between. */
  function Said(s: System, words: Words): System
    requires Open(s)
  {
    Present(SettledOn(s, words), |s.fates|, true)
  }

  function Heard(s: System, words: Words): System {
    s.(line := s.line.(heard := Some(words), settling := true), settlers := {0})
  }

  function SettledOn(s: System, words: Words): System {
    s.(carried := s.carried[|s.fates| := words], fates := s.fates + [Carried])
  }

  lemma HearIsNext(s: System, words: Words)
    requires Open(s)
    ensures Enabled(s, Hear(words, 0)) && Step(s, Hear(words, 0)) == Heard(s, words)
  {
  }

  lemma SettleIsNext(s: System, words: Words)
    requires Open(s)
    ensures Enabled(Heard(s, words), Settle(0)) && Step(Heard(s, words), Settle(0)) == SettledOn(s, words)
  {
  }

  lemma SaidIsNext(s: System, words: Words)
    requires Open(s)
    ensures var t := SettledOn(s, words);
            && Enabled(t, Speculate(|s.fates|, true)) && Open(Said(s, words))
            && Step(t, Speculate(|s.fates|, true)) == Said(s, words)
            && (Overtakes(t, Speculate(|s.fates|, true)) ==> s.carried != map[])
  {
  }

  lemma SaidIsReached(s: System, words: Words, overtaking: bool, forgetting: bool)
    requires Open(s) && Reaches(s, overtaking, forgetting) && (overtaking || s.carried == map[])
    ensures Open(Said(s, words)) && Reaches(Said(s, words), overtaking, forgetting)
  {
    HearIsNext(s, words);
    ReachesStep(s, Hear(words, 0), overtaking, forgetting);
    SettleIsNext(s, words);
    ReachesStep(Heard(s, words), Settle(0), overtaking, forgetting);
    SaidIsNext(s, words);
    ReachesStep(SettledOn(s, words), Speculate(|s.fates|, true), overtaking, forgetting);
  }

  predicate FourTexts(a: Words, b: Words, c: Words, d: Words) {
    a != [] && b != [] && c != [] && d != [] && a != b && a != c && a != d && b != c && b != d && c != d
  }

  function LineOf(started: seq<TurnRead>, speculating: Option<nat>, waiting: Option<Settled>): Line
    requires |started| <= MAX_READS
  {
    Line(started, seq(|started|, i => i), None, false, speculating, waiting, false, true)
  }

  function Spoken(words: Words, n: nat, status: Status): TurnRead { TurnRead(words, Some(n), status) }

  /** `b` was taken up behind the read of `a`, and is on its way when `c` is read and `d` waits. */
  function Overtaken(a: Words, b: Words, c: Words, d: Words): System {
    System(LineOf([Spoken(a, 0, Answered), Spoken(c, 2, Running)], Some(1), Some(Settled(3, d))),
           {}, map[1 := b], [Read(0), Carried, Read(1), Waiting], 4)
  }

  function FirstTwo(a: Words, b: Words): System {
    System(LineOf([Spoken(a, 0, Running)], Some(0), Some(Settled(1, b))), {}, map[], [Read(0), Waiting], 2)
  }

  const ASKED := System(Line([], [], None, false, None, None, false, true), {}, map[], [], 0)

  function FirstRead(a: Words): System {
    System(LineOf([Spoken(a, 0, Running)], Some(0), None), {}, map[], [Read(0)], 1)
  }

  lemma StartIsReached(overtaking: bool, forgetting: bool)
    ensures Reaches(START, overtaking, forgetting)
  {
    var run: seq<System>, events: seq<Event> := [START], [];
    assert IsRun(run, events) && Keeps(run, events, overtaking, forgetting) && run[|events|] == START;
  }

  lemma AskedIsNext(overtaking: bool, forgetting: bool)
    ensures Allowed(START, Ask, overtaking, forgetting) && Step(START, Ask) == ASKED
  {
  }

  lemma AskedIsReached(overtaking: bool, forgetting: bool)
    ensures Reaches(ASKED, overtaking, forgetting)
  {
    StartIsReached(overtaking, forgetting);
    AskedIsNext(overtaking, forgetting);
    ReachesStep(START, Ask, overtaking, forgetting);
  }

  lemma FirstReadIsReached(a: Words, overtaking: bool, forgetting: bool)
    requires a != []
    ensures Reaches(FirstRead(a), overtaking, forgetting)
  {
    AskedIsReached(overtaking, forgetting);
    SaidIsReached(ASKED, a, overtaking, forgetting);
    assert Said(ASKED, a) == FirstRead(a);
  }

  lemma FirstTwoAreReached(a: Words, b: Words, overtaking: bool, forgetting: bool)
    requires a != [] && b != [] && a != b
    ensures Reaches(FirstTwo(a, b), overtaking, forgetting)
  {
    FirstReadIsReached(a, overtaking, forgetting);
    SaidIsReached(FirstRead(a), b, overtaking, forgetting);
    assert !AlreadyRead(FirstRead(a).line, b);
    assert Said(FirstRead(a), b) == FirstTwo(a, b);
  }

  /** After the read of `a`, with `b` on its way; then once `c` was said. */
  function Between(a: Words, b: Words): System {
    System(LineOf([Spoken(a, 0, Answered)], None, None), {}, map[1 := b], [Read(0), Carried], 2)
  }

  function ThirdRead(a: Words, b: Words, c: Words): System {
    System(LineOf([Spoken(a, 0, Answered), Spoken(c, 2, Running)], Some(1), None),
           {}, map[1 := b], [Read(0), Carried, Read(1)], 3)
  }

  lemma BetweenIsReached(a: Words, b: Words)
    requires a != [] && b != [] && a != b
    ensures Reaches(Between(a, b), true, false)
  {
    FirstTwoAreReached(a, b, true, false);
    ReachesStep(FirstTwo(a, b), Done(0, true), true, false);
    assert Step(FirstTwo(a, b), Done(0, true)) == Between(a, b);
  }

  lemma ThirdReadIsReached(a: Words, b: Words, c: Words)
    requires a != [] && b != [] && c != [] && a != b && a != c
    ensures Reaches(ThirdRead(a, b, c), true, false)
  {
    BetweenIsReached(a, b);
    SaidIsReached(Between(a, b), c, true, false);
    assert !AlreadyRead(Between(a, b).line, c);
    assert Said(Between(a, b), c) == ThirdRead(a, b, c);
  }

  lemma OvertakenIsReached(a: Words, b: Words, c: Words, d: Words)
    requires FourTexts(a, b, c, d)
    ensures Reaches(Overtaken(a, b, c, d), true, false)
  {
    ThirdReadIsReached(a, b, c);
    SaidIsReached(ThirdRead(a, b, c), d, true, false);
    assert !AlreadyRead(ThirdRead(a, b, c).line, d);
    assert Said(ThirdRead(a, b, c), d) == Overtaken(a, b, c, d);
  }

  /** `b` took the place of `d`; then it is on its way again, with nothing in flight. */
  function Replacing(a: Words, b: Words, c: Words): System {
    System(LineOf([Spoken(a, 0, Answered), Spoken(c, 2, Running)], Some(1), Some(Settled(1, b))),
           {}, map[], [Read(0), Waiting, Read(1), Replaced], 4)
  }

  function BackAgain(a: Words, b: Words, c: Words): System {
    System(LineOf([Spoken(a, 0, Answered), Spoken(c, 2, Answered)], None, None),
           {}, map[1 := b], [Read(0), Carried, Read(1), Replaced], 4)
  }

  lemma BackAgainIsReached(a: Words, b: Words, c: Words, d: Words)
    requires FourTexts(a, b, c, d)
    ensures Reaches(BackAgain(a, b, c), true, false)
  {
    OvertakenIsReached(a, b, c, d);
    var s := Overtaken(a, b, c, d);
    ReachesStep(s, Speculate(1, true), true, false);
    assert !AlreadyRead(s.line, b);
    assert Step(s, Speculate(1, true)) == Replacing(a, b, c);
    ReachesStep(Replacing(a, b, c), Done(1, true), true, false);
    assert Step(Replacing(a, b, c), Done(1, true)) == BackAgain(a, b, c);
  }

  /** Overtaking is enough: with any four different texts there is a run with no reads forgotten that ends quiet
    * with the newest of them never read, because an older one, picked up outside the lock, took its place behind the
    * read in flight. */
  lemma NewestMayBeLost(a: Words, b: Words, c: Words, d: Words)
    requires FourTexts(a, b, c, d)
    ensures exists s :: Reaches(s, true, false) && Quiet(s) && !s.line.closed && |s.fates| == 4
                        && s.fates[3] == Replaced
                        && forall i :: 0 <= i < |s.line.started| ==> s.line.started[i].words != d
  {
    BackAgainIsReached(a, b, c, d);
    var s := Final(a, b, c);
    LastRead(a, b, c);
    assert Quiet(s);
  }

  function Final(a: Words, b: Words, c: Words): System {
    System(LineOf([Spoken(a, 0, Answered), Spoken(c, 2, Answered), Spoken(b, 1, Answered)], None, None),
           {}, map[], [Read(0), Read(2), Read(1), Replaced], 4)
  }

  lemma LastRead(a: Words, b: Words, c: Words)
    requires Reaches(BackAgain(a, b, c), true, false) && b != [] && a != b && b != c
    ensures Reaches(Final(a, b, c), true, false)
  {
    var s := BackAgain(a, b, c);
    ReachesStep(s, Speculate(1, true), true, false);
    assert !AlreadyRead(s.line, b);
    var started := [Spoken(a, 0, Answered), Spoken(c, 2, Answered), Spoken(b, 1, Running)];
    var t := System(LineOf(started, Some(2), None), {}, map[], [Read(0), Read(2), Read(1), Replaced], 4);
    assert Step(s, Speculate(1, true)) == t;
    ReachesStep(t, Done(2, true), true, false);
    assert Step(t, Done(2, true)) == Final(a, b, c);
  }

  /** The reads forgotten while `a` flies and `b` waits; then the read of `a` over. */
  function Left(a: Words, b: Words): System {
    System(Line([Spoken(a, 0, Running)], [], None, false, None, Some(Settled(1, b)), false, true),
           {}, map[], [Read(0), Waiting], 2)
  }

  function Stranded(a: Words, b: Words): System {
    System(Line([Spoken(a, 0, Answered)], [], None, false, None, Some(Settled(1, b)), false, true),
           {}, map[], [Read(0), Waiting], 2)
  }

  lemma LeftIsReached(a: Words, b: Words)
    requires a != [] && b != [] && a != b
    ensures Reaches(Left(a, b), false, true)
  {
    FirstTwoAreReached(a, b, false, true);
    ReachesStep(FirstTwo(a, b), ForgetReads, false, true);
    assert Step(FirstTwo(a, b), ForgetReads) == Left(a, b);
  }

  /** Forgetting is enough too: with any two different texts there is a run with no text overtaken that ends quiet,
    * with the newest still waiting and never read. */
  lemma NewestMayBeLeft(a: Words, b: Words)
    requires a != [] && b != [] && a != b
    ensures exists s :: Reaches(s, false, true) && Quiet(s) && !s.line.closed && |s.fates| == 2 && Waits(s, 1)
                        && forall i :: 0 <= i < |s.line.started| ==> s.line.started[i].words != b
  {
    LeftIsReached(a, b);
    ReachesStep(Left(a, b), Done(0, true), false, true);
    assert Step(Left(a, b), Done(0, true)) == Stranded(a, b);
    assert Quiet(Stranded(a, b));
  }

  /** The read of `c` beside that of `a`; then over, with `b` on its way. */
  function Beside(a: Words, b: Words, c: Words): System {
    System(Line([Spoken(a, 0, Running), Spoken(c, 2, Running)], [1], None, false, Some(1), Some(Settled(1, b)),
                false, true), {}, map[], [Read(0), Waiting, Read(1)], 3)
  }

  function Behind(a: Words, b: Words, c: Words): System {
    System(Line([Spoken(a, 0, Running), Spoken(c, 2, Answered)], [1], None, false, None, None, false, true),
           {}, map[1 := b], [Read(0), Carried, Read(1)], 3)
  }

  lemma BesideIsReached(a: Words, b: Words, c: Words)
    requires a != [] && b != [] && c != [] && a != b
    ensures Reaches(Beside(a, b, c), false, true)
  {
    LeftIsReached(a, b);
    SaidIsReached(Left(a, b), c, false, true);
    assert Said(Left(a, b), c) == Beside(a, b, c);
  }

  lemma BehindIsReached(a: Words, b: Words, c: Words)
    requires a != [] && b != [] && c != [] && a != b
    ensures Reaches(Behind(a, b, c), false, true)
  {
    BesideIsReached(a, b, c);
    ReachesStep(Beside(a, b, c), Done(1, true), false, true);
    assert Step(Beside(a, b, c), Done(1, true)) == Behind(a, b, c);
  }

  /** And with a third text, two speculative reads fly at once, and after it the second is read, out of order. */
  lemma TwoMayFly(a: Words, b: Words, c: Words)
    requires a != [] && b != [] && c != [] && a != b && b != c
    ensures exists s :: Reaches(s, false, true) && !AtMostOneFlies(s.line)
    ensures exists s :: Reaches(s, false, true) && !ReadInOrder(s.line)
  {
    BesideIsReached(a, b, c);
    assert Flying(Beside(a, b, c).line, 0) && Flying(Beside(a, b, c).line, 1);
    BehindIsReached(a, b, c);
    var s := Behind(a, b, c);
    ReachesStep(s, Speculate(1, true), false, true);
    assert !AlreadyRead(s.line, b);
    var l := Step(s, Speculate(1, true)).line;
    assert Speculative(l, 1) && Speculative(l, 2) && l.started[1].serial.value > l.started[2].serial.value;
  }
}

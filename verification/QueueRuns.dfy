/** Every run of the queue and its one sender: clients put at any moment, the sender takes a batch, adds the
  * heartbeat and settles the outcome, each step under the lock of `src/niadra/_queue.py` it takes. */
module QueueRuns {
  import opened Basics
  import opened EventQueue
  import opened Flusher

  const UNSERIALIZABLE := "unserializable"

  /** Where the holder of the send lock is. */
  datatype Stage = Idle | Taken | Sending

  /** The sender and its batch in flight, with the history a run leaves: what was offered to `put`, answered,
    * or lost, the heartbeats lost with a refused batch (which no reason counts), the item errors counted,
    * the heartbeats emitted, the items that never became a payload, and the sends that failed in a row. */
  datatype System = System(
    sender: Sender, stage: Stage, flight: seq<Payload>,
    offered: seq<Payload>, answered: seq<Payload>, lost: seq<Payload>,
    uncounted: nat, itemErrors: nat, beats: seq<Payload>, unserialized: nat, failures: nat)

  datatype Event =
    | Put(p: Payload, now: real)
    | Unserializable
    | Take(now: real)
    | Beat(now: real)
    | Release
    | Settle(outcome: Outcome, now: real)

  function Start(now: real): System {
    System(Sender(EMPTY_BUFFER, now, 0, 0.0, 0.0), Idle, [], [], [], [], 0, 0, [], 0, 0)
  }

  /** A put item is never a heartbeat, and its `id` is its place among the items put. */
  predicate Enabled(s: System, e: Event) {
    match e
    case Put(p, _) => !IsHeartbeat(p) && p.id == |s.offered|
    case Unserializable => true
    case Take(_) => s.stage == Idle
    case Beat(_) => s.stage == Taken
    case Release => s.stage == Sending && s.flight == []
    case Settle(_, _) => s.stage == Sending && s.flight != []
  }

  function CountedErrors(batch: seq<Payload>, errors: seq<ItemError>): nat {
    if errors == [] then 0
    else
      CountedErrors(batch, errors[..|errors| - 1]) +
      (if CountsAsDropped(batch, errors[|errors| - 1]) then 1 else 0)
  }

  function Step(o: QueueOptions, s: System, e: Event): System
    requires Enabled(s, e)
  {
    match e
    case Put(p, now) =>
      s.(sender := s.sender.(buffer := PutStep(o, s.sender.buffer, p, now)),
         offered := s.offered + [p],
         lost := if HasRoom(o, s.sender.buffer) then s.lost else s.lost + [p])
    case Unserializable =>
      s.(sender := s.sender.(buffer := DropStep(s.sender.buffer, 1, UNSERIALIZABLE)),
         unserialized := s.unserialized + 1)
    case Take(now) =>
      s.(sender := AfterTake(s.sender, now), flight := TakeBatch(s.sender), stage := Taken)
    case Beat(now) =>
      var beat := [HeartbeatItem(s.sender.counted)];
      var due := BeatDue(o, s.sender, now);
      var back := due && |s.flight| >= MAX_BATCH_ITEMS;
      s.(sender := AfterBeat(o, s.sender, s.flight, now),
         flight := WithBeat(o, s.sender, s.flight, now),
         beats := if due then s.beats + beat else s.beats,
         lost := if back then s.lost + beat[Fits(o, s.sender.buffer, beat)..] else s.lost,
         stage := Sending)
    case Release => s.(stage := Idle)
    case Settle(outcome, now) =>
      var after := s.(sender := AfterOutcome(o, s.sender, s.flight, outcome, now), flight := [], stage := Idle);
      match outcome
      case Answered(errors) =>
        after.(answered := s.answered + s.flight, itemErrors := s.itemErrors + CountedErrors(s.flight, errors),
               failures := 0)
      case Failed =>
        after.(lost := s.lost + s.flight[Fits(o, s.sender.buffer, s.flight)..], failures := s.failures + 1)
      case Refused(_) =>
        after.(lost := s.lost + s.flight, uncounted := s.uncounted + (|s.flight| - |Data(s.flight)|))
  }

  ghost predicate Next(o: QueueOptions, s: System, t: System) {
    exists e :: Enabled(s, e) && t == Step(o, s, e)
  }

  ghost predicate IsRun(o: QueueOptions, run: seq<System>) {
    && run != []
    && (exists now :: run[0] == Start(now))
    && (forall i :: 0 <= i < |run| - 1 ==> Next(o, run[i], run[i + 1]))
  }

  // ---- What holds in every state ----

  /** The items still on their way or arrived, oldest first: answered, in flight, queued. */
  function Line(s: System): seq<Payload> { Data(s.answered) + Data(s.flight) + Data(s.sender.buffer.items) }

  predicate ByPlace(ps: seq<Payload>) { forall i, j :: 0 <= i < j < |ps| ==> ps[i].id < ps[j].id }

  /** `ps` is a subsequence of `all`, whose items are numbered by their place, with no repeats. */
  predicate InPutOrder(ps: seq<Payload>, all: seq<Payload>) {
    ByPlace(ps) && forall i :: 0 <= i < |ps| ==> ps[i].id < |all| && all[ps[i].id] == ps[i]
  }

  /** Each offered item is exactly once on the line or lost, and the line is in put order. */
  ghost predicate Placed(line: seq<Payload>, lost: seq<Payload>, offered: seq<Payload>) {
    InPutOrder(line, offered) && multiset(line) + multiset(lost) == multiset(offered)
  }

  function TotalSent(beats: seq<Payload>): nat {
    if beats == [] then 0 else TotalSent(beats[..|beats| - 1]) + beats[|beats| - 1].sent
  }

  ghost predicate Safe(o: QueueOptions, s: System) {
    Placed(Line(s), Data(s.lost), s.offered) && Counted(o, s)
  }

  ghost predicate Counted(o: QueueOptions, s: System) {
    && BufferValid(o, s.sender.buffer)
    && s.sender.buffer.dropped + s.uncounted == |s.lost| + s.itemErrors + s.unserialized
    && TotalSent(s.beats) + s.sender.counted == |s.answered|
    && |s.flight| <= MAX_BATCH_ITEMS
    && (s.stage == Idle ==> s.flight == [])
  }

  lemma {:induction false} DataConcat(a: seq<Payload>, b: seq<Payload>)
    ensures Data(a + b) == Data(a) + Data(b)
  {
    if a == [] {
      assert a + b == b;
    } else {
      var head := if IsHeartbeat(a[0]) then [] else [a[0]];
      calc {
        Data(a + b);
        { assert (a + b)[0] == a[0] && (a + b)[1..] == a[1..] + b; }
        head + Data(a[1..] + b);
        { DataConcat(a[1..], b); }
        head + (Data(a[1..]) + Data(b));
        { SeqAssoc(head, Data(a[1..]), Data(b)); }
        Data(a) + Data(b);
      }
    }
  }

  lemma DataOfOne(p: Payload)
    ensures Data([p]) == if IsHeartbeat(p) then [] else [p]
  {
  }

  /** A stretch of the line may be lost. */
  lemma StretchLost(a: seq<Payload>, b: seq<Payload>, c: seq<Payload>, lost: seq<Payload>, offered: seq<Payload>)
    requires Placed(a + b + c, lost, offered)
    ensures Placed(a + c, lost + b, offered)
  {
    var whole := a + b + c;
    forall i | 0 <= i < |a + c|
      ensures (a + c)[i] == whole[if i < |a| then i else i + |b|]
    {
    }
  }

  lemma OneOffered(line: seq<Payload>, lost: seq<Payload>, offered: seq<Payload>, p: Payload)
    requires Placed(line, lost, offered) && p.id == |offered|
    ensures Placed(line + [p], lost, offered + [p]) && Placed(line, lost + [p], offered + [p])
  {
  }

  lemma {:induction false} ReportCounts(o: QueueOptions, b: Buffer, batch: seq<Payload>, errors: seq<ItemError>)
    requires BufferValid(o, b)
    ensures ReportStep(b, batch, errors).dropped == b.dropped + CountedErrors(batch, errors)
  {
    if errors != [] {
      var init := errors[..|errors| - 1];
      ReportCounts(o, b, batch, init);
      ReportKeepsBuffer(o, b, batch, init);
      DropKeepsCounts(ReportStep(b, batch, init), 1, errors[|errors| - 1].code);
    }
  }

  // Where each step leaves the items; `Safe` then follows from the two lemmas above.

  lemma PutMoves(o: QueueOptions, s: System, p: Payload, now: real)
    requires Enabled(s, Put(p, now))
    ensures var t := Step(o, s, Put(p, now));
            if HasRoom(o, s.sender.buffer)
            then Line(t) == Line(s) + [p] && t.lost == s.lost
            else Line(t) == Line(s) && Data(t.lost) == Data(s.lost) + [p]
  {
    DataOfOne(p);
    DataConcat(s.sender.buffer.items, [p]);
    DataConcat(s.lost, [p]);
    SeqAssoc(Data(s.answered) + Data(s.flight), Data(s.sender.buffer.items), [p]);
  }

  lemma PutIsSafe(o: QueueOptions, s: System, p: Payload, now: real)
    requires Safe(o, s) && Enabled(s, Put(p, now))
    ensures Safe(o, Step(o, s, Put(p, now)))
  {
    PutKeepsBuffer(o, s.sender.buffer, p, now);
    DropKeepsCounts(s.sender.buffer, 1, QUEUE_FULL);
    PutMoves(o, s, p, now);
    OneOffered(Line(s), Data(s.lost), s.offered, p);
  }

  lemma TakeMoves(o: QueueOptions, s: System, now: real)
    requires Enabled(s, Take(now)) && s.flight == []
    ensures Line(Step(o, s, Take(now))) == Line(s)
  {
    var n := TakeCount(s.sender.buffer, MAX_BATCH_ITEMS);
    var taken, rest := s.sender.buffer.items[..n], s.sender.buffer.items[n..];
    assert taken + rest == s.sender.buffer.items;
    DataConcat(taken, rest);
    SeqAssoc(Data(s.answered), Data(taken), Data(rest));
    assert Data(s.answered) + [] == Data(s.answered);
  }

  lemma TakeIsSafe(o: QueueOptions, s: System, now: real)
    requires Safe(o, s) && Enabled(s, Take(now))
    ensures Safe(o, Step(o, s, Take(now)))
  {
    TakeKeepsBuffer(o, s.sender.buffer, MAX_BATCH_ITEMS, now);
    TakeMoves(o, s, now);
  }

  lemma BeatMoves(o: QueueOptions, s: System, now: real)
    requires Enabled(s, Beat(now)) && |s.flight| <= MAX_BATCH_ITEMS && CountsAddUp(s.sender.buffer)
    ensures var t := Step(o, s, Beat(now));
            && Line(t) == Line(s) && Data(t.lost) == Data(s.lost) && |t.flight| <= MAX_BATCH_ITEMS
            && t.sender.buffer.dropped - s.sender.buffer.dropped == |t.lost| - |s.lost|
            && TotalSent(t.beats) + t.sender.counted == TotalSent(s.beats) + s.sender.counted
  {
    var t := Step(o, s, Beat(now));
    if BeatDue(o, s.sender, now) {
      var beat := HeartbeatItem(s.sender.counted);
      DataOfOne(beat);
      assert t.beats[..|s.beats|] == s.beats;
      if |s.flight| < MAX_BATCH_ITEMS {
        DataConcat(s.flight, [beat]);
        assert Data(s.flight) + [] == Data(s.flight);
      } else {
        BeatRequeued(o, s.sender.buffer, beat, now);
        DataConcat(s.lost, [beat]);
        assert s.lost + [] == s.lost && Data(s.lost) + [] == Data(s.lost);
      }
    }
  }

  /** A heartbeat put back in front changes no item's place, and is counted when it does not fit. */
  lemma BeatRequeued(o: QueueOptions, b: Buffer, beat: Payload, now: real)
    requires IsHeartbeat(beat) && CountsAddUp(b)
    ensures Data(RequeueStep(o, b, [beat], now).items) == Data(b.items)
    ensures RequeueStep(o, b, [beat], now).dropped == b.dropped + |[beat][Fits(o, b, [beat])..]|
    ensures [beat][Fits(o, b, [beat])..] == [] || [beat][Fits(o, b, [beat])..] == [beat]
  {
    var n := Fits(o, b, [beat]);
    DropKeepsCounts(b, 1 - n, QUEUE_FULL);
    DataOfOne(beat);
    DataConcat([beat], b.items);
    assert [] + b.items == b.items;
    assert [beat][..n] == [] || [beat][..n] == [beat];
  }

  lemma BeatIsSafe(o: QueueOptions, s: System, now: real)
    requires Safe(o, s) && Enabled(s, Beat(now))
    ensures Safe(o, Step(o, s, Beat(now)))
  {
    BeatKeepsBuffer(o, s.sender, s.flight, now);
    BeatMoves(o, s, now);
  }

  lemma AnswerMoves(o: QueueOptions, s: System, errors: seq<ItemError>, now: real)
    requires Enabled(s, Settle(Answered(errors), now)) && BufferValid(o, s.sender.buffer)
    ensures Line(Step(o, s, Settle(Answered(errors), now))) == Line(s)
  {
    ReportKeepsBuffer(o, s.sender.buffer, s.flight, errors);
    DataConcat(s.answered, s.flight);
    var arrived := Data(s.answered) + Data(s.flight);
    assert arrived + [] == arrived;
  }

  lemma AnswerIsSafe(o: QueueOptions, s: System, errors: seq<ItemError>, now: real)
    requires Safe(o, s) && Enabled(s, Settle(Answered(errors), now))
    ensures Safe(o, Step(o, s, Settle(Answered(errors), now)))
  {
    ReportKeepsBuffer(o, s.sender.buffer, s.flight, errors);
    ReportCounts(o, s.sender.buffer, s.flight, errors);
    AnswerMoves(o, s, errors, now);
  }

  lemma FailMoves(o: QueueOptions, s: System, now: real)
    requires Enabled(s, Settle(Failed, now))
    ensures var t := Step(o, s, Settle(Failed, now));
            var n := Fits(o, s.sender.buffer, s.flight);
            var head, gone, tail :=
              Data(s.answered) + Data(s.flight[..n]), Data(s.flight[n..]), Data(s.sender.buffer.items);
            && Line(s) == head + gone + tail && Line(t) == head + tail
            && Data(t.lost) == Data(s.lost) + gone
  {
    var b := s.sender.buffer;
    var n := Fits(o, b, s.flight);
    var keep, gone := s.flight[..n], s.flight[n..];
    assert keep + gone == s.flight;
    DataConcat(keep, gone);
    DataConcat(keep, b.items);
    DataConcat(s.lost, gone);
    SeqAssoc(Data(s.answered), Data(keep), Data(gone));
    SeqAssoc(Data(s.answered), Data(keep), Data(b.items));
    assert Data(s.answered) + [] == Data(s.answered);
  }

  lemma FailIsCounted(o: QueueOptions, s: System, now: real)
    requires Counted(o, s) && Enabled(s, Settle(Failed, now))
    ensures Counted(o, Step(o, s, Settle(Failed, now)))
  {
    var n := Fits(o, s.sender.buffer, s.flight);
    RequeueKeepsBuffer(o, s.sender.buffer, s.flight, now);
    DropKeepsCounts(s.sender.buffer, |s.flight| - n, QUEUE_FULL);
  }

  lemma FailKeepsPlaces(o: QueueOptions, s: System, now: real)
    requires Placed(Line(s), Data(s.lost), s.offered) && Enabled(s, Settle(Failed, now))
    ensures var t := Step(o, s, Settle(Failed, now)); Placed(Line(t), Data(t.lost), t.offered)
  {
    var n := Fits(o, s.sender.buffer, s.flight);
    FailMoves(o, s, now);
    StretchLost(Data(s.answered) + Data(s.flight[..n]), Data(s.flight[n..]), Data(s.sender.buffer.items),
                Data(s.lost), s.offered);
  }

  lemma FailIsSafe(o: QueueOptions, s: System, now: real)
    requires Safe(o, s) && Enabled(s, Settle(Failed, now))
    ensures Safe(o, Step(o, s, Settle(Failed, now)))
  {
    FailIsCounted(o, s, now);
    FailKeepsPlaces(o, s, now);
  }

  lemma RefuseMoves(o: QueueOptions, s: System, code: string, now: real)
    requires Enabled(s, Settle(Refused(code), now))
    ensures var t := Step(o, s, Settle(Refused(code), now));
            && Line(t) == Data(s.answered) + Data(s.sender.buffer.items)
            && Data(t.lost) == Data(s.lost) + Data(s.flight)
  {
    DataConcat(s.lost, s.flight);
    assert Data(s.answered) + [] == Data(s.answered);
  }

  lemma RefuseKeepsPlaces(o: QueueOptions, s: System, t: System)
    requires Placed(Line(s), Data(s.lost), s.offered)
    requires Line(t) == Data(s.answered) + Data(s.sender.buffer.items)
    requires Data(t.lost) == Data(s.lost) + Data(s.flight) && t.offered == s.offered
    ensures Placed(Line(t), Data(t.lost), t.offered)
  {
    StretchLost(Data(s.answered), Data(s.flight), Data(s.sender.buffer.items), Data(s.lost), s.offered);
  }

  lemma RefuseIsCounted(o: QueueOptions, s: System, code: string, now: real)
    requires Counted(o, s) && Enabled(s, Settle(Refused(code), now))
    ensures Counted(o, Step(o, s, Settle(Refused(code), now)))
  {
    DropKeepsCounts(s.sender.buffer, |Data(s.flight)|, code);
  }

  lemma RefuseIsSafe(o: QueueOptions, s: System, code: string, now: real)
    requires Safe(o, s) && Enabled(s, Settle(Refused(code), now))
    ensures Safe(o, Step(o, s, Settle(Refused(code), now)))
  {
    RefuseIsCounted(o, s, code, now);
    RefuseMoves(o, s, code, now);
    RefuseKeepsPlaces(o, s, Step(o, s, Settle(Refused(code), now)));
  }

  lemma StepIsSafe(o: QueueOptions, s: System, e: Event)
    requires Safe(o, s) && Enabled(s, e)
    ensures Safe(o, Step(o, s, e))
  {
    match e
    case Put(p, now) => PutIsSafe(o, s, p, now);
    case Unserializable => DropKeepsCounts(s.sender.buffer, 1, UNSERIALIZABLE);
    case Take(now) => TakeIsSafe(o, s, now);
    case Beat(now) => BeatIsSafe(o, s, now);
    case Release =>
    case Settle(Answered(errors), now) => AnswerIsSafe(o, s, errors, now);
    case Settle(Failed, now) => FailIsSafe(o, s, now);
    case Settle(Refused(code), now) => RefuseIsSafe(o, s, code, now);
  }

  /** In every state of every run: what was answered, is in flight or waits is in put order with no repeats;
    * each item put is in exactly one of answered, in flight, queued or lost; the queue is within capacity,
    * its counts add up and its marks are exact; and every answered item is in exactly one heartbeat count. */
  lemma {:induction false} RunsAreSafe(o: QueueOptions, run: seq<System>, i: nat)
    requires IsRun(o, run) && i < |run|
    ensures Safe(o, run[i])
  {
    if i == 0 {
      assert EMPTY_BUFFER.items == [] && !HasTurn([]);
    } else {
      RunsAreSafe(o, run, i - 1);
      assert Next(o, run[i - 1], run[i - 1 + 1]);
      var e :| Enabled(run[i - 1], e) && run[i] == Step(o, run[i - 1], e);
      StepIsSafe(o, run[i - 1], e);
    }
  }

  // ---- What one state alone does not say ----

  /** `SyncFlusher.SendOne` is the run's three steps in a row with nothing in between. */
  lemma SendIsThreeSteps(o: QueueOptions, s: System, outcome: Outcome, now: real)
    requires s.stage == Idle
    ensures var ready := Step(o, Step(o, s, Take(now)), Beat(now));
            AfterSend(o, s.sender, outcome, now) ==
            if ready.flight == [] then ready.sender else Step(o, ready, Settle(outcome, now)).sender
  {
    var ready := Step(o, Step(o, s, Take(now)), Beat(now));
    assert ready.flight == WithBeat(o, AfterTake(s.sender, now), TakeBatch(s.sender), now);
  }

  /** What was answered is never taken back, and nothing lost comes back. */
  lemma {:induction false} HistoryOnlyGrows(o: QueueOptions, run: seq<System>, i: nat, j: nat)
    requires IsRun(o, run) && i <= j < |run|
    ensures run[i].answered <= run[j].answered && run[i].lost <= run[j].lost
    ensures run[i].offered <= run[j].offered
  {
    if i < j {
      HistoryOnlyGrows(o, run, i, j - 1);
      assert Next(o, run[j - 1], run[j - 1 + 1]);
    }
  }

  /** Answered in order, whatever failures came in between: an item put earlier is never answered after one
    * put later. */
  lemma NothingOvertakes(o: QueueOptions, run: seq<System>, i: nat, first: nat, second: nat)
    requires IsRun(o, run) && i < |run|
    requires first < second < |Data(run[i].answered)|
    ensures Data(run[i].answered)[first].id < Data(run[i].answered)[second].id
  {
    RunsAreSafe(o, run, i);
    assert Line(run[i])[first].id < Line(run[i])[second].id;
  }

  // ---- What is lost, and when ----

  predicate Refuses(e: Event) { e.Settle? && e.outcome.Refused? }

  /** A step loses something exactly when a put or a heartbeat finds the queue full, a failed batch does not fit in
    * front of what waits, or a batch is refused; but for a refusal, the queue is full then. */
  lemma LosesExactly(o: QueueOptions, s: System, e: Event)
    requires Counted(o, s) && Enabled(s, e)
    ensures var t, waiting := Step(o, s, e), |s.sender.buffer.items|;
            && (t.lost != s.lost <==>
                  || (e.Put? && waiting >= o.capacity)
                  || (e.Beat? && e.now - s.sender.windowStart >= o.heartbeatInterval && s.sender.counted > 0
                      && |s.flight| == 500 && waiting >= o.capacity)
                  || (e.Settle? && e.outcome.Failed? && waiting + |s.flight| > o.capacity)
                  || Refuses(e))
            && (t.lost != s.lost && !Refuses(e) ==> |t.sender.buffer.items| >= o.capacity)
  {
  }

  /** A take takes everything, or the oldest 500; a heartbeat that is due leaves with the batch if that has room. */
  lemma BatchIsFull(o: QueueOptions, s: System, now: real)
    requires Enabled(s, Take(now))
    ensures var t := Step(o, s, Take(now));
            && s.sender.buffer.items == t.flight + t.sender.buffer.items
            && (|s.sender.buffer.items| <= 500 ==> t.sender.buffer.items == [])
            && (|s.sender.buffer.items| > 500 ==> |t.flight| == 500)
  {
  }

  lemma BeatLeavesWithTheBatch(o: QueueOptions, s: System, now: real)
    requires Enabled(s, Beat(now))
    ensures var t := Step(o, s, Beat(now));
            var due := now - s.sender.windowStart >= o.heartbeatInterval && s.sender.counted > 0;
            && (due && |s.flight| < 500 ==>
                  t.flight == s.flight + [Payload(0, "heartbeat", "", "", s.sender.counted)]
                  && t.sender.buffer == s.sender.buffer)
            && (due && |s.flight| >= 500 && |s.sender.buffer.items| < o.capacity ==>
                  t.flight == s.flight
                  && t.sender.buffer.items ==
                     [Payload(0, "heartbeat", "", "", s.sender.counted)] + s.sender.buffer.items)
            && (due ==> t.sender.counted == 0 && t.sender.windowStart == now)
            && (!due ==> t.flight == s.flight && t.sender == s.sender)
  {
  }

  // ---- Under which reason ----

  function DataAt(batch: seq<Payload>): set<nat> {
    set i: nat | i < |batch| && batch[i].itemType != "heartbeat"
  }

  /** The item errors of a 207 under `code`, but those about a heartbeat. */
  function ErrorsUnder(batch: seq<Payload>, errors: seq<ItemError>, code: string): set<nat> {
    set i: nat | i < |errors| && errors[i].code == code
                 && !(0 <= errors[i].index < |batch| && batch[errors[i].index].itemType == "heartbeat")
  }

  lemma {:induction false} DataSize(batch: seq<Payload>)
    ensures |Data(batch)| == |DataAt(batch)|
  {
    if batch == [] {
      assert DataAt(batch) == {};
    } else {
      var n := |batch| - 1;
      var init, last := batch[..n], batch[n];
      DataSize(init);
      DataConcat(init, [last]);
      assert batch == init + [last];
      assert Data([last]) == if IsHeartbeat(last) then [] else [last];
      assert DataAt(batch) == DataAt(init) + (if last.itemType != "heartbeat" then {n} else {});
    }
  }

  lemma ErrorsUnderOne(batch: seq<Payload>, errors: seq<ItemError>, code: string)
    requires errors != []
    ensures var n := |errors| - 1;
            var about := 0 <= errors[n].index < |batch| && batch[errors[n].index].itemType == "heartbeat";
            ErrorsUnder(batch, errors, code) ==
            ErrorsUnder(batch, errors[..n], code) + (if errors[n].code == code && !about then {n} else {})
  {
  }

  lemma {:induction false} ReportCountsUnder(b: Buffer, batch: seq<Payload>, errors: seq<ItemError>, reason: string)
    ensures CountUnder(ReportStep(b, batch, errors), reason) ==
            CountUnder(b, reason) + |ErrorsUnder(batch, errors, reason)|
  {
    if errors == [] {
      assert ErrorsUnder(batch, errors, reason) == {};
    } else {
      var n := |errors| - 1;
      var init, last := errors[..n], errors[n];
      ReportCountsUnder(b, batch, init, reason);
      ErrorsUnderOne(batch, errors, reason);
    }
  }

  /** How many drops a step adds under each reason. */
  lemma DropsUnderTheirReason(o: QueueOptions, s: System, e: Event, reason: string)
    requires Enabled(s, e)
    ensures var t := Step(o, s, e);
            CountUnder(t.sender.buffer, reason) - CountUnder(s.sender.buffer, reason) ==
            match e
            case Unserializable => if reason == "unserializable" then 1 else 0
            case Settle(Answered(errors), _) => |ErrorsUnder(s.flight, errors, reason)|
            case Settle(Refused(code), _) => if reason == code then |DataAt(s.flight)| else 0
            case _ => if reason == "queue_full" then |t.lost| - |s.lost| else 0
  {
    match e
    case Settle(Answered(errors), _) => ReportCountsUnder(s.sender.buffer, s.flight, errors, reason);
    case Settle(Refused(_), _) => DataSize(s.flight);
    case Settle(Failed, now) => RequeueKeepsAllThatFits(o, s.sender.buffer, s.flight, now);
    case _ =>
  }

  // ---- The pause ----

  lemma {:induction false} PauseCountsFailures(o: QueueOptions, run: seq<System>, i: nat)
    requires IsRun(o, run) && i < |run|
    ensures run[i].sender.pause == PauseAfter(o.interval, run[i].failures)
  {
    if i > 0 {
      PauseCountsFailures(o, run, i - 1);
      assert Next(o, run[i - 1], run[i - 1 + 1]);
      var e :| Enabled(run[i - 1], e) && run[i] == Step(o, run[i - 1], e);
      PauseStep(o, run[i - 1], e);
    }
  }

  lemma PauseStep(o: QueueOptions, s: System, e: Event)
    requires Enabled(s, e) && s.sender.pause == PauseAfter(o.interval, s.failures)
    ensures Step(o, s, e).sender.pause == PauseAfter(o.interval, Step(o, s, e).failures)
  {
  }

  /** In every run the pause is none after an answer, and after `n` failures in a row the interval doubled `n - 1`
    * times, 30 seconds at most. */
  lemma PauseInRuns(o: QueueOptions, run: seq<System>, i: nat)
    requires IsRun(o, run) && i < |run| && o.interval >= 0.0
    ensures var n := run[i].failures;
            run[i].sender.pause == if n == 0 then 0.0 else Min(30.0, Doubled(o.interval, n - 1))
  {
    PauseCountsFailures(o, run, i);
    if run[i].failures > 0 {
      PauseDoubles(o.interval, run[i].failures - 1);
    }
  }

  /** Only a failed send pauses, from the moment it failed; only an answered one ends the pause. */
  lemma PauseEndsWithAnAnswer(o: QueueOptions, s: System, e: Event)
    requires Enabled(s, e)
    ensures var t := Step(o, s, e);
            match e
            case Settle(Answered(_), _) => t.sender.pause == 0.0 && t.sender.resumeAt == 0.0
            case Settle(Failed, now) => t.sender.resumeAt == now + t.sender.pause
            case _ => t.sender.pause == s.sender.pause && t.sender.resumeAt == s.sender.resumeAt
  {
  }
}

/** The handshake between a put and the sleeping background sender (`SyncFlusher.notify` and `_run` in
  * `src/niadra/_queue.py`), with every clock reading and lock acquisition as its own step. */
module Wakeup {
  import opened Basics
  import opened EventQueue
  import Flusher

  /** Where the sender is. It holds `_wake` in `Paused` and `Hinted`, so no notify gets in; each later
    * reading of the clock may be later than the one before. */
  datatype Sender =
    | Awake
    | Paused(pause: real, began: real)
    | Hinted(pause: real, began: real, due: Option<real>, hint: real)
    | Asleep(until: real, since: real, lag: real)

  /** A put that appended its item and has yet to notify; then one that has read the due time. */
  datatype Putter = Appended | Looked(due: real)

  datatype State = State(
    buffer: Buffer, resumeAt: real, now: real, sender: Sender, putters: map<nat, Putter>)

  datatype Event =
    | Tick(now: real)
    | Append(id: nat, p: Payload)
    | Look(id: nat)
    | Ring(id: nat)
    | ReadPause
    | ReadHint
    | FallAsleep
    | TimeOut
    | Work(buffer: Buffer, resumeAt: real)

  const SPIN_GUARD := 0.01

  /** Delays are not negative. */
  predicate Sane(o: QueueOptions) { o.interval >= 0.0 && o.turnInterval >= 0.0 }

  /** The marks are exact, the oldest item arrived no later than the oldest turn, and both in the past. */
  predicate Timed(b: Buffer, now: real) {
    && MarksExact(b)
    && (b.firstAt.Some? ==> b.firstAt.value <= now)
    && (b.firstTurnAt.Some? && b.firstAt.Some? ==> b.firstAt.value <= b.firstTurnAt.value <= now)
  }

  predicate Enabled(s: State, e: Event) {
    match e
    case Tick(now) => now >= s.now
    case Append(id, _) => id !in s.putters
    case Look(id) => id in s.putters && s.putters[id].Appended?
    case Ring(id) => id in s.putters && s.putters[id].Looked? && (s.sender.Awake? || s.sender.Asleep?)
    case ReadPause => s.sender.Awake?
    case ReadHint => s.sender.Paused?
    case FallAsleep => s.sender.Hinted?
    case TimeOut => s.sender.Asleep?
    case Work(b, _) => s.sender.Awake? && Timed(b, s.now)
  }

  /** `_sleep_for`: zero only with neither a pause nor a wait left, so that no sleep is a shade above it. */
  function SleepFor(pause: real, hint: real): real {
    if pause == 0.0 && hint == 0.0 then 0.0 else Max(Max(pause, hint), SPIN_GUARD)
  }

  function Step(o: QueueOptions, s: State, e: Event): State
    requires Enabled(s, e)
  {
    match e
    case Tick(now) => s.(now := now)
    case Append(id, p) => s.(buffer := PutStep(o, s.buffer, p, s.now), putters := s.putters[id := Appended])
    case Look(id) =>
      (match NextDue(o, s.buffer)
       case None => s.(putters := s.putters - {id})
       case Some(at) => s.(putters := s.putters[id := Looked(at)]))
    case Ring(id) =>
      var wakes := s.sender.Asleep? && s.putters[id].due < s.sender.until;
      s.(putters := s.putters - {id}, sender := if wakes then Awake else s.sender)
    case ReadPause => s.(sender := Paused(Max(0.0, s.resumeAt - s.now), s.now))
    case ReadHint =>
      s.(sender := Hinted(s.sender.pause, s.sender.began, NextDue(o, s.buffer), WaitHint(o, s.buffer, s.now)))
    case FallAsleep =>
      var wait := SleepFor(s.sender.pause, s.sender.hint);
      s.(sender := if wait > 0.0 then Asleep(s.now + wait, s.now, s.now - s.sender.began) else Awake)
    case TimeOut => s.(sender := Awake)
    case Work(b, resumeAt) => s.(buffer := b, resumeAt := resumeAt)
  }

  ghost predicate IsRun(o: QueueOptions, run: seq<State>) {
    && run != []
    && run[0].sender == Awake && run[0].putters == map[] && Timed(run[0].buffer, run[0].now)
    && (forall i :: 0 <= i < |run| - 1 ==> Next(o, run[i], run[i + 1]))
  }

  ghost predicate Next(o: QueueOptions, s: State, t: State) {
    exists e :: Enabled(s, e) && t == Step(o, s, e)
  }

  // ---- The invariant ----

  /** A put still on its way to `notify` will see a due time no later than `due`. */
  ghost predicate Covered(putters: map<nat, Putter>, due: real) {
    exists id :: id in putters && (putters[id].Appended? || putters[id].due <= due)
  }

  predicate NoLater(a: Option<real>, b: Option<real>) { b.None? || (a.Some? && a.value <= b.value) }

  function LatestWake(s: State, due: real): real
    requires s.sender.Asleep?
  {
    Max(due, Max(s.resumeAt, s.sender.since + SPIN_GUARD)) + s.sender.lag
  }

  ghost predicate Tracked(o: QueueOptions, s: State) {
    var due := NextDue(o, s.buffer);
    && Timed(s.buffer, s.now)
    && match s.sender
       case Awake => true
       case Paused(pause, began) => began <= s.now && pause == Max(0.0, s.resumeAt - began)
       case Hinted(pause, began, seen, hint) =>
         && began <= s.now && pause == Max(0.0, s.resumeAt - began)
         && NoLater(due, seen)
         && (seen.Some? ==> hint <= Max(0.0, seen.value - began))
         && (due.Some? && due != seen ==> Covered(s.putters, due.value))
       case Asleep(until, since, lag) =>
         && lag >= 0.0
         && (due.Some? ==> until <= LatestWake(s, due.value) || Covered(s.putters, due.value))
  }

  /** A put never makes what waits leave later. */
  lemma PutNeverDelays(o: QueueOptions, b: Buffer, p: Payload, now: real)
    requires Sane(o) && Timed(b, now)
    ensures NoLater(NextDue(o, PutStep(o, b, p, now)), NextDue(o, b))
    ensures Timed(PutStep(o, b, p, now), now)
  {
    HasTurnConcat(b.items, [p]);
    assert HasTurn([p]) <==> IsTurn(p) by { assert p in [p]; }
  }

  predicate Due(o: QueueOptions, b: Buffer, now: real) { NextDue(o, b).Some? && now >= NextDue(o, b).value }

  /** Something is due exactly when one of three moments has come: the oldest item an interval ago, the oldest turn
    * a turn interval ago, or a full batch. */
  lemma DueExactly(o: QueueOptions, b: Buffer, now: real)
    requires Sane(o) && Timed(b, now)
    ensures Due(o, b, now) <==>
              && b.items != []
              && (|| now >= b.firstAt.value + o.interval
                  || (HasTurn(b.items) && now >= b.firstTurnAt.value + o.turnInterval)
                  || |b.items| >= o.batchSize)
  {
  }

  /** What is due stays due, whatever is put and however late it is looked at. */
  lemma DueStaysDue(o: QueueOptions, b: Buffer, p: Payload, now: real, later: real)
    requires Sane(o) && Timed(b, now) && now <= later && Due(o, b, now)
    ensures Due(o, PutStep(o, b, p, now), later)
  {
    PutNeverDelays(o, b, p, now);
  }

  /** The sender's own work keeps the marks timed, whatever it takes or puts back. */
  lemma TakeKeepsTimed(b: Buffer, limit: nat, now: real)
    requires Timed(b, now)
    ensures Timed(TakeStep(b, limit, now), now)
  {
  }

  lemma RequeueKeepsTimed(o: QueueOptions, b: Buffer, batch: seq<Payload>, now: real)
    requires Timed(b, now)
    ensures Timed(RequeueStep(o, b, batch, now), now)
  {
    var keep := batch[..Fits(o, b, batch)];
    HasTurnConcat(keep, b.items);
    if b.items == [] {
      assert keep + b.items == keep;
    }
  }

  /** Each step of the sender on the buffer is such work: taking a batch, the heartbeat, and any outcome. */
  lemma SenderWorks(o: QueueOptions, s: State, sender: Flusher.Sender, batch: seq<Payload>, outcome: Flusher.Outcome)
    requires s.sender.Awake? && Timed(s.buffer, s.now) && sender.buffer == s.buffer
    ensures IsWork(s, Flusher.AfterTake(sender, s.now))
    ensures IsWork(s, Flusher.AfterBeat(o, sender, batch, s.now))
    ensures IsWork(s, Flusher.AfterOutcome(o, sender, batch, outcome, s.now))
  {
    TakeKeepsTimed(s.buffer, MAX_BATCH_ITEMS, s.now);
    BeatKeepsTimed(o, sender, batch, s.now);
    OutcomeKeepsTimed(o, sender, batch, outcome, s.now);
  }

  predicate IsWork(s: State, after: Flusher.Sender) { Enabled(s, Work(after.buffer, after.resumeAt)) }

  lemma BeatKeepsTimed(o: QueueOptions, sender: Flusher.Sender, batch: seq<Payload>, now: real)
    requires Timed(sender.buffer, now)
    ensures Timed(Flusher.AfterBeat(o, sender, batch, now).buffer, now)
  {
    RequeueKeepsTimed(o, sender.buffer, [Flusher.HeartbeatItem(sender.counted)], now);
  }

  lemma OutcomeKeepsTimed(o: QueueOptions, sender: Flusher.Sender, batch: seq<Payload>, outcome: Flusher.Outcome,
                          now: real)
    requires Timed(sender.buffer, now)
    ensures Timed(Flusher.AfterOutcome(o, sender, batch, outcome, now).buffer, now)
  {
    match outcome
    case Answered(errors) =>
      Flusher.ReportKeepsItems(sender.buffer, batch, errors);
      SameMarksStayTimed(sender.buffer, Flusher.ReportStep(sender.buffer, batch, errors), now);
    case Failed => RequeueKeepsTimed(o, sender.buffer, batch, now);
    case Refused(code) =>
      SameMarksStayTimed(sender.buffer, DropStep(sender.buffer, |Flusher.Data(batch)|, code), now);
  }

  lemma SameMarksStayTimed(b: Buffer, after: Buffer, now: real)
    requires Timed(b, now)
    requires after.items == b.items && after.firstAt == b.firstAt && after.firstTurnAt == b.firstTurnAt
    ensures Timed(after, now)
  {
  }

  lemma AppendIsTracked(o: QueueOptions, s: State, id: nat, p: Payload)
    requires Sane(o) && Tracked(o, s) && Enabled(s, Append(id, p))
    ensures Tracked(o, Step(o, s, Append(id, p)))
  {
    PutNeverDelays(o, s.buffer, p, s.now);
    var t := Step(o, s, Append(id, p));
    if NextDue(o, t.buffer).Some? {
      assert Covered(t.putters, NextDue(o, t.buffer).value) by { assert t.putters[id] == Appended; }
    }
  }

  lemma LookIsTracked(o: QueueOptions, s: State, id: nat)
    requires Tracked(o, s) && Enabled(s, Look(id))
    ensures Tracked(o, Step(o, s, Look(id)))
  {
    var t := Step(o, s, Look(id));
    if NextDue(o, s.buffer).Some? {
      assert Covered(t.putters, NextDue(o, s.buffer).value) by { assert t.putters[id].Looked?; }
    }
  }

  lemma RingIsTracked(o: QueueOptions, s: State, id: nat)
    requires Tracked(o, s) && Enabled(s, Ring(id))
    ensures Tracked(o, Step(o, s, Ring(id)))
  {
    var due := NextDue(o, s.buffer);
    var t := Step(o, s, Ring(id));
    if t.sender.Asleep? && due.Some? && Covered(s.putters, due.value) {
      var c :| c in s.putters && (s.putters[c].Appended? || s.putters[c].due <= due.value);
      if c != id {
        assert c in t.putters && t.putters[c] == s.putters[c];
      }
    }
  }

  lemma SenderIsTracked(o: QueueOptions, s: State, e: Event)
    requires Tracked(o, s) && Enabled(s, e)
    requires e.Tick? || e.ReadPause? || e.ReadHint? || e.FallAsleep? || e.TimeOut? || e.Work?
    ensures Tracked(o, Step(o, s, e))
  {
  }

  lemma {:induction false} RunsAreTracked(o: QueueOptions, run: seq<State>, i: nat)
    requires Sane(o) && IsRun(o, run) && i < |run|
    ensures Tracked(o, run[i])
  {
    if i > 0 {
      RunsAreTracked(o, run, i - 1);
      assert Next(o, run[i - 1], run[i - 1 + 1]);
      var e :| Enabled(run[i - 1], e) && run[i] == Step(o, run[i - 1], e);
      match e
      case Append(id, p) => AppendIsTracked(o, run[i - 1], id, p);
      case Look(id) => LookIsTracked(o, run[i - 1], id);
      case Ring(id) => RingIsTracked(o, run[i - 1], id);
      case _ => SenderIsTracked(o, run[i - 1], e);
    }
  }

  /** No wake-up is lost: with no put between its append and its notify, a sleeping sender sleeps no later
    * than the latest of the due time of what waits, the end of the pause and 10 ms after it fell asleep,
    * plus the time its own clock readings were apart. */
  lemma NoLostWakeUp(o: QueueOptions, run: seq<State>, i: nat)
    requires Sane(o) && IsRun(o, run) && i < |run|
    requires run[i].sender.Asleep? && run[i].putters == map[] && NextDue(o, run[i].buffer).Some?
    ensures run[i].sender.until <=
            Max(NextDue(o, run[i].buffer).value, Max(run[i].resumeAt, run[i].sender.since + SPIN_GUARD)) +
            run[i].sender.lag
  {
    RunsAreTracked(o, run, i);
  }

  /** With no time between its readings, the sender sleeps until just then: the latest of the due time, the end of the
    * pause and 10 ms from now; and not at all exactly when something is due and nothing pauses. */
  lemma SleepsUntilThen(o: QueueOptions, s: State)
    requires s.sender.Awake? && NextDue(o, s.buffer).Some?
    ensures var asleep := Step(o, Step(o, Step(o, s, ReadPause), ReadHint), FallAsleep).sender;
            var due := NextDue(o, s.buffer).value;
            if due <= s.now && s.resumeAt <= s.now then asleep == Awake
            else asleep == Asleep(Max(due, Max(s.resumeAt, s.now + 0.01)), s.now, 0.0)
  {
  }

  /** Without that last term the bound fails: a wait worked out from one reading of the clock and begun at a later one
    * ends as much too late. With an item that is no turn due in an interval, the bound is reached for any such delay
    * that leaves 10 ms to sleep. */
  lemma LagIsReached(o: QueueOptions, p: Payload, delay: real)
    requires Sane(o) && o.batchSize > 1 && !IsTurn(p) && 0.0 <= delay && delay + SPIN_GUARD <= o.interval
    ensures exists run :: IsRun(o, run) && LateBy(o, run[|run| - 1], delay)
  {
    var b := Buffer([p], Some(0.0), None, 0, map[]);
    var due := Some(o.interval);
    var s0 := State(b, 0.0, 0.0, Awake, map[]);
    var s1 := s0.(sender := Paused(0.0, 0.0));
    var s2 := s0.(sender := Hinted(0.0, 0.0, due, o.interval));
    var s3 := s2.(now := delay);
    var s4 := s3.(sender := Asleep(delay + o.interval, delay, delay));
    OneItem(o, p);
    assert Enabled(s0, ReadPause) && s1 == Step(o, s0, ReadPause);
    assert Enabled(s1, ReadHint) && s2 == Step(o, s1, ReadHint);
    assert Enabled(s2, Tick(delay)) && s3 == Step(o, s2, Tick(delay));
    assert Enabled(s3, FallAsleep) && s4 == Step(o, s3, FallAsleep);
    var run := [s0, s1, s2, s3, s4];
    assert IsRun(o, run);
    assert LateBy(o, run[|run| - 1], delay);
  }

  /** Asleep, with no put on its way, `delay` past the moment the readings alone would give. */
  predicate LateBy(o: QueueOptions, s: State, delay: real) {
    && s.sender.Asleep? && s.putters == map[] && NextDue(o, s.buffer).Some?
    && s.sender.until ==
       Max(NextDue(o, s.buffer).value, Max(s.resumeAt, s.sender.since + SPIN_GUARD)) + delay
  }

  lemma OneItem(o: QueueOptions, p: Payload)
    requires Sane(o) && o.batchSize > 1 && !IsTurn(p)
    ensures var b := Buffer([p], Some(0.0), None, 0, map[]);
            Timed(b, 0.0) && NextDue(o, b) == Some(o.interval) && WaitHint(o, b, 0.0) == o.interval
  {
  }
}

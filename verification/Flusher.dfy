/** The senders of the queue: the heartbeat that counts what was handed over, the pause that doubles
  * while the API stays down, and one batch at a time (`src/niadra/_queue.py`, from `Heartbeat` on). */
module Flusher {
  import opened Basics
  import opened EventQueue

  /** An item a 207 answer refused. */
  datatype ItemError = ItemError(index: int, code: string)

  /** What became of a batch: answered, failed in a way that may pass (or unexpectedly), or refused. */
  datatype Outcome = Answered(errors: seq<ItemError>) | Failed | Refused(code: string)

  /** Everything one sender changes. */
  datatype Sender = Sender(buffer: Buffer, windowStart: real, counted: nat, pause: real, resumeAt: real)

  function HeartbeatItem(sent: nat): Payload { Payload(0, "heartbeat", "", "", sent) }

  predicate BeatDue(o: QueueOptions, s: Sender, now: real) {
    !(now - s.windowStart < o.heartbeatInterval || s.counted == 0)
  }

  function TakeBatch(s: Sender): seq<Payload> { s.buffer.items[..TakeCount(s.buffer, MAX_BATCH_ITEMS)] }

  function AfterTake(s: Sender, now: real): Sender {
    s.(buffer := TakeStep(s.buffer, MAX_BATCH_ITEMS, now))
  }

  /** The batch that leaves: what was taken, with the heartbeat when there is room for it. */
  function WithBeat(o: QueueOptions, s: Sender, batch: seq<Payload>, now: real): seq<Payload> {
    if BeatDue(o, s, now) && |batch| < MAX_BATCH_ITEMS then batch + [HeartbeatItem(s.counted)] else batch
  }

  function AfterBeat(o: QueueOptions, s: Sender, batch: seq<Payload>, now: real): Sender {
    if !BeatDue(o, s, now) then s
    else
      s.(windowStart := now, counted := 0,
         buffer := if |batch| < MAX_BATCH_ITEMS then s.buffer
                   else RequeueStep(o, s.buffer, [HeartbeatItem(s.counted)], now))
  }

  function Data(batch: seq<Payload>): (r: seq<Payload>)
    ensures |r| <= |batch|
  {
    if batch == [] then []
    else (if IsHeartbeat(batch[0]) then [] else [batch[0]]) + Data(batch[1..])
  }

  predicate CountsAsDropped(batch: seq<Payload>, e: ItemError) {
    !(0 <= e.index < |batch| && IsHeartbeat(batch[e.index]))
  }

  /** Each item error of a 207 is counted under its own code, except one about a heartbeat. */
  function ReportStep(b: Buffer, batch: seq<Payload>, errors: seq<ItemError>): Buffer {
    if errors == [] then b
    else
      var last := errors[|errors| - 1];
      var before := ReportStep(b, batch, errors[..|errors| - 1]);
      if CountsAsDropped(batch, last) then DropStep(before, 1, last.code) else before
  }

  function NextPause(interval: real, pause: real): real { Min(MAX_PAUSE, Max(interval, pause * 2.0)) }

  function AfterOutcome(o: QueueOptions, s: Sender, batch: seq<Payload>, outcome: Outcome, now: real): Sender {
    match outcome
    case Answered(errors) =>
      s.(pause := 0.0, resumeAt := 0.0, counted := s.counted + |batch|,
         buffer := ReportStep(s.buffer, batch, errors))
    case Failed =>
      var pause := NextPause(o.interval, s.pause);
      s.(pause := pause, resumeAt := now + pause, buffer := RequeueStep(o, s.buffer, batch, now))
    case Refused(code) =>
      s.(buffer := DropStep(s.buffer, |Data(batch)|, code))
  }

  /** One whole send with nothing else running. */
  function AfterSend(o: QueueOptions, s: Sender, outcome: Outcome, now: real): Sender {
    var taken := AfterTake(s, now);
    var batch := WithBeat(o, taken, TakeBatch(s), now);
    var ready := AfterBeat(o, taken, TakeBatch(s), now);
    if batch == [] then ready else AfterOutcome(o, ready, batch, outcome, now)
  }

  lemma ReportKeepsBuffer(o: QueueOptions, b: Buffer, batch: seq<Payload>, errors: seq<ItemError>)
    requires BufferValid(o, b)
    ensures BufferValid(o, ReportStep(b, batch, errors))
    ensures ReportStep(b, batch, errors).items == b.items
  {
    if errors != [] {
      ReportKeepsBuffer(o, b, batch, errors[..|errors| - 1]);
      DropKeepsCounts(ReportStep(b, batch, errors[..|errors| - 1]), 1, errors[|errors| - 1].code);
    }
  }

  lemma OutcomeKeepsBuffer(o: QueueOptions, s: Sender, batch: seq<Payload>, outcome: Outcome, now: real)
    requires BufferValid(o, s.buffer)
    ensures BufferValid(o, AfterOutcome(o, s, batch, outcome, now).buffer)
  {
    match outcome
    case Answered(errors) => ReportKeepsBuffer(o, s.buffer, batch, errors);
    case Failed => RequeueKeepsBuffer(o, s.buffer, batch, now);
    case Refused(code) => DropKeepsCounts(s.buffer, |Data(batch)|, code);
  }

  lemma ReportKeepsItems(b: Buffer, batch: seq<Payload>, errors: seq<ItemError>)
    ensures var r := ReportStep(b, batch, errors);
            r.items == b.items && r.firstAt == b.firstAt && r.firstTurnAt == b.firstTurnAt
  {
    if errors != [] {
      ReportKeepsItems(b, batch, errors[..|errors| - 1]);
    }
  }

  /** A send that does not fail leaves fewer items, a heartbeat put back included. */
  lemma SendShrinks(o: QueueOptions, s: Sender, outcome: Outcome, now: real)
    requires s.buffer.items != [] && !outcome.Failed?
    ensures |AfterSend(o, s, outcome, now).buffer.items| < |s.buffer.items|
  {
    var taken := AfterTake(s, now);
    var batch := WithBeat(o, taken, TakeBatch(s), now);
    var ready := AfterBeat(o, taken, TakeBatch(s), now);
    if outcome.Answered? {
      ReportKeepsItems(ready.buffer, batch, outcome.errors);
    }
  }

  /** A flush from its k-th send on: the sender it leaves, and whether it says the queue emptied. */
  function AfterFlush(o: QueueOptions, s: Sender, outcome: nat -> Outcome, clock: nat -> real,
                      deadline: Option<real>, k: nat): (Sender, bool)
    decreases |s.buffer.items|
  {
    if s.buffer.items == [] then (s, true)
    else if deadline.Some? && clock(k) >= deadline.value then (s, false)
    else
      var t := AfterSend(o, s, outcome(k), clock(k));
      if outcome(k).Failed? then (t, false)
      else
        SendShrinks(o, s, outcome(k), clock(k));
        AfterFlush(o, t, outcome, clock, deadline, k + 1)
  }

  /** A failed send leaves items behind, when there is any capacity for them. */
  lemma FailedSendLeaves(o: QueueOptions, s: Sender, now: real)
    requires s.buffer.items != [] && o.capacity >= 1
    ensures AfterSend(o, s, Failed, now).buffer.items != []
  {
  }

  /** With a capacity at all, a flush is true exactly when the queue emptied; with no deadline and no failed send,
    * it always is. */
  lemma {:induction false} FlushEmpties(o: QueueOptions, s: Sender, outcome: nat -> Outcome, clock: nat -> real,
                                        deadline: Option<real>, k: nat)
    requires o.capacity >= 1
    ensures var (t, emptied) := AfterFlush(o, s, outcome, clock, deadline, k);
            && (emptied <==> t.buffer.items == [])
            && (deadline.None? && (forall j :: j >= k ==> !outcome(j).Failed?) ==> emptied)
    decreases |s.buffer.items|
  {
    if s.buffer.items != [] && !(deadline.Some? && clock(k) >= deadline.value) {
      if outcome(k).Failed? {
        FailedSendLeaves(o, s, clock(k));
      } else {
        SendShrinks(o, s, outcome(k), clock(k));
        FlushEmpties(o, AfterSend(o, s, outcome(k), clock(k)), outcome, clock, deadline, k + 1);
      }
    }
  }

  lemma BeatKeepsBuffer(o: QueueOptions, s: Sender, batch: seq<Payload>, now: real)
    requires BufferValid(o, s.buffer)
    ensures BufferValid(o, AfterBeat(o, s, batch, now).buffer)
  {
    RequeueKeepsBuffer(o, s.buffer, [HeartbeatItem(s.counted)], now);
  }

  // ---- The pause ----

  function Doubled(x: real, times: nat): (r: real)
    ensures x >= 0.0 ==> r >= x
  {
    if times == 0 then x else 2.0 * Doubled(x, times - 1)
  }

  function PauseAfter(interval: real, failures: nat): real {
    if failures == 0 then 0.0 else NextPause(interval, PauseAfter(interval, failures - 1))
  }

  /** `n` failures in a row pause for the interval doubled `n - 1` times, and never past `MAX_PAUSE`. */
  lemma {:induction false} PauseDoubles(interval: real, n: nat)
    requires interval >= 0.0
    ensures PauseAfter(interval, n + 1) == Min(MAX_PAUSE, Doubled(interval, n))
  {
    if n > 0 {
      PauseDoubles(interval, n - 1);
    }
  }

  class Pacing {
    const interval: real
    var pause: real
    var resumeAt: real

    constructor (interval: real)
      ensures this.interval == interval && pause == 0.0 && resumeAt == 0.0
    {
      this.interval, pause, resumeAt := interval, 0.0, 0.0;
    }

    method Failed(now: real)
      modifies this
      ensures pause == NextPause(interval, old(pause)) && resumeAt == now + pause
    {
      pause := Min(MAX_PAUSE, Max(interval, pause * 2.0));
      resumeAt := now + pause;
    }

    method Succeeded()
      modifies this
      ensures pause == 0.0 && resumeAt == 0.0
    {
      pause, resumeAt := 0.0, 0.0;
    }
  }

  class Heartbeat {
    const interval: real
    var windowStart: real
    var sent: nat

    constructor (interval: real, now: real)
      ensures this.interval == interval && windowStart == now && sent == 0
    {
      this.interval, windowStart, sent := interval, now, 0;
    }

    method Count(n: nat)
      modifies this
      ensures sent == old(sent) + n && windowStart == old(windowStart)
    {
      sent := sent + n;
    }

    method DueItem(now: real) returns (beat: Option<Payload>)
      modifies this
      ensures beat == if now - old(windowStart) < interval || old(sent) == 0 then None
                      else Some(HeartbeatItem(old(sent)))
      ensures beat.None? ==> unchanged(this)
      ensures beat.Some? ==> windowStart == now && sent == 0
    {
      if now - windowStart < interval || sent == 0 {
        return None;
      }
      beat := Some(HeartbeatItem(sent));
      windowStart, sent := now, 0;
    }
  }

  class SyncFlusher {
    const buffer: EventBuffer
    const heartbeat: Heartbeat
    const pacing: Pacing

    ghost predicate Valid()
      reads this, buffer, heartbeat, pacing
    {
      && buffer.Valid()
      && heartbeat.interval == buffer.options.heartbeatInterval
      && pacing.interval == buffer.options.interval
    }

    ghost function View(): Sender
      reads this, buffer, heartbeat, pacing
    {
      Sender(buffer.View(), heartbeat.windowStart, heartbeat.sent, pacing.pause, pacing.resumeAt)
    }

    constructor (options: QueueOptions, now: real)
      ensures Valid() && fresh(buffer) && fresh(heartbeat) && fresh(pacing)
      ensures buffer.options == options && View() == Sender(EMPTY_BUFFER, now, 0, 0.0, 0.0)
    {
      buffer := new EventBuffer(options);
      heartbeat := new Heartbeat(options.heartbeatInterval, now);
      pacing := new Pacing(options.interval);
    }

    method Prepare(now: real) returns (batch: seq<Payload>)
      requires Valid()
      modifies buffer, heartbeat
      ensures Valid()
      ensures var taken := AfterTake(old(View()), now);
              && batch == WithBeat(buffer.options, taken, TakeBatch(old(View())), now)
              && View() == AfterBeat(buffer.options, taken, TakeBatch(old(View())), now)
    {
      batch := buffer.Take(MAX_BATCH_ITEMS, now);
      ghost var taken := batch;
      var beat := heartbeat.DueItem(now);
      if beat.Some? {
        if |batch| < MAX_BATCH_ITEMS {
          batch := batch + [beat.value];
        } else {
          buffer.Requeue([beat.value], now);
        }
      }
    }

    method Report(batch: seq<Payload>, errors: seq<ItemError>)
      requires Valid()
      modifies buffer
      ensures Valid() && buffer.View() == ReportStep(old(buffer.View()), batch, errors)
    {
      for i := 0 to |errors|
        invariant Valid() && buffer.View() == ReportStep(old(buffer.View()), batch, errors[..i])
      {
        assert errors[..i + 1][..i] == errors[..i];
        var e := errors[i];
        if !(0 <= e.index < |batch| && IsHeartbeat(batch[e.index])) {
          buffer.Drop(1, e.code);
        }
      }
      assert errors[..|errors|] == errors;
    }

    /** Sends the next batch; false when it will have to be sent again. */
    method SendOne(outcome: Outcome, now: real) returns (ok: bool)
      requires Valid()
      modifies buffer, heartbeat, pacing
      ensures Valid() && View() == AfterSend(buffer.options, old(View()), outcome, now)
      ensures !ok ==> outcome.Failed? && (buffer.options.capacity >= 1 ==> buffer.items != [])
      ensures ok && old(buffer.items) != [] ==> !outcome.Failed? && |buffer.items| < |old(buffer.items)|
    {
      var batch := Prepare(now);
      if batch == [] {
        return true;
      }
      ghost var ready := View();
      OutcomeKeepsBuffer(buffer.options, View(), batch, outcome, now);
      match outcome
      case Failed =>
        buffer.Requeue(batch, now);
        pacing.Failed(now);
        return false;
      case Refused(code) =>
        var count := CountData(batch);
        buffer.Drop(count, code);
        return true;
      case Answered(errors) =>
        ReportKeepsBuffer(buffer.options, buffer.View(), batch, errors);
        pacing.Succeeded();
        heartbeat.Count(|batch|);
        Report(batch, errors);
        return true;
    }

    /** Sends everything queued now, one batch after another, unless another send stays `busy` for the whole time.
      * `outcome(k)` and `clock(k)` are what the k-th send meets. */
    method Flush(busy: bool, outcome: nat -> Outcome, clock: nat -> real, deadline: Option<real>)
      returns (emptied: bool)
      requires Valid()
      modifies buffer, heartbeat, pacing
      ensures Valid()
      ensures (View(), emptied) ==
              if busy then (old(View()), false)
              else AfterFlush(buffer.options, old(View()), outcome, clock, deadline, 0)
    {
      if busy {
        return false;
      }
      ghost var all := AfterFlush(buffer.options, View(), outcome, clock, deadline, 0);
      var k := 0;
      while buffer.items != []
        invariant Valid() && AfterFlush(buffer.options, View(), outcome, clock, deadline, k) == all
        decreases |buffer.items|
      {
        if deadline.Some? && clock(k) >= deadline.value {
          return false;
        }
        var ok := SendOne(outcome(k), clock(k));
        if !ok {
          return false;
        }
        k := k + 1;
      }
      return true;
    }
  }

  /** How many items of a batch are no heartbeat. */
  method CountData(batch: seq<Payload>) returns (n: nat)
    ensures n == |Data(batch)|
  {
    n := 0;
    var i := |batch|;
    while i > 0
      invariant 0 <= i <= |batch| && n == |Data(batch[i..])|
    {
      i := i - 1;
      assert batch[i..][1..] == batch[i + 1..];
      if !IsHeartbeat(batch[i]) {
        n := n + 1;
      }
    }
    assert batch[0..] == batch;
  }
}

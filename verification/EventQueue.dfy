/** The local queue behind `track()`: the bounded buffer, the pause after a failure, the heartbeat and
  * the flusher (`src/niadra/_queue.py`). Clock readings are parameters; the lock of each object makes
  * one method one step. */
module EventQueue {
  import opened Basics

  const MAX_BATCH_ITEMS: nat := 500
  const MAX_PAUSE := 30.0
  const QUEUE_FULL := "queue_full"

  /** `id` tells items apart; `sent` is what a heartbeat reports. */
  datatype Payload = Payload(id: nat, itemType: string, kind: string, conversationId: string, sent: nat)

  datatype QueueOptions = QueueOptions(
    capacity: int, batchSize: int, interval: real, turnInterval: real, heartbeatInterval: real)

  datatype Buffer = Buffer(
    items: seq<Payload>, firstAt: Option<real>, firstTurnAt: Option<real>,
    dropped: nat, byReason: map<string, nat>)

  const EMPTY_BUFFER := Buffer([], None, None, 0, map[])

  predicate IsHeartbeat(p: Payload) { p.itemType == "heartbeat" }

  predicate IsTurn(p: Payload) {
    p.itemType == "event" && p.kind == "message" && p.conversationId != ""
  }

  predicate HasTurn(ps: seq<Payload>) { exists p :: p in ps && IsTurn(p) }

  // ---- What each method does to the buffer ----

  function DropStep(b: Buffer, count: int, reason: string): Buffer {
    if count <= 0 then b
    else
      var before := if reason in b.byReason then b.byReason[reason] else 0;
      b.(dropped := b.dropped + count, byReason := b.byReason[reason := before + count])
  }

  predicate HasRoom(o: QueueOptions, b: Buffer) { |b.items| < o.capacity }

  function PutStep(o: QueueOptions, b: Buffer, p: Payload, now: real): Buffer {
    if !HasRoom(o, b) then DropStep(b, 1, QUEUE_FULL)
    else
      b.(items := b.items + [p],
         firstAt := if b.items == [] then Some(now) else b.firstAt,
         firstTurnAt := if b.firstTurnAt.None? && IsTurn(p) then Some(now) else b.firstTurnAt)
  }

  /** How much of a failed batch fits back in front of what waits. */
  function Fits(o: QueueOptions, b: Buffer, batch: seq<Payload>): (n: nat)
    ensures n <= |batch|
  {
    MinInt(|batch|, MaxInt(o.capacity - |b.items|, 0))
  }

  function RequeueStep(o: QueueOptions, b: Buffer, batch: seq<Payload>, now: real): Buffer {
    var n := Fits(o, b, batch);
    var keep := batch[..n];
    var d := DropStep(b, |batch| - n, QUEUE_FULL);
    d.(items := keep + b.items,
       firstAt := if keep + b.items != [] && b.firstAt.None? then Some(now) else b.firstAt,
       firstTurnAt := if b.firstTurnAt.None? && HasTurn(keep) then Some(now) else b.firstTurnAt)
  }

  function TakeCount(b: Buffer, limit: nat): (n: nat)
    ensures n <= |b.items| && n <= limit
  {
    MinInt(limit, |b.items|)
  }

  function TakeStep(b: Buffer, limit: nat, now: real): Buffer {
    var rest := b.items[TakeCount(b, limit)..];
    b.(items := rest,
       firstAt := if rest != [] then Some(now) else None,
       firstTurnAt := if HasTurn(rest) then Some(now) else None)
  }

  function NextDue(o: QueueOptions, b: Buffer): Option<real> {
    if b.items == [] || b.firstAt.None? then None
    else if |b.items| >= o.batchSize then b.firstAt
    else
      var at := b.firstAt.value + o.interval;
      Some(if b.firstTurnAt.Some? then Min(at, b.firstTurnAt.value + o.turnInterval) else at)
  }

  function WaitHint(o: QueueOptions, b: Buffer, now: real): real {
    match NextDue(o, b)
    case None => o.interval
    case Some(at) => Max(0.0, at - now)
  }

  /** The two marks behind the due time are set exactly when there is an item, or a turn, to time. */
  predicate MarksExact(b: Buffer) {
    && (b.firstAt.Some? <==> b.items != [])
    && (b.firstTurnAt.Some? <==> HasTurn(b.items))
  }

  predicate WithinCapacity(o: QueueOptions, b: Buffer) { |b.items| <= MaxInt(o.capacity, 0) }

  ghost predicate CountsAddUp(b: Buffer) { b.dropped == SumValues(b.byReason) }

  ghost predicate BufferValid(o: QueueOptions, b: Buffer) {
    MarksExact(b) && WithinCapacity(o, b) && CountsAddUp(b)
  }

  lemma DropKeepsCounts(b: Buffer, count: int, reason: string)
    requires CountsAddUp(b)
    ensures CountsAddUp(DropStep(b, count, reason))
    ensures DropStep(b, count, reason).dropped == b.dropped + MaxInt(count, 0)
  {
    if count > 0 {
      var before := if reason in b.byReason then b.byReason[reason] else 0;
      SumValuesUpdate(b.byReason, reason, before + count);
    }
  }

  lemma HasTurnConcat(a: seq<Payload>, b: seq<Payload>)
    ensures HasTurn(a + b) <==> HasTurn(a) || HasTurn(b)
  {
    assert forall p :: p in a + b <==> p in a || p in b;
  }

  lemma PutKeepsBuffer(o: QueueOptions, b: Buffer, p: Payload, now: real)
    requires BufferValid(o, b)
    ensures BufferValid(o, PutStep(o, b, p, now))
  {
    DropKeepsCounts(b, 1, QUEUE_FULL);
    HasTurnConcat(b.items, [p]);
    assert HasTurn([p]) <==> IsTurn(p) by { assert p in [p]; }
  }

  lemma RequeueKeepsBuffer(o: QueueOptions, b: Buffer, batch: seq<Payload>, now: real)
    requires BufferValid(o, b)
    ensures BufferValid(o, RequeueStep(o, b, batch, now))
  {
    var n := Fits(o, b, batch);
    DropKeepsCounts(b, |batch| - n, QUEUE_FULL);
    HasTurnConcat(batch[..n], b.items);
  }

  lemma TakeKeepsBuffer(o: QueueOptions, b: Buffer, limit: nat, now: real)
    requires BufferValid(o, b)
    ensures BufferValid(o, TakeStep(b, limit, now))
  {
  }

  function CountUnder(b: Buffer, reason: string): nat { if reason in b.byReason then b.byReason[reason] else 0 }

  /** A put is refused exactly when the queue is at capacity, and then counted as `queue_full`; the first item starts
    * the one mark, the first turn the other. */
  lemma PutRefusesOnlyWhenFull(o: QueueOptions, b: Buffer, p: Payload, now: real)
    ensures var after := PutStep(o, b, p, now);
            if |b.items| >= o.capacity then
              && after.items == b.items && after.firstAt == b.firstAt && after.firstTurnAt == b.firstTurnAt
              && after.dropped == b.dropped + 1
              && forall r :: CountUnder(after, r) == CountUnder(b, r) + (if r == "queue_full" then 1 else 0)
            else
              && after.items == b.items + [p] && after.dropped == b.dropped && after.byReason == b.byReason
              && (b.items == [] ==> after.firstAt == Some(now)) && (b.items != [] ==> after.firstAt == b.firstAt)
              && (after.firstTurnAt != b.firstTurnAt ==>
                    && b.firstTurnAt == None && after.firstTurnAt == Some(now)
                    && p.itemType == "event" && p.kind == "message" && p.conversationId != "")
  {
  }

  /** What is put back is all of the batch when it fits, otherwise its oldest items up to capacity: an item is lost
    * only when the queue ends full. Marks already set stay. */
  lemma RequeueKeepsAllThatFits(o: QueueOptions, b: Buffer, batch: seq<Payload>, now: real)
    ensures var after := RequeueStep(o, b, batch, now);
            && (|b.items| + |batch| <= o.capacity ==> after.items == batch + b.items && after.dropped == b.dropped)
            && (|b.items| + |batch| > o.capacity ==> |after.items| == MaxInt(|b.items|, o.capacity))
            && |b.items| <= |after.items| <= |batch| + |b.items|
            && after.items == batch[..|after.items| - |b.items|] + b.items
            && after.dropped == b.dropped + |batch| + |b.items| - |after.items|
            && (forall r :: CountUnder(after, r) == CountUnder(b, r) +
                              (if r == "queue_full" then |batch| + |b.items| - |after.items| else 0))
            && (b.firstAt.Some? ==> after.firstAt == b.firstAt)
            && (b.firstTurnAt.Some? ==> after.firstTurnAt == b.firstTurnAt)
            && (after.firstAt != b.firstAt ==> after.firstAt == Some(now))
            && (after.firstTurnAt != b.firstTurnAt ==> after.firstTurnAt == Some(now))
  {
  }

  /** A batch is everything, or the oldest items up to the limit; what is left is timed from now. */
  lemma TakesAllOrTheLimit(b: Buffer, limit: nat, now: real)
    ensures var n, after := TakeCount(b, limit), TakeStep(b, limit, now);
            && b.items == b.items[..n] + after.items && after.dropped == b.dropped && after.byReason == b.byReason
            && (|b.items| <= limit ==> after.items == []) && (|b.items| > limit ==> n == limit)
            && (after.firstAt.Some? ==> after.firstAt == Some(now))
            && (after.firstTurnAt.Some? ==> after.firstTurnAt == Some(now))
  {
  }

  /** The buffer as the source keeps it. */
  class EventBuffer {
    const options: QueueOptions
    var items: seq<Payload>
    var firstAt: Option<real>
    var firstTurnAt: Option<real>
    var dropped: nat
    var byReason: map<string, nat>

    ghost function View(): Buffer
      reads this
    {
      Buffer(items, firstAt, firstTurnAt, dropped, byReason)
    }

    ghost predicate Valid()
      reads this
    {
      BufferValid(options, View())
    }

    constructor (options: QueueOptions)
      ensures this.options == options && View() == EMPTY_BUFFER && Valid()
    {
      this.options := options;
      items, firstAt, firstTurnAt, dropped, byReason := [], None, None, 0, map[];
    }

    method Drop(count: int, reason: string)
      requires Valid()
      modifies this
      ensures View() == DropStep(old(View()), count, reason) && Valid()
    {
      DropKeepsCounts(View(), count, reason);
      if count > 0 {
        dropped := dropped + count;
        var before := if reason in byReason then byReason[reason] else 0;
        byReason := byReason[reason := before + count];
      }
    }

    method Put(p: Payload, now: real) returns (accepted: bool)
      requires Valid()
      modifies this
      ensures View() == PutStep(options, old(View()), p, now) && Valid()
      ensures accepted == HasRoom(options, old(View()))
    {
      PutKeepsBuffer(options, View(), p, now);
      if |items| >= options.capacity {
        Drop(1, QUEUE_FULL);
        return false;
      }
      if items == [] {
        firstAt := Some(now);
      }
      if firstTurnAt.None? && IsTurn(p) {
        firstTurnAt := Some(now);
      }
      items := items + [p];
      return true;
    }

    method Requeue(batch: seq<Payload>, now: real)
      requires Valid()
      modifies this
      ensures View() == RequeueStep(options, old(View()), batch, now) && Valid()
    {
      RequeueKeepsBuffer(options, View(), batch, now);
      var room := options.capacity - |items|;
      var keep := if room <= 0 then [] else if room < |batch| then batch[..room] else batch;
      assert keep == batch[..Fits(options, View(), batch)];
      Drop(|batch| - |keep|, QUEUE_FULL);
      items := keep + items;
      if items != [] && firstAt.None? {
        firstAt := Some(now);
      }
      var anyTurn := AnyTurn(keep);
      if firstTurnAt.None? && anyTurn {
        firstTurnAt := Some(now);
      }
    }

    method Take(limit: nat, now: real) returns (batch: seq<Payload>)
      requires Valid()
      modifies this
      ensures View() == TakeStep(old(View()), limit, now) && Valid()
      ensures batch == old(items)[..TakeCount(old(View()), limit)]
    {
      TakeKeepsBuffer(options, View(), limit, now);
      var count := MinInt(limit, |items|);
      batch := [];
      for i := 0 to count
        invariant batch == old(items)[..i] && items == old(items)[i..]
        invariant unchanged(this`firstAt, this`firstTurnAt, this`dropped, this`byReason)
      {
        batch, items := batch + [items[0]], items[1..];
      }
      firstAt := if items != [] then Some(now) else None;
      var anyTurn := AnyTurn(items);
      firstTurnAt := if anyTurn then Some(now) else None;
    }

    /** A full batch is due from the mark of the oldest item on; less, an interval after it, or the turn interval
      * after the mark of the oldest turn if there is one and that comes first. */
    method Due(now: real) returns (due: bool)
      requires Valid()
      ensures due <==>
                && items != []
                && if |items| >= options.batchSize then now >= firstAt.value
                   else || now >= firstAt.value + options.interval
                        || (HasTurn(items) && now >= firstTurnAt.value + options.turnInterval)
    {
      var at := NextDue(options, Buffer(items, firstAt, firstTurnAt, dropped, byReason));
      due := at.Some? && now >= at.value;
    }
  }

  /** Whether any item is a turn. */
  method AnyTurn(ps: seq<Payload>) returns (found: bool)
    ensures found <==> HasTurn(ps)
  {
    for i := 0 to |ps|
      invariant !HasTurn(ps[..i])
    {
      assert ps[..i + 1] == ps[..i] + [ps[i]];
      if IsTurn(ps[i]) {
        return true;
      }
    }
    assert ps[..|ps|] == ps;
    return false;
  }
}

/** Every sequence of calls on the context cache: deltas handed out exactly once, and purged scopes that late
  * answers never fill again (`src/niadra/_cache.py`). */
module CacheRuns {
  import opened Basics
  import opened OrderedDict
  import opened PackCache

  /** `started` is the position in the run at which the read behind an answer began, for a caller that passes
    * the epoch it read then. */
  datatype Op =
    | Get(key: string, pinned: bool, now: real)
    | Has(key: string, now: real)
    | Absorb(key: string, scope: string, response: Context, deliver: bool, started: Option<nat>, now: real)
    | Fallback(key: string, failure: Failure, now: real)
    | Purge(key: string)
    | PurgeScope(scope: string)
    | Clear

  predicate WellStarted(ops: seq<Op>) {
    forall j :: 0 <= j < |ops| && ops[j].Absorb? && ops[j].started.Some? ==> ops[j].started.value <= j
  }

  function After(o: CacheOptions, c: Cache, op: Op, epoch: Option<nat>): Cache {
    match op
    case Get(key, pinned, now) => AfterGet(o, c, key, pinned, now)
    case Has(key, now) => DropOld(o, c, key, now)
    case Absorb(key, scope, response, deliver, _, now) =>
      AfterAbsorb(o, c, key, scope, response, deliver, epoch, now)
    case Fallback(key, failure, now) => AfterFallback(o, c, key, failure, now)
    case Purge(key) => c.(entries := c.entries.Remove(key))
    case PurgeScope(scope) => AfterPurgeScope(c, scope)
    case Clear => c.(entries := Ordered([], map[]))
  }

  /** The cache before the n-th call. */
  function StateAt(o: CacheOptions, ops: seq<Op>, n: nat): Cache
    requires n <= |ops| && WellStarted(ops)
    decreases n, 0
  {
    if n == 0 then EMPTY else After(o, StateAt(o, ops, n - 1), ops[n - 1], EpochPassed(o, ops, n - 1))
  }

  function EpochPassed(o: CacheOptions, ops: seq<Op>, n: nat): Option<nat>
    requires n < |ops| && WellStarted(ops)
    decreases n, 1
  {
    if ops[n].Absorb? && ops[n].started.Some?
    then Some(EpochOf(StateAt(o, ops, ops[n].started.value), ops[n].scope)) else None
  }

  lemma AbsorbKeepsValid(o: CacheOptions, c: Cache, key: string, scope: string, response: Context,
                         deliver: bool, epoch: Option<nat>, now: real)
    requires ValidCache(c)
    ensures ValidCache(AfterAbsorb(o, c, key, scope, response, deliver, epoch, now))
  {
    var e := Folded(c, key, scope, response, now);
    var kept := if deliver then Handed(e) else e;
    MoveInKeepsValid(c.entries, key, kept);
    TrimKeepsValid(c.entries.MoveIn(key, kept), o.maxEntries);
  }

  lemma GetKeepsValid(o: CacheOptions, c: Cache, key: string, pinned: bool, now: real)
    requires ValidCache(c)
    ensures ValidCache(AfterGet(o, c, key, pinned, now))
  {
    DropKeepsValid(o, c, key, now);
    if key in c.entries.items {
      MoveInKeepsValid(c.entries, key, c.entries.items[key]);
      MoveInKeepsValid(c.entries, key, Handed(c.entries.items[key]));
    }
  }

  lemma DropKeepsValid(o: CacheOptions, c: Cache, key: string, now: real)
    requires ValidCache(c)
    ensures ValidCache(DropOld(o, c, key, now))
  {
    RemoveKeepsValid(c.entries, key);
  }

  lemma FallbackKeepsValid(o: CacheOptions, c: Cache, key: string, failure: Failure, now: real)
    requires ValidCache(c)
    ensures ValidCache(AfterFallback(o, c, key, failure, now))
  {
    RemoveKeepsValid(c.entries, key);
    DropKeepsValid(o, c, key, now);
  }

  lemma AfterKeepsValid(o: CacheOptions, c: Cache, op: Op, epoch: Option<nat>)
    requires ValidCache(c)
    ensures ValidCache(After(o, c, op, epoch))
  {
    match op
    case Get(key, pinned, now) => GetKeepsValid(o, c, key, pinned, now);
    case Has(key, now) => DropKeepsValid(o, c, key, now);
    case Absorb(key, scope, response, deliver, _, now) =>
      AbsorbKeepsValid(o, c, key, scope, response, deliver, epoch, now);
    case Fallback(key, failure, now) => FallbackKeepsValid(o, c, key, failure, now);
    case Purge(key) => RemoveKeepsValid(c.entries, key);
    case PurgeScope(scope) => PurgeKeepsValid(c, scope);
    case Clear =>
  }

  lemma {:induction false} StateIsValid(o: CacheOptions, ops: seq<Op>, n: nat)
    requires n <= |ops| && WellStarted(ops)
    ensures ValidCache(StateAt(o, ops, n))
  {
    if n > 0 {
      StateIsValid(o, ops, n - 1);
      AfterKeepsValid(o, StateAt(o, ops, n - 1), ops[n - 1], EpochPassed(o, ops, n - 1));
    }
  }

  // ---- Deltas, exactly once ----

  /** The deltas a call folds into the pack of `k`. */
  function FoldedIn(c: Cache, op: Op, epoch: Option<nat>, k: string): seq<string> {
    if op.Absorb? && op.key == k && Stores(c, k, op.scope, op.response, epoch) then DeltaOf(op.response) else []
  }

  /** The deltas a call hands to its caller from the pack of `k`. */
  function HandedOut(o: CacheOptions, c: Cache, op: Op, epoch: Option<nat>, k: string): seq<string> {
    match op
    case Get(key, pinned, now) =>
      if key == k && Live(o, c, k, now) && !FreshnessOf(o, c.entries.items[k], pinned, now).Expired?
      then c.entries.items[k].deltas else []
    case Absorb(key, scope, response, deliver, _, now) =>
      if key == k && deliver && Stores(c, k, scope, response, epoch)
      then Folded(c, k, scope, response, now).deltas else []
    case Fallback(key, failure, now) =>
      if key == k && failure.OtherFailure? && Live(o, c, k, now) then c.entries.items[k].deltas else []
    case _ => []
  }

  /** What the caller is shown is what was handed out, joined. */
  lemma ShownIsHandedOut(o: CacheOptions, c: Cache, op: Op, epoch: Option<nat>)
    ensures op.Get? ==>
              var hit := GetResult(o, c, op.key, op.pinned, op.now);
              hit.Some? && !hit.value.freshness.Expired? ==>
                hit.value.context.delta == Joined(HandedOut(o, c, op, epoch, op.key))
    ensures op.Absorb? && op.deliver && Stores(c, op.key, op.scope, op.response, epoch) ==>
              AbsorbResult(c, op.key, op.scope, op.response, true, epoch, op.now).delta ==
              Joined(HandedOut(o, c, op, epoch, op.key))
    ensures op.Fallback? ==>
              var served := FallbackResult(o, c, op.key, op.failure, op.now);
              served.Some? ==> served.value.delta == Joined(HandedOut(o, c, op, epoch, op.key))
  {
  }

  function Pending(c: Cache, k: string): seq<string> {
    if k in c.entries.items then c.entries.items[k].deltas else []
  }

  /** The call leaves the pack of `k` in the cache, with its etag. */
  predicate KeepsPack(c: Cache, after: Cache, k: string) {
    && k in c.entries.items && k in after.entries.items
    && c.entries.items[k].context.etag == after.entries.items[k].context.etag
  }

  ghost predicate Accounted(o: CacheOptions, c: Cache, op: Op, epoch: Option<nat>, k: string) {
    var after := After(o, c, op, epoch);
    HandedOut(o, c, op, epoch, k) + Pending(after, k) ==
    (if KeepsPack(c, after, k) then Pending(c, k) else []) + FoldedIn(c, op, epoch, k)
  }

  /** The entry of `k` that an absorbed answer leaves. */
  lemma AbsorbedEntry(o: CacheOptions, c: Cache, key: string, scope: string, response: Context,
                      deliver: bool, epoch: Option<nat>, now: real, k: string)
    requires k in AfterAbsorb(o, c, key, scope, response, deliver, epoch, now).entries.items
    ensures var left := AfterAbsorb(o, c, key, scope, response, deliver, epoch, now).entries.items[k];
            if k == key && Stores(c, key, scope, response, epoch) then
              var e := Folded(c, key, scope, response, now);
              left == if deliver then Handed(e) else e
            else k in c.entries.items && left == c.entries.items[k]
  {
  }

  lemma FoldedDeltas(c: Cache, key: string, scope: string, response: Context, now: real)
    requires response.notModified || response.degraded ==> key in c.entries.items
    ensures var e := Folded(c, key, scope, response, now);
            e.deltas == (if key in c.entries.items && e.context.etag == c.entries.items[key].context.etag
                         then c.entries.items[key].deltas else []) + DeltaOf(response)
  {
  }

  lemma AbsorbDeltas(o: CacheOptions, c: Cache, op: Op, epoch: Option<nat>, k: string)
    requires op.Absorb? && k in After(o, c, op, epoch).entries.items
    ensures Accounted(o, c, op, epoch, k)
  {
    AbsorbedEntry(o, c, op.key, op.scope, op.response, op.deliver, epoch, op.now, k);
    if Stores(c, op.key, op.scope, op.response, epoch) {
      FoldedDeltas(c, op.key, op.scope, op.response, op.now);
    }
  }

  lemma ReadDeltas(o: CacheOptions, c: Cache, op: Op, epoch: Option<nat>, k: string)
    requires op.Get? || op.Fallback? || op.Has?
    requires k in After(o, c, op, epoch).entries.items
    ensures Accounted(o, c, op, epoch, k)
  {
  }

  lemma StepDeltas(o: CacheOptions, c: Cache, op: Op, epoch: Option<nat>, k: string)
    requires k in After(o, c, op, epoch).entries.items
    ensures Accounted(o, c, op, epoch, k)
  {
    if op.Absorb? {
      AbsorbDeltas(o, c, op, epoch, k);
    } else if op.Get? || op.Fallback? || op.Has? {
      ReadDeltas(o, c, op, epoch, k);
    }
  }

  /** What the n-th call folds in, and what it hands out. */
  function InAt(o: CacheOptions, ops: seq<Op>, k: string, n: nat): seq<string>
    requires n < |ops| && WellStarted(ops)
  {
    FoldedIn(StateAt(o, ops, n), ops[n], EpochPassed(o, ops, n), k)
  }

  function OutAt(o: CacheOptions, ops: seq<Op>, k: string, n: nat): seq<string>
    requires n < |ops| && WellStarted(ops)
  {
    HandedOut(o, StateAt(o, ops, n), ops[n], EpochPassed(o, ops, n), k)
  }

  function PendingAt(o: CacheOptions, ops: seq<Op>, k: string, n: nat): seq<string>
    requires n <= |ops| && WellStarted(ops)
  {
    Pending(StateAt(o, ops, n), k)
  }

  function Joint<T>(parts: seq<seq<T>>): seq<T> {
    if parts == [] then [] else Joint(parts[..|parts| - 1]) + parts[|parts| - 1]
  }

  function InList(o: CacheOptions, ops: seq<Op>, k: string, m: nat, n: nat): (r: seq<seq<string>>)
    requires m <= n <= |ops| && WellStarted(ops)
    ensures |r| == n - m
  {
    seq(n - m, i requires 0 <= i < n - m => InAt(o, ops, k, m + i))
  }

  function OutList(o: CacheOptions, ops: seq<Op>, k: string, m: nat, n: nat): (r: seq<seq<string>>)
    requires m <= n <= |ops| && WellStarted(ops)
    ensures |r| == n - m
  {
    seq(n - m, i requires 0 <= i < n - m => OutAt(o, ops, k, m + i))
  }

  function PendingList(o: CacheOptions, ops: seq<Op>, k: string, m: nat, n: nat): (r: seq<seq<string>>)
    requires m <= n <= |ops| && WellStarted(ops)
    ensures |r| == n - m + 1
  {
    seq(n - m + 1, i requires 0 <= i < n - m + 1 => PendingAt(o, ops, k, m + i))
  }

  predicate KeepsPackAt(o: CacheOptions, ops: seq<Op>, k: string, n: nat)
    requires n < |ops| && WellStarted(ops)
  {
    KeepsPack(StateAt(o, ops, n), StateAt(o, ops, n + 1), k)
  }

  predicate KeepsPackFrom(o: CacheOptions, ops: seq<Op>, k: string, m: nat, n: nat)
    requires m <= n <= |ops| && WellStarted(ops)
  {
    forall i :: m <= i < n ==> KeepsPackAt(o, ops, k, i)
  }

  lemma CallDeltas(o: CacheOptions, ops: seq<Op>, k: string, n: nat)
    requires n < |ops| && WellStarted(ops) && KeepsPackAt(o, ops, k, n)
    ensures OutAt(o, ops, k, n) + PendingAt(o, ops, k, n + 1) == PendingAt(o, ops, k, n) + InAt(o, ops, k, n)
  {
    StepDeltas(o, StateAt(o, ops, n), ops[n], EpochPassed(o, ops, n), k);
  }

  lemma {:induction false} Telescopes<T>(outs: seq<seq<T>>, ins: seq<seq<T>>, pending: seq<seq<T>>)
    requires |ins| == |outs| && |pending| == |outs| + 1
    requires forall i :: 0 <= i < |outs| ==> outs[i] + pending[i + 1] == pending[i] + ins[i]
    ensures Joint(outs) + pending[|outs|] == pending[0] + Joint(ins)
  {
    if outs != [] {
      var n := |outs| - 1;
      Telescopes(outs[..n], ins[..n], pending[..n + 1]);
      var o, i := Joint(outs[..n]), Joint(ins[..n]);
      calc {
        Joint(outs) + pending[n + 1];
        o + (outs[n] + pending[n + 1]);
        o + (pending[n] + ins[n]);
        (o + pending[n]) + ins[n];
        (pending[0] + i) + ins[n];
        pending[0] + Joint(ins);
      }
    }
  }

  lemma CallsDeltas(o: CacheOptions, ops: seq<Op>, k: string, m: nat, n: nat)
    requires m <= n <= |ops| && WellStarted(ops) && KeepsPackFrom(o, ops, k, m, n)
    ensures var outs, ins, pending := OutList(o, ops, k, m, n), InList(o, ops, k, m, n), PendingList(o, ops, k, m, n);
            forall i :: 0 <= i < n - m ==> outs[i] + pending[i + 1] == pending[i] + ins[i]
  {
    forall i | 0 <= i < n - m
      ensures OutList(o, ops, k, m, n)[i] + PendingList(o, ops, k, m, n)[i + 1] ==
              PendingList(o, ops, k, m, n)[i] + InList(o, ops, k, m, n)[i]
    {
      CallDeltas(o, ops, k, m + i);
    }
  }

  /** While a pack keeps its etag and is not dropped, what was handed out followed by what is pending is what
    * was pending and then folded in: the same deltas, in order, each once. */
  lemma DeltasExactlyOnce(o: CacheOptions, ops: seq<Op>, k: string, m: nat, n: nat)
    requires m <= n <= |ops| && WellStarted(ops) && KeepsPackFrom(o, ops, k, m, n)
    ensures Joint(OutList(o, ops, k, m, n)) + PendingAt(o, ops, k, n) ==
            PendingAt(o, ops, k, m) + Joint(InList(o, ops, k, m, n))
  {
    CallsDeltas(o, ops, k, m, n);
    Telescopes(OutList(o, ops, k, m, n), InList(o, ops, k, m, n), PendingList(o, ops, k, m, n));
  }

  ghost predicate NoDeltaStored(c: Cache) {
    forall k :: k in c.entries.items ==> c.entries.items[k].context.delta == None
  }

  lemma StepStoresNoDelta(o: CacheOptions, c: Cache, op: Op, epoch: Option<nat>)
    requires NoDeltaStored(c)
    ensures NoDeltaStored(After(o, c, op, epoch))
  {
    var after := After(o, c, op, epoch);
    forall k | k in after.entries.items
      ensures after.entries.items[k].context.delta == None
    {
      if op.Absorb? && k == op.key && Stores(c, op.key, op.scope, op.response, epoch) {
        assert after.entries.items[k].context == Folded(c, k, op.scope, op.response, op.now).context;
      } else {
        assert k in c.entries.items && after.entries.items[k].context == c.entries.items[k].context;
      }
    }
  }

  /** The pack in the cache never carries a delta of its own. */
  lemma {:induction false} StoredPackHasNoDelta(o: CacheOptions, ops: seq<Op>, n: nat)
    requires n <= |ops| && WellStarted(ops)
    ensures NoDeltaStored(StateAt(o, ops, n))
  {
    if n > 0 {
      StoredPackHasNoDelta(o, ops, n - 1);
      StepStoresNoDelta(o, StateAt(o, ops, n - 1), ops[n - 1], EpochPassed(o, ops, n - 1));
    }
  }

  // ---- Where a pack comes from, and how old it may be ----

  /** An answer for `k` that brings a whole pack; or one that says the pack still holds. */
  predicate Packs(op: Op, k: string) {
    op.Absorb? && op.key == k && !op.response.notModified && !op.response.degraded
  }

  predicate Confirms(op: Op, k: string) { op.Absorb? && op.key == k && (Packs(op, k) || op.response.notModified) }

  predicate StoresOp(c: Cache, op: Op, epoch: Option<nat>) {
    op.Absorb? && Stores(c, op.key, op.scope, op.response, epoch)
  }

  predicate StoredAt(o: CacheOptions, ops: seq<Op>, n: nat)
    requires n < |ops| && WellStarted(ops)
  {
    StoresOp(StateAt(o, ops, n), ops[n], EpochPassed(o, ops, n))
  }

  predicate PacksAt(o: CacheOptions, ops: seq<Op>, n: nat, k: string)
    requires n < |ops| && WellStarted(ops)
  {
    Packs(ops[n], k) && StoredAt(o, ops, n)
  }

  predicate ConfirmsAt(o: CacheOptions, ops: seq<Op>, n: nat, k: string)
    requires n < |ops| && WellStarted(ops)
  {
    Confirms(ops[n], k) && StoredAt(o, ops, n)
  }

  /** The last call before `n` that stored a whole pack for `k`; and the last that stored or confirmed it. */
  ghost predicate LastPack(o: CacheOptions, ops: seq<Op>, n: nat, k: string, m: nat)
    requires n <= |ops| && WellStarted(ops)
  {
    m < n && PacksAt(o, ops, m, k) && forall j :: m < j < n ==> !PacksAt(o, ops, j, k)
  }

  ghost predicate LastConfirm(o: CacheOptions, ops: seq<Op>, n: nat, k: string, m: nat)
    requires n <= |ops| && WellStarted(ops)
  {
    m < n && ConfirmsAt(o, ops, m, k) && forall j :: m < j < n ==> !ConfirmsAt(o, ops, j, k)
  }

  predicate SamePackAs(e: Entry, was: Entry) {
    && e.context.text == was.context.text && e.context.etag == was.context.etag && e.scope == was.scope
    && e.context.origin == was.context.origin
  }

  predicate CameFrom(e: Entry, op: Op)
    requires op.Absorb?
  {
    && e.context.text == op.response.text && e.context.etag == op.response.etag && e.scope == op.scope
    && e.context.origin == op.response.origin
  }

  ghost predicate HasPack(o: CacheOptions, ops: seq<Op>, n: nat, k: string, e: Entry)
    requires n <= |ops| && WellStarted(ops)
  {
    exists m: nat :: LastPack(o, ops, n, k, m) && CameFrom(e, ops[m])
  }

  ghost predicate HasConfirm(o: CacheOptions, ops: seq<Op>, n: nat, k: string, at: real)
    requires n <= |ops| && WellStarted(ops)
  {
    exists m: nat :: LastConfirm(o, ops, n, k, m) && at == ops[m].now
  }

  /** What one call leaves of an entry: a new pack, the pack it was confirmed now, or both as they were. */
  lemma EntryAfter(o: CacheOptions, c: Cache, op: Op, epoch: Option<nat>, k: string)
    requires k in After(o, c, op, epoch).entries.items
    ensures var e, stored := After(o, c, op, epoch).entries.items[k], StoresOp(c, op, epoch);
            if stored && Packs(op, k) then CameFrom(e, op) && e.storedAt == op.now
            else
              && k in c.entries.items && SamePackAs(e, c.entries.items[k])
              && e.storedAt == if stored && Confirms(op, k) then op.now else c.entries.items[k].storedAt
  {
    if op.Absorb? {
      AbsorbedEntry(o, c, op.key, op.scope, op.response, op.deliver, epoch, op.now, k);
    }
  }

  lemma PackStep(o: CacheOptions, ops: seq<Op>, n: nat, k: string, was: Entry, e: Entry)
    requires n < |ops| && WellStarted(ops)
    requires if PacksAt(o, ops, n, k) then CameFrom(e, ops[n]) else HasPack(o, ops, n, k, was) && SamePackAs(e, was)
    ensures HasPack(o, ops, n + 1, k, e)
  {
    if PacksAt(o, ops, n, k) {
      assert LastPack(o, ops, n + 1, k, n);
    } else {
      var m: nat :| LastPack(o, ops, n, k, m) && CameFrom(was, ops[m]);
      assert LastPack(o, ops, n + 1, k, m);
    }
  }

  lemma ConfirmStep(o: CacheOptions, ops: seq<Op>, n: nat, k: string, was: real, at: real)
    requires n < |ops| && WellStarted(ops)
    requires if ConfirmsAt(o, ops, n, k) then at == ops[n].now else HasConfirm(o, ops, n, k, was) && at == was
    ensures HasConfirm(o, ops, n + 1, k, at)
  {
    if ConfirmsAt(o, ops, n, k) {
      assert LastConfirm(o, ops, n + 1, k, n);
    } else {
      var m: nat :| LastConfirm(o, ops, n, k, m) && was == ops[m].now;
      assert LastConfirm(o, ops, n + 1, k, m);
    }
  }

  /** An entry holds the last whole pack stored for its key, and when that was last stored or confirmed. */
  lemma {:induction false} EntriesWereAnswered(o: CacheOptions, ops: seq<Op>, n: nat, k: string)
    requires n <= |ops| && WellStarted(ops) && k in StateAt(o, ops, n).entries.items
    ensures var e := StateAt(o, ops, n).entries.items[k];
            HasPack(o, ops, n, k, e) && HasConfirm(o, ops, n, k, e.storedAt)
  {
    if n > 0 {
      var s, op, epoch := StateAt(o, ops, n - 1), ops[n - 1], EpochPassed(o, ops, n - 1);
      EntryAfter(o, s, op, epoch, k);
      var e := After(o, s, op, epoch).entries.items[k];
      if !PacksAt(o, ops, n - 1, k) {
        EntriesWereAnswered(o, ops, n - 1, k);
      }
      var was := if k in s.entries.items then s.entries.items[k] else e;
      PackStep(o, ops, n - 1, k, was, e);
      ConfirmStep(o, ops, n - 1, k, was.storedAt, e.storedAt);
    }
  }

  /** A pack served at `now` after `n` calls is the last one stored for its key, stored or confirmed no longer than
    * `max_stale` before. */
  ghost predicate Served(o: CacheOptions, ops: seq<Op>, n: nat, k: string, context: Context, now: real)
    requires n <= |ops| && WellStarted(ops)
  {
    exists m: nat, c: nat :: LastPack(o, ops, n, k, m) && LastConfirm(o, ops, n, k, c)
                             && context.text == ops[m].response.text && context.etag == ops[m].response.etag
                             && now - ops[c].now <= o.maxStale
  }

  lemma ServedWhenYoung(o: CacheOptions, ops: seq<Op>, n: nat, k: string, e: Entry, context: Context, now: real)
    requires n <= |ops| && WellStarted(ops)
    requires HasPack(o, ops, n, k, e) && HasConfirm(o, ops, n, k, e.storedAt)
    requires context.text == e.context.text && context.etag == e.context.etag
    ensures Served(o, ops, n, k, context, now) <==> !TooOld(o, e, now)
  {
    var m: nat :| LastPack(o, ops, n, k, m) && CameFrom(e, ops[m]);
    var c: nat :| LastConfirm(o, ops, n, k, c) && e.storedAt == ops[c].now;
    forall d: nat | LastConfirm(o, ops, n, k, d)
      ensures d == c
    {
    }
  }

  /** Whatever `get` and `fallback` serve is the last pack stored for that key, with its own etag, stored or
    * confirmed no longer than `max_stale` ago. */
  lemma ServedWithinMaxStale(o: CacheOptions, ops: seq<Op>, n: nat, k: string, pinned: bool, failure: Failure,
                             now: real)
    requires n <= |ops| && WellStarted(ops)
    ensures var hit := GetResult(o, StateAt(o, ops, n), k, pinned, now);
            hit.Some? ==> Served(o, ops, n, k, hit.value.context, now)
    ensures var served := FallbackResult(o, StateAt(o, ops, n), k, failure, now);
            served.Some? ==> Served(o, ops, n, k, served.value, now)
  {
    if Live(o, StateAt(o, ops, n), k, now) {
      EntriesWereAnswered(o, ops, n, k);
      var e := StateAt(o, ops, n).entries.items[k];
      ServedWhenYoung(o, ops, n, k, e, GetResult(o, StateAt(o, ops, n), k, pinned, now).value.context, now);
      if failure.OtherFailure? {
        ServedWhenYoung(o, ops, n, k, e, FallbackResult(o, StateAt(o, ops, n), k, failure, now).value, now);
      }
    }
  }
  lemma AbsorbedShown(c: Cache, key: string, scope: string, response: Context, deliver: bool, epoch: Option<nat>,
                      now: real)
    requires Stores(c, key, scope, response, epoch) && (response.notModified || response.degraded)
    ensures var e, shown := c.entries.items[key], AbsorbResult(c, key, scope, response, deliver, epoch, now);
            && shown.text == e.context.text && shown.etag == e.context.etag
            && (shown.degraded || response.notModified)
    ensures var e, left := c.entries.items[key], Folded(c, key, scope, response, now);
            SamePackAs(left, e) && left.storedAt == if response.notModified then now else e.storedAt
  {
  }

  /** What an absorbed answer without a pack of its own serves is confirmed by itself when it is a 304. When it is
    * a degraded one, it keeps to `max_stale` exactly when the entry does: nothing looks at its age. */
  lemma AbsorbedServedExactly(o: CacheOptions, ops: seq<Op>, n: nat)
    requires n < |ops| && WellStarted(ops) && StoredAt(o, ops, n)
    requires ops[n].response.notModified || ops[n].response.degraded
    ensures var op, c := ops[n], StateAt(o, ops, n);
            var shown := AbsorbResult(c, op.key, op.scope, op.response, op.deliver, EpochPassed(o, ops, n), op.now);
            op.key in c.entries.items
            && (Served(o, ops, n + 1, op.key, shown, op.now) <==>
                  if op.response.notModified then o.maxStale >= 0.0
                  else !TooOld(o, c.entries.items[op.key], op.now))
  {
    var op, c, epoch := ops[n], StateAt(o, ops, n), EpochPassed(o, ops, n);
    var e := c.entries.items[op.key];
    AbsorbedShown(c, op.key, op.scope, op.response, op.deliver, epoch, op.now);
    EntriesWereAnswered(o, ops, n, op.key);
    var left := Folded(c, op.key, op.scope, op.response, op.now);
    PackStep(o, ops, n, op.key, e, left);
    ConfirmStep(o, ops, n, op.key, e.storedAt, left.storedAt);
    ServedWhenYoung(o, ops, n + 1, op.key, left,
                    AbsorbResult(c, op.key, op.scope, op.response, op.deliver, epoch, op.now), op.now);
  }
}

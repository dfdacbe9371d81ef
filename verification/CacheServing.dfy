/** What the context cache gives its callers, over every sequence of calls: how fresh a pack is called, where an answer
  * is said to come from, and what is dropped when (`src/niadra/_cache.py`). */
module CacheServing {
  import opened Basics
  import opened OrderedDict
  import opened PackCache
  import opened CacheRuns

  // ---- Freshness ----

  /** How `get` answers for a pack stored or confirmed `age` ago. */
  predicate CalledByAge(o: CacheOptions, hit: Hit, pinned: bool, age: real) {
    && age <= o.maxStale
    && (hit.freshness.Fresh? <==> age < o.ttl)
    && (hit.freshness.Stale? <==> age >= o.ttl && (pinned || age < o.ttl + o.staleWhileRevalidate))
    && (hit.freshness.Expired? <==> age >= o.ttl && !pinned && age >= o.ttl + o.staleWhileRevalidate)
  }

  /** Where it says the pack comes from: memory, memory past its time, or, expired, as it first came. */
  predicate OriginByFreshness(hit: Hit, first: string) {
    hit.context.origin == match hit.freshness case Fresh => "cache" case Stale => "stale" case Expired => first
  }

  lemma HitByAge(o: CacheOptions, c: Cache, k: string, pinned: bool, now: real)
    requires k in c.entries.items
    ensures var e, hit := c.entries.items[k], GetResult(o, c, k, pinned, now);
            && (hit.None? <==> now - e.storedAt > o.maxStale)
            && (hit.Some? ==> CalledByAge(o, hit.value, pinned, now - e.storedAt)
                              && OriginByFreshness(hit.value, e.context.origin))
            && (hit.Some? && hit.value.freshness.Expired? ==> hit.value.context == e.context)
  {
  }

  /** In every run, a hit is called fresh, stale or expired by the time since its pack was last stored or confirmed,
    * and there is one for a held pack exactly while that is within `max_stale`. */
  lemma FreshnessExactly(o: CacheOptions, ops: seq<Op>, n: nat, k: string, pinned: bool, now: real, m: nat, c: nat)
    requires n <= |ops| && WellStarted(ops) && k in StateAt(o, ops, n).entries.items
    requires LastPack(o, ops, n, k, m) && LastConfirm(o, ops, n, k, c)
    ensures var hit := GetResult(o, StateAt(o, ops, n), k, pinned, now);
            && (hit.Some? <==> now - ops[c].now <= o.maxStale)
            && (hit.Some? ==> CalledByAge(o, hit.value, pinned, now - ops[c].now)
                              && OriginByFreshness(hit.value, ops[m].response.origin))
  {
    EntriesWereAnswered(o, ops, n, k);
    var e := StateAt(o, ops, n).entries.items[k];
    var m': nat :| LastPack(o, ops, n, k, m') && CameFrom(e, ops[m']);
    var c': nat :| LastConfirm(o, ops, n, k, c') && e.storedAt == ops[c'].now;
    assert m' == m && c' == c;
    HitByAge(o, StateAt(o, ops, n), k, pinned, now);
  }

  /** Every held pack has those two calls, and no hit comes without a held pack. */
  lemma HeldExactly(o: CacheOptions, ops: seq<Op>, n: nat, k: string, pinned: bool, now: real)
    requires n <= |ops| && WellStarted(ops)
    ensures k in StateAt(o, ops, n).entries.items ==>
              exists m: nat, c: nat :: LastPack(o, ops, n, k, m) && LastConfirm(o, ops, n, k, c)
    ensures k !in StateAt(o, ops, n).entries.items ==> GetResult(o, StateAt(o, ops, n), k, pinned, now).None?
  {
    if k in StateAt(o, ops, n).entries.items {
      EntriesWereAnswered(o, ops, n, k);
    }
  }

  // ---- What an absorbed answer and a failure show ----

  /** An answer under a moved epoch, or without a pack of its own and none held, is shown as it came; a 304 shows the
    * held pack as cached, with what lives outside it and its blocks brought up to date; a degraded answer shows it as
    * the last good one; a pack is shown as it came. */
  lemma AbsorbShows(c: Cache, key: string, scope: string, response: Context, deliver: bool, epoch: Option<nat>,
                    now: real)
    ensures var shown := AbsorbResult(c, key, scope, response, deliver, epoch, now);
            var current := if scope in c.epochs.items then c.epochs.items[scope] else 0;
            var held := key in c.entries.items;
            if (epoch.Some? && epoch.value != current) || (!held && (response.notModified || response.degraded)) then
              shown == response
            else if response.notModified then
              var pack := c.entries.items[key].context;
              shown.(delta := pack.delta) ==
              pack.(outside := response.outside, blocks := pack.blocks + response.blocks, origin := "cache")
            else if response.degraded then
              var pack := c.entries.items[key].context;
              shown.(delta := pack.delta) == pack.(origin := "last_good", degraded := true)
            else shown.(delta := response.delta) == response
  {
  }

  /** A failure serves a held pack within `max_stale` as the last good one, unless access was refused. */
  lemma FallbackServesExactly(o: CacheOptions, c: Cache, k: string, failure: Failure, now: real)
    ensures var served := FallbackResult(o, c, k, failure, now);
            && (served.Some? <==>
                  failure == OtherFailure && k in c.entries.items && now - c.entries.items[k].storedAt <= o.maxStale)
            && (served.Some? ==>
                  var pack := c.entries.items[k].context;
                  served.value.(delta := pack.delta) == pack.(origin := "last_good", degraded := true))
  {
  }

  // ---- What is dropped ----

  /** A pack past `max_stale` goes when it is asked for, and nothing else with it. */
  lemma TooOldIsDropped(o: CacheOptions, c: Cache, op: Op, epoch: Option<nat>)
    requires op.Get? || op.Has? || (op.Fallback? && op.failure == OtherFailure)
    ensures var aged, after := op.key in c.entries.items && op.now - c.entries.items[op.key].storedAt > o.maxStale,
                              After(o, c, op, epoch);
            && after.epochs == c.epochs
            && after.entries.items.Keys == c.entries.items.Keys - (if aged then {op.key} else {})
            && forall k :: k in after.entries.items && k != op.key ==> after.entries.items[k] == c.entries.items[k]
  {
  }

  /** A 401 empties the cache, a 403 drops its key, a purged scope drops its own packs; no other goes with them. */
  lemma RefusalsDropExactly(o: CacheOptions, c: Cache, k: string, scope: string, now: real)
    ensures AfterFallback(o, c, k, Authentication, now).entries.items == map[]
    ensures AfterFallback(o, c, k, Authentication, now).epochs == c.epochs
    ensures var after := AfterFallback(o, c, k, PermissionDenied, now);
            after.epochs == c.epochs && after.entries.items == c.entries.items - {k}
    ensures var after := AfterPurgeScope(c, scope).entries.items;
            forall key :: if key in c.entries.items && c.entries.items[key].scope != scope
                          then key in after && after[key] == c.entries.items[key]
                          else key !in after
  {
  }

  /** A hit or a stored answer makes its key the newest. Only a new pack evicts, and then the oldest keys, down to
    * `max_entries`. */
  lemma OldestAreEvicted(o: CacheOptions, c: Cache, op: Op, epoch: Option<nat>)
    requires ValidCache(c)
    requires (op.Get? && Live(o, c, op.key, op.now)) || StoresOp(c, op, epoch)
    ensures var used, after := Without(c.entries.order, op.key) + [op.key], After(o, c, op, epoch).entries;
            if op.Absorb? && !op.response.notModified && !op.response.degraded && |used| > o.maxEntries
            then after.order == used[|used| - o.maxEntries..]
            else after.order == used
  {
  }

  // ---- Joining deltas ----

  lemma {:induction false} JoinedIsNothing(deltas: seq<string>)
    requires forall i :: 0 <= i < |deltas| ==> deltas[i] != ""
    ensures Joined(deltas) == None <==> deltas == []
  {
    if |deltas| > 1 {
      JoinGrows(deltas);
    }
  }

  lemma JoinGrows(deltas: seq<string>)
    requires |deltas| > 1
    ensures var n := |deltas| - 1;
            && Join(deltas) == Join(deltas[..n]) + "\n\n" + deltas[n]
            && |Join(deltas)| == |Join(deltas[..n])| + 2 + |deltas[n]|
  {
  }
}

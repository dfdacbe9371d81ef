/** Epochs over every sequence of calls on the context cache: what an epoch counts, when it is forgotten, and which
  * late answers it keeps out of a purged scope (`src/niadra/_cache.py`). */
module CacheEpochs {
  import opened Basics
  import opened OrderedDict
  import opened PackCache
  import opened CacheRuns

  // ---- The order of the purges ----

  /** The scopes purged before the n-th call, by their latest purge. */
  function Recency(ops: seq<Op>, n: nat): seq<string>
    requires n <= |ops|
  {
    if n == 0 then []
    else
      match ops[n - 1]
      case PurgeScope(scope) => Without(Recency(ops, n - 1), scope) + [scope]
      case _ => Recency(ops, n - 1)
  }

  /** The other scopes purged since the latest purge of `scope`. */
  function OthersSince(ops: seq<Op>, n: nat, scope: string): set<string>
    requires n <= |ops|
  {
    if n == 0 then {}
    else
      match ops[n - 1]
      case PurgeScope(purged) => if purged == scope then {} else OthersSince(ops, n - 1, scope) + {purged}
      case _ => OthersSince(ops, n - 1, scope)
  }

  function PurgedIn(ops: seq<Op>, m: nat, n: nat): set<string>
    requires m <= n <= |ops|
  {
    set i | m <= i < n && ops[i].PurgeScope? :: ops[i].scope
  }

  /** The purges of a scope since its epoch was last forgotten: once 4096 other scopes were purged after its
    * latest purge, it starts over. */
  function Remembered(ops: seq<Op>, n: nat, scope: string): nat
    requires n <= |ops|
  {
    if n == 0 then 0
    else
      match ops[n - 1]
      case PurgeScope(purged) =>
        if purged == scope then Remembered(ops, n - 1, scope) + 1
        else if |OthersSince(ops, n, scope)| >= MAX_EPOCHS then 0
        else Remembered(ops, n - 1, scope)
      case _ => Remembered(ops, n - 1, scope)
  }

  /** What comes after `x`. */
  function Behind<K(==)>(s: seq<K>, x: K): seq<K> {
    if s == [] then [] else if s[0] == x then s[1..] else Behind(s[1..], x)
  }

  lemma {:induction false} WithoutConcat<K(!new)>(a: seq<K>, b: seq<K>, x: K)
    ensures Without(a + b, x) == Without(a, x) + Without(b, x)
  {
    if a == [] {
      assert a + b == b;
    } else {
      WithoutConcat(a[1..], b, x);
      assert (a + b)[1..] == a[1..] + b;
      if a[0] != x {
        SeqAssoc([a[0]], Without(a[1..], x), Without(b, x));
      }
    }
  }

  lemma {:induction false} WithoutSize<K(!new)>(s: seq<K>, x: K)
    requires Distinct(s)
    ensures |Without(s, x)| == if x in s then |s| - 1 else |s|
  {
    if s != [] && s[0] != x {
      WithoutSize(s[1..], x);
    }
  }

  lemma LastOfConcat<T>(a: seq<T>, b: seq<T>, n: nat)
    requires |b| >= n
    ensures Last(a + b, n) == Last(b, n)
  {
    if |a + b| > n {
      assert (a + b)[|a + b| - n..] == b[|b| - n..];
    } else {
      assert a + b == b;
    }
  }

  /** Keeping the last `n` places commutes with moving one to the end. */
  lemma LastOfMoved<K(!new)>(s: seq<K>, x: K, n: nat)
    requires Distinct(s)
    ensures Last(Without(Last(s, n), x) + [x], n) == Last(Without(s, x) + [x], n)
  {
    if |s| > n {
      var head, tail := s[..|s| - n], s[|s| - n..];
      assert s == head + tail;
      WithoutConcat(head, tail, x);
      WithoutSize(tail, x);
      var moved := Without(tail, x) + [x];
      assert Without(s, x) + [x] == Without(head, x) + moved;
      LastOfConcat(Without(head, x), moved, n);
      SeqAssoc(Without(head, x), Without(tail, x), [x]);
    }
  }

  lemma {:induction false} BehindSize<K(!new)>(s: seq<K>, x: K, n: nat)
    requires Distinct(s) && x in s
    ensures |Behind(s, x)| < |s|
    ensures x in Last(s, n) <==> |Behind(s, x)| < n
  {
    if s[0] == x {
      if |s| > n {
        assert forall i :: 0 <= i < n ==> Last(s, n)[i] == s[|s| - n + i];
      }
    } else {
      BehindSize(s[1..], x, n);
      if |s| > n {
        assert Last(s, n) == Last(s[1..], n);
      }
    }
  }

  lemma {:induction false} BehindDistinct<K(!new)>(s: seq<K>, x: K)
    requires Distinct(s)
    ensures Distinct(Behind(s, x))
  {
    if s != [] && s[0] != x {
      BehindDistinct(s[1..], x);
    }
  }

  lemma {:induction false} BehindMoved<K(!new)>(s: seq<K>, y: K, x: K)
    requires Distinct(s) && x != y && x in s
    ensures Behind(Without(s, y) + [y], x) == Without(Behind(s, x), y) + [y]
  {
    if s[0] == x {
      assert (Without(s, y) + [y])[1..] == Without(s[1..], y) + [y];
    } else {
      BehindMoved(s[1..], y, x);
      if s[0] != y {
        assert (Without(s, y) + [y])[1..] == Without(s[1..], y) + [y];
      }
    }
  }

  lemma {:induction false} BehindAppended<K(!new)>(s: seq<K>, x: K)
    requires x !in s
    ensures Behind(s + [x], x) == []
  {
    if s != [] {
      BehindAppended(s[1..], x);
      assert (s + [x])[1..] == s[1..] + [x];
    }
  }

  lemma {:induction false} RecencyDistinct(ops: seq<Op>, n: nat)
    requires n <= |ops|
    ensures Distinct(Recency(ops, n))
  {
    if n > 0 {
      RecencyDistinct(ops, n - 1);
      if ops[n - 1].PurgeScope? {
        WithoutDistinct(Recency(ops, n - 1), ops[n - 1].scope);
      }
    }
  }

  lemma {:induction false} RecencyHolds(ops: seq<Op>, n: nat, scope: string)
    requires n <= |ops|
    ensures scope in Recency(ops, n) <==> PurgedBefore(ops, n, scope)
  {
    if n > 0 {
      RecencyHolds(ops, n - 1, scope);
      PurgedStep(ops, n - 1, scope);
    }
  }

  lemma PurgedStep(ops: seq<Op>, n: nat, scope: string)
    requires n < |ops|
    ensures PurgedBefore(ops, n + 1, scope) <==> PurgedBefore(ops, n, scope) || ops[n] == PurgeScope(scope)
  {
  }

  ghost predicate PurgedBefore(ops: seq<Op>, n: nat, scope: string)
    requires n <= |ops|
  {
    exists i :: 0 <= i < n && ops[i] == PurgeScope(scope)
  }

  /** What is behind a scope in that order is what was purged since. */
  lemma {:induction false} BehindIsSince(ops: seq<Op>, n: nat, scope: string)
    requires n <= |ops| && scope in Recency(ops, n)
    ensures forall k :: k in Behind(Recency(ops, n), scope) <==> k in OthersSince(ops, n, scope)
    ensures |Behind(Recency(ops, n), scope)| == |OthersSince(ops, n, scope)|
  {
    RecencyDistinct(ops, n - 1);
    var before := Recency(ops, n - 1);
    if ops[n - 1] == PurgeScope(scope) {
      BehindAppended(Without(before, scope), scope);
    } else {
      BehindIsSince(ops, n - 1, scope);
      if ops[n - 1].PurgeScope? {
        BehindMoved(before, ops[n - 1].scope, scope);
      }
    }
    RecencyDistinct(ops, n);
    BehindDistinct(Recency(ops, n), scope);
    OrderSize(Behind(Recency(ops, n), scope), OthersSince(ops, n, scope));
  }

  // ---- What an epoch is ----

  function EpochAt(o: CacheOptions, ops: seq<Op>, n: nat, scope: string): nat
    requires n <= |ops| && WellStarted(ops)
  {
    EpochOf(StateAt(o, ops, n), scope)
  }

  lemma OnlyPurgesMoveEpochs(o: CacheOptions, c: Cache, op: Op, epoch: Option<nat>)
    requires !op.PurgeScope?
    ensures After(o, c, op, epoch).epochs == c.epochs
  {
  }

  lemma PurgeMovesEpochs(c: Cache, purged: string, scope: string)
    requires ValidCache(c)
    ensures var after := AfterPurgeScope(c, purged);
            && after.epochs.order == Last(Without(c.epochs.order, purged) + [purged], MAX_EPOCHS)
            && EpochOf(after, scope) == if scope !in after.epochs.order then 0
                                        else EpochOf(c, scope) + (if purged == scope then 1 else 0)
  {
    var moved := c.epochs.MoveIn(purged, EpochOf(c, purged) + 1);
    MoveInKeepsValid(c.epochs, purged, EpochOf(c, purged) + 1);
    TrimKeepsValid(moved, MAX_EPOCHS);
  }

  lemma {:induction false} OrderIsRecency(o: CacheOptions, ops: seq<Op>, n: nat)
    requires n <= |ops| && WellStarted(ops)
    ensures StateAt(o, ops, n).epochs.order == Last(Recency(ops, n), MAX_EPOCHS)
  {
    if n > 0 {
      var c, op := StateAt(o, ops, n - 1), ops[n - 1];
      OrderIsRecency(o, ops, n - 1);
      if op.PurgeScope? {
        StateIsValid(o, ops, n - 1);
        RecencyDistinct(ops, n - 1);
        PurgeMovesEpochs(c, op.scope, op.scope);
        LastOfMoved(Recency(ops, n - 1), op.scope, MAX_EPOCHS);
      } else {
        OnlyPurgesMoveEpochs(o, c, op, EpochPassed(o, ops, n - 1));
      }
    }
  }

  lemma KeptExactly(o: CacheOptions, ops: seq<Op>, n: nat, scope: string)
    requires n <= |ops| && WellStarted(ops)
    ensures scope in StateAt(o, ops, n).epochs.order <==>
              PurgedBefore(ops, n, scope) && |OthersSince(ops, n, scope)| < MAX_EPOCHS
  {
    OrderIsRecency(o, ops, n);
    RecencyDistinct(ops, n);
    RecencyHolds(ops, n, scope);
    if scope in Recency(ops, n) {
      BehindIsSince(ops, n, scope);
      BehindSize(Recency(ops, n), scope, MAX_EPOCHS);
    }
  }

  lemma NotKeptIsZero(c: Cache, scope: string)
    requires ValidCache(c) && scope !in c.epochs.order
    ensures EpochOf(c, scope) == 0
  {
  }

  /** In every run an epoch is the purges of its scope since it was last forgotten. */
  lemma {:induction false} EpochIsRemembered(o: CacheOptions, ops: seq<Op>, n: nat, scope: string)
    requires n <= |ops| && WellStarted(ops)
    ensures EpochAt(o, ops, n, scope) == Remembered(ops, n, scope)
  {
    if n > 0 {
      var c, op := StateAt(o, ops, n - 1), ops[n - 1];
      EpochIsRemembered(o, ops, n - 1, scope);
      if op.PurgeScope? {
        StateIsValid(o, ops, n - 1);
        PurgeMovesEpochs(c, op.scope, scope);
        KeptExactly(o, ops, n, scope);
        KeptExactly(o, ops, n - 1, scope);
        if !PurgedBefore(ops, n, scope) {
          NotKeptIsZero(c, scope);
        }
        assert op.scope == scope ==> PurgedBefore(ops, n, scope);
      } else {
        OnlyPurgesMoveEpochs(o, c, op, EpochPassed(o, ops, n - 1));
      }
    }
  }

  // ---- Which answers are stored ----

  /** The scope was purged and its epoch is not forgotten. */
  ghost predicate Known(ops: seq<Op>, n: nat, scope: string)
    requires n <= |ops|
  {
    PurgedBefore(ops, n, scope) && |OthersSince(ops, n, scope)| < MAX_EPOCHS
  }

  /** No call from `i` up to `j` makes a known epoch forgotten. */
  ghost predicate KeptBetween(ops: seq<Op>, i: nat, j: nat, scope: string)
    requires i <= j <= |ops|
  {
    forall m :: i <= m < j && Known(ops, m, scope) ==> Known(ops, m + 1, scope)
  }

  lemma KnownStep(ops: seq<Op>, n: nat, scope: string)
    requires n < |ops|
    ensures ops[n] == PurgeScope(scope) ==> Known(ops, n + 1, scope)
    ensures Known(ops, n + 1, scope) && ops[n] != PurgeScope(scope) ==> Known(ops, n, scope)
  {
    PurgedStep(ops, n, scope);
    if ops[n].PurgeScope? && ops[n].scope != scope {
      SubsetSize(OthersSince(ops, n, scope), OthersSince(ops, n + 1, scope));
    }
  }

  lemma {:induction false} KnownIsPositive(ops: seq<Op>, n: nat, scope: string)
    requires n <= |ops|
    ensures Known(ops, n, scope) <==> Remembered(ops, n, scope) > 0
  {
    if n > 0 {
      KnownIsPositive(ops, n - 1, scope);
      KnownStep(ops, n - 1, scope);
    }
  }

  lemma {:induction false} KeptGrows(ops: seq<Op>, i: nat, j: nat, scope: string)
    requires i <= j <= |ops| && KeptBetween(ops, i, j, scope)
    ensures Remembered(ops, i, scope) <= Remembered(ops, j, scope)
  {
    if i < j {
      KeptGrows(ops, i, j - 1, scope);
      KnownIsPositive(ops, j - 1, scope);
      KnownIsPositive(ops, j, scope);
    }
  }

  /** In every run, an answer is stored exactly when its scope's purges since it was last forgotten are as many as
    * when its read began, and it brings a pack or finds an entry. */
  lemma StoredExactly(o: CacheOptions, ops: seq<Op>, j: nat)
    requires j < |ops| && WellStarted(ops) && ops[j].Absorb? && ops[j].started.Some?
    ensures StoredAt(o, ops, j) <==>
              && Remembered(ops, ops[j].started.value, ops[j].scope) == Remembered(ops, j, ops[j].scope)
              && (Packs(ops[j], ops[j].key) || ops[j].key in StateAt(o, ops, j).entries.items)
    ensures !StoredAt(o, ops, j) ==> StateAt(o, ops, j + 1) == StateAt(o, ops, j)
  {
    EpochIsRemembered(o, ops, ops[j].started.value, ops[j].scope);
    EpochIsRemembered(o, ops, j, ops[j].scope);
    NotStored(o, StateAt(o, ops, j), ops[j], EpochPassed(o, ops, j));
  }

  lemma NotStored(o: CacheOptions, c: Cache, op: Op, epoch: Option<nat>)
    requires op.Absorb?
    ensures !StoresOp(c, op, epoch) ==> After(o, c, op, epoch) == c
  {
  }

  /** While its scope's epoch is not forgotten, an answer that carries the epoch its read began under changes
    * nothing once the scope was purged after that beginning, whatever happened in between. */
  lemma LateAnswerIsNotStored(o: CacheOptions, ops: seq<Op>, i: nat, p: nat, j: nat)
    requires i <= p < j < |ops| && WellStarted(ops)
    requires ops[j].Absorb? && ops[j].started == Some(i) && ops[p] == PurgeScope(ops[j].scope)
    requires KeptBetween(ops, i, j, ops[j].scope)
    ensures StateAt(o, ops, j + 1) == StateAt(o, ops, j) && !StoredAt(o, ops, j)
  {
    PurgeRaises(ops, i, p, j, ops[j].scope);
    StoredExactly(o, ops, j);
  }

  lemma PurgeRaises(ops: seq<Op>, i: nat, p: nat, j: nat, scope: string)
    requires i <= p < j <= |ops| && ops[p] == PurgeScope(scope) && KeptBetween(ops, i, j, scope)
    ensures Remembered(ops, i, scope) < Remembered(ops, j, scope)
  {
    KeptGrows(ops, i, p, scope);
    KeptGrows(ops, p + 1, j, scope);
  }

  /** A client that purges no more than 4096 scopes in all forgets no epoch. */
  lemma FewScopesAreKept(ops: seq<Op>, i: nat, j: nat, scope: string)
    requires i <= j <= |ops| && |PurgedIn(ops, 0, j)| <= MAX_EPOCHS
    ensures KeptBetween(ops, i, j, scope)
  {
    forall m | i <= m < j && Known(ops, m, scope)
      ensures Known(ops, m + 1, scope)
    {
      PurgedStep(ops, m, scope);
      OthersAreFew(ops, m + 1, j, scope);
    }
  }

  lemma OthersAreFew(ops: seq<Op>, n: nat, j: nat, scope: string)
    requires n <= j <= |ops| && PurgedBefore(ops, n, scope)
    ensures |OthersSince(ops, n, scope)| < |PurgedIn(ops, 0, j)|
  {
    OthersWerePurged(ops, n, scope);
    var k :| 0 <= k < n && ops[k] == PurgeScope(scope);
    assert scope in PurgedIn(ops, 0, j);
    FewerWithout(OthersSince(ops, n, scope), PurgedIn(ops, 0, n), PurgedIn(ops, 0, j), scope);
  }

  lemma FewerWithout(a: set<string>, b: set<string>, c: set<string>, x: string)
    requires a <= b - {x} && b <= c && x in c
    ensures |a| < |c|
  {
    SubsetSize(a, c - {x});
  }

  lemma {:induction false} OthersWerePurged(ops: seq<Op>, n: nat, scope: string)
    requires n <= |ops|
    ensures OthersSince(ops, n, scope) <= PurgedIn(ops, 0, n) - {scope}
  {
    if n > 0 {
      OthersWerePurged(ops, n - 1, scope);
      PurgedInStep(ops, 0, n - 1);
    }
  }

  /** An entry of a scope comes from an entry of that scope or from an answer stored for it. */
  lemma WhereEntriesComeFrom(o: CacheOptions, c: Cache, op: Op, epoch: Option<nat>, k: string)
    requires k in After(o, c, op, epoch).entries.items
    ensures var scope := After(o, c, op, epoch).entries.items[k].scope;
            || (k in c.entries.items && c.entries.items[k].scope == scope && op != PurgeScope(scope))
            || (op.Absorb? && op.scope == scope && Stores(c, op.key, scope, op.response, epoch))
  {
    match op
    case Absorb(key, scope, response, deliver, _, now) =>
      if k == key && Stores(c, key, scope, response, epoch) {
        assert After(o, c, op, epoch).entries.items[k].scope == Folded(c, key, scope, response, now).scope;
      }
    case PurgeScope(scope) =>
      assert k !in KeysOf(c.entries, scope);
    case _ =>
  }

  /** A purged scope stays empty until an answer to a read begun after the purge is absorbed, or one to an earlier
    * read since whose start the epoch was forgotten. */
  lemma {:induction false} PurgedScopeStaysEmpty(
    o: CacheOptions, ops: seq<Op>, scope: string, p: nat, n: nat)
    requires p < n <= |ops| && WellStarted(ops) && ops[p] == PurgeScope(scope)
    requires forall j :: p < j < n && ops[j].Absorb? && ops[j].scope == scope ==>
                           && ops[j].started.Some? && ops[j].started.value <= p
                           && KeptBetween(ops, ops[j].started.value, j, scope)
    ensures forall k :: k in StateAt(o, ops, n).entries.items ==>
                          StateAt(o, ops, n).entries.items[k].scope != scope
  {
    if n > p + 1 {
      PurgedScopeStaysEmpty(o, ops, scope, p, n - 1);
      if ops[n - 1].Absorb? && ops[n - 1].scope == scope {
        LateAnswerIsNotStored(o, ops, ops[n - 1].started.value, p, n - 1);
      }
    }
    forall k | k in StateAt(o, ops, n).entries.items
      ensures StateAt(o, ops, n).entries.items[k].scope != scope
    {
      WhereEntriesComeFrom(o, StateAt(o, ops, n - 1), ops[n - 1], EpochPassed(o, ops, n - 1), k);
    }
  }

  // ---- What forgetting an epoch, or emptying the cache, lets in ----

  predicate LatestPurge(ops: seq<Op>, p: nat, n: nat, scope: string)
    requires p < n <= |ops|
  {
    ops[p] == PurgeScope(scope) && forall m :: p < m < n ==> ops[m] != PurgeScope(scope)
  }

  lemma {:induction false} SinceIsPurgedIn(ops: seq<Op>, p: nat, n: nat, scope: string)
    requires p < n <= |ops| && LatestPurge(ops, p, n, scope)
    ensures OthersSince(ops, n, scope) == PurgedIn(ops, p + 1, n)
  {
    if n == p + 1 {
      assert PurgedIn(ops, p + 1, n) == {};
    } else {
      SinceIsPurgedIn(ops, p, n - 1, scope);
      PurgedInStep(ops, p + 1, n - 1);
    }
  }

  lemma {:induction false} RememberedSince(ops: seq<Op>, p: nat, n: nat, scope: string)
    requires p < n <= |ops| && LatestPurge(ops, p, n, scope)
    ensures Remembered(ops, n, scope) ==
            if |OthersSince(ops, n, scope)| >= MAX_EPOCHS then 0 else Remembered(ops, p, scope) + 1
  {
    if n > p + 1 {
      RememberedSince(ops, p, n - 1, scope);
      SubsetSize(OthersSince(ops, n - 1, scope), OthersSince(ops, n, scope));
    }
  }

  lemma PurgedInStep(ops: seq<Op>, m: nat, n: nat)
    requires m <= n < |ops|
    ensures PurgedIn(ops, m, n + 1) == PurgedIn(ops, m, n) + (if ops[n].PurgeScope? then {ops[n].scope} else {})
  {
  }

  /** A pack for a scope whose latest purge came after the read began: once 4096 other scopes were purged after that
    * it is stored exactly when the epoch was none at the start too; before, exactly when the epoch was forgotten in
    * between and has come back to what it was. */
  lemma ForgettingLetsALateAnswerIn(o: CacheOptions, ops: seq<Op>, i: nat, p: nat, j: nat)
    requires i <= p < j < |ops| && WellStarted(ops)
    requires ops[j].Absorb? && ops[j].started == Some(i) && Packs(ops[j], ops[j].key)
    requires LatestPurge(ops, p, j, ops[j].scope)
    ensures var scope := ops[j].scope;
            StoredAt(o, ops, j) <==>
              if |PurgedIn(ops, p + 1, j)| >= MAX_EPOCHS then Remembered(ops, i, scope) == 0
              else Remembered(ops, i, scope) == Remembered(ops, p, scope) + 1
    ensures |PurgedIn(ops, p + 1, j)| < MAX_EPOCHS && StoredAt(o, ops, j) ==>
              !KeptBetween(ops, i, p, ops[j].scope)
  {
    SinceIsPurgedIn(ops, p, j, ops[j].scope);
    RememberedSince(ops, p, j, ops[j].scope);
    StoredExactly(o, ops, j);
    if KeptBetween(ops, i, p, ops[j].scope) {
      KeptGrows(ops, i, p, ops[j].scope);
    }
  }

  predicate Empties(op: Op) { op.Clear? || (op.Fallback? && op.failure.Authentication?) }

  lemma {:induction false} EmptiedStaysEmpty(o: CacheOptions, ops: seq<Op>, f: nat, n: nat, k: string)
    requires f < n <= |ops| && WellStarted(ops) && Empties(ops[f])
    requires forall m :: f < m < n && ops[m].Absorb? ==> ops[m].key != k
    ensures k !in StateAt(o, ops, n).entries.items
  {
    if n > f + 1 {
      EmptiedStaysEmpty(o, ops, f, n - 1, k);
      if k in StateAt(o, ops, n).entries.items {
        EntryAfter(o, StateAt(o, ops, n - 1), ops[n - 1], EpochPassed(o, ops, n - 1), k);
      }
    }
  }

  /** Emptying the cache on a 401 moves no epoch: the first answer for a key after it, to a read begun before it, is
    * stored exactly when it brings a pack and no purge moved its epoch. */
  lemma EmptyingLetsALateAnswerIn(o: CacheOptions, ops: seq<Op>, i: nat, f: nat, j: nat)
    requires i <= f < j < |ops| && WellStarted(ops) && Empties(ops[f])
    requires ops[j].Absorb? && ops[j].started == Some(i)
    requires forall m :: f < m < j && ops[m].Absorb? ==> ops[m].key != ops[j].key
    ensures StoredAt(o, ops, j) <==>
              && Packs(ops[j], ops[j].key)
              && Remembered(ops, i, ops[j].scope) == Remembered(ops, j, ops[j].scope)
  {
    EmptiedStaysEmpty(o, ops, f, j, ops[j].key);
    StoredExactly(o, ops, j);
  }
}

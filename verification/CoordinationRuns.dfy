/** Every run of the coordination store (`src/niadra_mock/coordinate.py`) with a clock that never goes back. */
module CoordinationRuns {
  import opened Basics
  import opened Coordination

  datatype Op =
    | Check(r: CheckRequest, suppressed: bool, now: real)
    | Declare(key: string, state: string, attempt: Option<int>)
    | ClaimTarget(claim: ClaimRequest, id: string, reading: real, now: real)
    | Release(id: string, now: real)
    | Budget(purpose: string, limit: int)

  function After(s: Store, op: Op): Store {
    match op
    case Check(r, suppressed, now) => AfterCheck(s, r, suppressed, now)
    case Declare(key, state, attempt) => AfterDeclare(s, key, state, attempt)
    case ClaimTarget(claim, id, reading, _) => AfterClaim(s, claim, id, reading)
    case Release(id, now) => AfterRelease(s, id, now)
    case Budget(purpose, limit) => s.(budgets := s.budgets[purpose := limit])
  }

  function StateAt(ops: seq<Op>, n: nat): Store
    requires n <= |ops|
  {
    if n == 0 then EMPTY else After(StateAt(ops, n - 1), ops[n - 1])
  }

  // ---- Claims ----

  /** The clock after a call: no call reads a moment before an earlier call's, except a claim, whose reading may
    * be as old as it likes. */
  function Clock(ops: seq<Op>, n: nat, start: real): real
    requires n <= |ops|
  {
    if n == 0 then start
    else
      match ops[n - 1]
      case Check(_, _, now) => now
      case ClaimTarget(_, _, _, now) => now
      case Release(_, now) => now
      case _ => Clock(ops, n - 1, start)
  }

  predicate Timely(ops: seq<Op>, start: real) {
    forall i :: 0 <= i < |ops| ==>
      && Clock(ops, i, start) <= Clock(ops, i + 1, start)
      && (ops[i].ClaimTarget? ==> ops[i].reading <= ops[i].now && ops[i].id !in StateAt(ops, i).claims)
  }

  /** Two holders never both hold a target from `now` on. */
  predicate Exclusive(s: Store, now: real) {
    forall a, b :: a in s.claims && b in s.claims && s.claims[a].target == s.claims[b].target
                   && s.claims[a].holder != s.claims[b].holder ==>
                     !(Live(s.claims[a], now) && Live(s.claims[b], now))
  }

  /** With a clock that never goes back, two different holders never hold live claims on one target. */
  lemma {:induction false} ClaimsAreExclusive(ops: seq<Op>, n: nat, start: real)
    requires n <= |ops| && Timely(ops, start)
    ensures Exclusive(StateAt(ops, n), Clock(ops, n, start))
  {
    if n > 0 {
      ClaimsAreExclusive(ops, n - 1, start);
      assert Clock(ops, n - 1, start) <= Clock(ops, n - 1 + 1, start);
      var s, op := StateAt(ops, n - 1), ops[n - 1];
      match op
      case ClaimTarget(claim, id, reading, now) =>
        ClaimKeepsExclusive(s, claim, id, reading, Clock(ops, n - 1, start), now);
      case Release(id, now) => ReleaseKeepsExclusive(s, id, Clock(ops, n - 1, start), now);
      case _ => assert StateAt(ops, n).claims == s.claims;
    }
  }

  lemma ReleaseKeepsExclusive(s: Store, id: string, before: real, now: real)
    requires Exclusive(s, before) && before <= now
    ensures Exclusive(AfterRelease(s, id, now), now)
  {
  }

  lemma ClaimKeepsExclusive(s: Store, r: ClaimRequest, id: string, reading: real, before: real, now: real)
    requires Exclusive(s, before) && id !in s.claims && reading <= now && before <= now
    ensures Exclusive(AfterClaim(s, r, id, reading), now)
  {
    if Grants(s, r, reading) {
      forall a | a in s.claims && s.claims[a].target == TargetOf(r).value && s.claims[a].holder != r.holder
        ensures !Live(s.claims[a], now)
      {
        assert !Live(s.claims[a], reading);
      }
    }
  }

  // ---- Effects ----

  predicate ReservesAt(ops: seq<Op>, i: nat, key: string)
    requires i < |ops|
  {
    ops[i].Check? && ops[i].r.effectKey == Some(key) && Reserves(StateAt(ops, i), ops[i].r)
  }

  /** The attempt a reservation is given. */
  function AttemptAt(ops: seq<Op>, i: nat, key: string): int
    requires i < |ops|
  {
    NextAttempt(StateAt(ops, i), key)
  }

  /** A declaration that frees the key: of a state other than reserved, done or unknown. */
  predicate Frees(op: Op, key: string) { op.Declare? && op.key == key && !Blocks(Some(op.state)) }

  lemma StepKeepsReserved(s: Store, op: Op, key: string, attempt: int)
    requires key in s.effects && s.effects[key].attempt >= attempt
    ensures var t := After(s, op);
            && key in t.effects && t.effects[key].attempt >= attempt
            && (Blocks(s.effects[key].state) && !Frees(op, key) ==> Blocks(t.effects[key].state))
  {
  }

  /** What holds of a key after its reservation at `i`, up to `n`. */
  lemma {:induction false} SinceReserved(ops: seq<Op>, i: nat, n: nat, key: string)
    requires i < n <= |ops| && ReservesAt(ops, i, key)
    ensures var s := StateAt(ops, n);
            && key in s.effects && s.effects[key].attempt >= AttemptAt(ops, i, key)
            && ((forall d :: i < d < n ==> !Frees(ops[d], key)) ==> Blocks(s.effects[key].state))
    decreases n
  {
    if n > i + 1 {
      SinceReserved(ops, i, n - 1, key);
      StepKeepsReserved(StateAt(ops, n - 1), ops[n - 1], key, AttemptAt(ops, i, key));
    } else {
      assert StateAt(ops, n) == AfterCheck(StateAt(ops, i), ops[i].r, ops[i].suppressed, ops[i].now);
    }
  }

  /** Per key the reserved attempts strictly increase, and a second reservation needs a declaration in between
    * that frees the key. */
  lemma ReservationsIncrease(ops: seq<Op>, i: nat, j: nat, key: string)
    requires i < j < |ops| && ReservesAt(ops, i, key) && ReservesAt(ops, j, key)
    ensures AttemptAt(ops, i, key) < AttemptAt(ops, j, key)
    ensures exists d :: i < d < j && Frees(ops[d], key)
  {
    SinceReserved(ops, i, j, key);
  }

  // ---- Decisions ----

  function StateOf(s: Store, key: string): Option<string> { if key in s.effects then s.effects[key].state else None }

  /** Nothing of the key forbids an attempt. */
  predicate KeyIsFree(s: Store, key: Option<string>) {
    key.Some? ==> StateOf(s, key.value) !in {Some("done"), Some("reserved"), Some("unknown_outcome")}
  }

  predicate OwnedByOther(s: Store, r: CheckRequest, now: real) {
    exists id :: id in s.claims && r.subject.Some? && s.claims[id].target == Subject(r.subject.value)
                 && s.claims[id].until > now && s.claims[id].holder != r.agent
  }

  predicate OverBudget(s: Store, r: CheckRequest) {
    && r.purpose in s.budgets && r.subject.Some?
    && (if (r.purpose, r.subject.value) in s.spent then s.spent[(r.purpose, r.subject.value)] else 0)
       >= s.budgets[r.purpose]
  }

  /** A contact is allowed exactly when it is inbound, or its key is free, its subject not suppressed, no other holder
    * has a live claim on the subject and no budget is used up; it is deferred exactly when the claim is the first of
    * these to fail. */
  lemma AllowedExactly(s: Store, r: CheckRequest, suppressed: bool, now: real)
    ensures Decide(s, r, suppressed, now).verdict == Allow <==>
            || r.inbound
            || (KeyIsFree(s, r.effectKey) && !suppressed && !OwnedByOther(s, r, now) && !OverBudget(s, r))
    ensures Decide(s, r, suppressed, now).verdict == Defer <==>
            !r.inbound && KeyIsFree(s, r.effectKey) && !suppressed && OwnedByOther(s, r, now)
  {
  }

  /** The one reason each refusal carries is the first obstacle. */
  lemma ReasonIsTheFirst(s: Store, r: CheckRequest, suppressed: bool, now: real)
    ensures var d := Decide(s, r, suppressed, now);
            && (d.verdict == Allow ==> d.reasons == [])
            && (d.verdict == Defer ==> d.reasons == ["owner_active"])
            && (d.verdict == Deny ==>
                  d.reasons == [if !KeyIsFree(s, r.effectKey) then
                                  if StateOf(s, r.effectKey.value) == Some("done") then "effect_done"
                                  else if StateOf(s, r.effectKey.value) == Some("reserved") then "effect_in_flight"
                                  else "effect_unknown_outcome"
                                else if suppressed then "suppressed"
                                else "budget_exhausted"])
  {
  }

  /** The effect a decision shows: what is known of a key that is taken, otherwise the attempt it is reserved for. */
  lemma EffectShown(s: Store, r: CheckRequest, suppressed: bool, now: real)
    ensures var d := Decide(s, r, suppressed, now);
            if r.inbound || r.effectKey == None then d.effect == None
            else
              var key := r.effectKey.value;
              var held := if key in s.effects then s.effects[key] else Effect(None, 0);
              && d.effect.Some?
              && (held.state == Some("done") ==> d.effect.value == held)
              && (held.state == Some("reserved") ==> d.effect.value == Effect(Some("in_flight"), held.attempt))
              && (held.state == Some("unknown_outcome") ==> d.effect.value.state == held.state)
              && (KeyIsFree(s, r.effectKey) ==> d.effect.value == Effect(Some("none"), held.attempt + 1))
  {
  }

  /** In every run: what a check changes is a free key of an outbound request, reserved whatever the decision, and the
    * spent count of an allowed one with a budget. */
  lemma CheckChangesExactly(ops: seq<Op>, i: nat)
    requires i < |ops| && ops[i].Check?
    ensures var s, t, r := StateAt(ops, i), StateAt(ops, i + 1), ops[i].r;
            var allowed := Decide(s, r, ops[i].suppressed, ops[i].now).verdict == Allow;
            && t.claims == s.claims && t.budgets == s.budgets
            && t.effects == (if !r.inbound && r.effectKey.Some? && KeyIsFree(s, r.effectKey) then
                               var key := r.effectKey.value;
                               var before := if key in s.effects then s.effects[key].attempt else 0;
                               s.effects[key := Effect(Some("reserved"), before + 1)]
                             else s.effects)
            && t.spent == (if allowed && !r.inbound && r.subject.Some? && r.purpose in s.budgets then
                             var at := (r.purpose, r.subject.value);
                             s.spent[at := (if at in s.spent then s.spent[at] else 0) + 1]
                           else s.spent)
  {
  }

  lemma SuppressedIsNeverAllowed(ops: seq<Op>, i: nat)
    requires i < |ops| && ops[i].Check? && !ops[i].r.inbound && ops[i].suppressed
    ensures Decide(StateAt(ops, i), ops[i].r, true, ops[i].now).verdict == Deny
    ensures StateAt(ops, i + 1).spent == StateAt(ops, i).spent
  {
    AllowedExactly(StateAt(ops, i), ops[i].r, true, ops[i].now);
    CheckChangesExactly(ops, i);
  }

  /** A declaration settles its key and no other: a key seen before keeps its attempt, another takes the one named. */
  lemma DeclarationSettles(s: Store, key: string, state: string, attempt: Option<int>)
    ensures var t := AfterDeclare(s, key, state, attempt);
            && t.claims == s.claims && t.spent == s.spent && t.budgets == s.budgets
            && key in t.effects && t.effects[key].state == Some(state)
            && t.effects[key].attempt == (if key in s.effects then s.effects[key].attempt
                                          else if attempt.Some? then attempt.value else 1)
            && t.effects - {key} == s.effects - {key}
  {
  }

  /** A claim is granted exactly when it names a target on which no other holder has a live claim at its reading; it
    * then lasts its lease from there. A released claim is live no more. */
  lemma ClaimsLastTheirLease(s: Store, r: ClaimRequest, id: string, reading: real, now: real)
    requires id !in s.claims
    ensures var target := if r.objectId.Some? then Some(OnObject(r.objectId.value, r.task))
                          else if r.subject.Some? then Some(Subject(r.subject.value)) else None;
            var taken := exists other :: other in s.claims && Some(s.claims[other].target) == target
                                         && s.claims[other].until > reading && s.claims[other].holder != r.holder;
            var t := AfterClaim(s, r, id, reading);
            if target.Some? && !taken
            then t.claims == s.claims[id := Claim(r.kind, r.holder, target.value, reading + r.lease, 1)]
            else t == s
    ensures var t := AfterRelease(AfterClaim(s, r, id, reading), id, now);
            id in t.claims ==> t.claims[id].until == now && t.claims[id].epoch == 2
    ensures var t := AfterRelease(s, id, now); t == s
    ensures forall other :: other in s.claims ==>
              var t := AfterRelease(s, other, now);
              t.claims - {other} == s.claims - {other} && t.claims[other].until == now
  {
    assert TargetOf(r).Some? ==> (HeldByOther(s, TargetOf(r).value, r.holder, reading) <==>
             exists other :: other in s.claims && Some(s.claims[other].target) == TargetOf(r)
                             && s.claims[other].until > reading && s.claims[other].holder != r.holder);
  }

  // ---- Budgets ----

  predicate NeverLowered(ops: seq<Op>) {
    forall i :: 0 <= i < |ops| && ops[i].Budget? && ops[i].purpose in StateAt(ops, i).budgets ==>
      ops[i].limit >= StateAt(ops, i).budgets[ops[i].purpose]
  }

  /** The outbound contacts of `purpose` allowed to `subject` while it had a budget. */
  function AllowedContacts(ops: seq<Op>, n: nat, purpose: string, subject: string): nat
    requires n <= |ops|
  {
    if n == 0 then 0
    else
      var op := ops[n - 1];
      AllowedContacts(ops, n - 1, purpose, subject) +
      (if op.Check? && op.r.purpose == purpose && op.r.subject == Some(subject) &&
          Spends(StateAt(ops, n - 1), op.r, op.suppressed, op.now) then 1 else 0)
  }

  /** Allowed contacts never pass a budget that is not lowered, and are what the store counts as spent. */
  lemma {:induction false} BudgetHolds(ops: seq<Op>, n: nat, purpose: string, subject: string)
    requires n <= |ops| && NeverLowered(ops)
    ensures AllowedContacts(ops, n, purpose, subject) == SpentOn(StateAt(ops, n), purpose, subject)
    ensures purpose in StateAt(ops, n).budgets ==>
              AllowedContacts(ops, n, purpose, subject) <= MaxInt(StateAt(ops, n).budgets[purpose], 0)
    ensures purpose !in StateAt(ops, n).budgets ==> AllowedContacts(ops, n, purpose, subject) == 0
  {
    if n > 0 {
      BudgetHolds(ops, n - 1, purpose, subject);
      StepSpends(StateAt(ops, n - 1), ops[n - 1], purpose, subject);
    }
  }

  lemma StepSpends(s: Store, op: Op, purpose: string, subject: string)
    ensures var spends := op.Check? && op.r.purpose == purpose && op.r.subject == Some(subject) &&
                          Spends(s, op.r, op.suppressed, op.now);
            && SpentOn(After(s, op), purpose, subject) == SpentOn(s, purpose, subject) + (if spends then 1 else 0)
            && (spends ==> purpose in s.budgets && SpentOn(s, purpose, subject) < s.budgets[purpose])
            && (!op.Budget? ==> After(s, op).budgets == s.budgets)
  {
  }
}

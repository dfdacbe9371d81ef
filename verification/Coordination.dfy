/** Leases, effect reservations and contact budgets (`src/niadra_mock/coordinate.py`). The moment of a call is a
  * parameter; a claim's may be older than the store's, since it is read before the lock is taken. */
module Coordination {
  import opened Basics

  /** What a claim is on: a subject, or an object and task. */
  datatype Target = Subject(subject: string) | OnObject(objectId: string, task: string)

  datatype Effect = Effect(state: Option<string>, attempt: int)
  datatype Claim = Claim(kind: string, holder: string, target: Target, until: real, epoch: nat)

  datatype Store = Store(
    effects: map<string, Effect>, claims: map<string, Claim>,
    budgets: map<string, int>, spent: map<(string, string), int>)

  datatype CheckRequest = CheckRequest(
    inbound: bool, effectKey: Option<string>, subject: Option<string>, agent: string, purpose: string)

  datatype ClaimRequest = ClaimRequest(
    objectId: Option<string>, task: string, subject: Option<string>, kind: string, holder: string, lease: real)

  datatype Verdict = Allow | Deny | Defer
  datatype Decision = Decision(verdict: Verdict, reasons: seq<string>, effect: Option<Effect>)
  datatype Refusal = InvalidInput | TaskLocked | LeaseHeld | NotFound
  datatype Outcome = Held(claim: Claim) | Refused(why: Refusal)

  const EMPTY := Store(map[], map[], map[], map[])

  // ---- Effects ----

  function EffectOf(s: Store, key: string): Effect { if key in s.effects then s.effects[key] else Effect(None, 0) }

  /** The states that keep a key from being reserved again. */
  predicate Blocks(state: Option<string>) {
    state == Some("done") || state == Some("reserved") || state == Some("unknown_outcome")
  }

  predicate Reserves(s: Store, r: CheckRequest) {
    !r.inbound && r.effectKey.Some? && !Blocks(EffectOf(s, r.effectKey.value).state)
  }

  function NextAttempt(s: Store, key: string): int { EffectOf(s, key).attempt + 1 }

  function AfterReserve(s: Store, r: CheckRequest): Store {
    if Reserves(s, r)
    then s.(effects := s.effects[r.effectKey.value := Effect(Some("reserved"), NextAttempt(s, r.effectKey.value))])
    else s
  }

  /** A declared effect settles its key; the attempt it names counts only for a key not seen before. */
  function AfterDeclare(s: Store, key: string, state: string, attempt: Option<int>): Store {
    var kept := if key in s.effects then s.effects[key].attempt else if attempt.Some? then attempt.value else 1;
    s.(effects := s.effects[key := Effect(Some(state), kept)])
  }

  // ---- Claims ----

  predicate Live(c: Claim, now: real) { c.until > now }

  predicate HeldByOther(s: Store, target: Target, holder: string, now: real) {
    exists id :: id in s.claims && s.claims[id].target == target && Live(s.claims[id], now)
                 && s.claims[id].holder != holder
  }

  function TargetOf(r: ClaimRequest): Option<Target> {
    if r.objectId.Some? then Some(OnObject(r.objectId.value, r.task))
    else if r.subject.Some? then Some(Subject(r.subject.value))
    else None
  }

  function NewClaim(r: ClaimRequest, target: Target, now: real): Claim {
    Claim(r.kind, r.holder, target, now + r.lease, 1)
  }

  predicate Grants(s: Store, r: ClaimRequest, now: real) {
    TargetOf(r).Some? && !HeldByOther(s, TargetOf(r).value, r.holder, now)
  }

  function AfterClaim(s: Store, r: ClaimRequest, id: string, now: real): Store {
    if Grants(s, r, now) then s.(claims := s.claims[id := NewClaim(r, TargetOf(r).value, now)]) else s
  }

  function AfterRelease(s: Store, id: string, now: real): Store {
    if id in s.claims
    then s.(claims := s.claims[id := s.claims[id].(until := now, epoch := s.claims[id].epoch + 1)])
    else s
  }

  // ---- Checks ----

  function SpentOn(s: Store, purpose: string, subject: string): int {
    if (purpose, subject) in s.spent then s.spent[(purpose, subject)] else 0
  }

  predicate Exhausted(s: Store, r: CheckRequest) {
    r.purpose in s.budgets && r.subject.Some? && SpentOn(s, r.purpose, r.subject.value) >= s.budgets[r.purpose]
  }

  /** The decision, in the spec's order: the first that applies. */
  function Decide(s: Store, r: CheckRequest, suppressed: bool, now: real): Decision {
    if r.inbound then Decision(Allow, [], None)
    else if r.effectKey.Some? && Blocks(EffectOf(s, r.effectKey.value).state) then
      var held := EffectOf(s, r.effectKey.value);
      if held.state == Some("done") then Decision(Deny, ["effect_done"], Some(held))
      else if held.state == Some("reserved") then
        Decision(Deny, ["effect_in_flight"], Some(Effect(Some("in_flight"), held.attempt)))
      else Decision(Deny, ["effect_unknown_outcome"], Some(Effect(held.state, 0)))
    else
      var effect :=
        if r.effectKey.Some? then Some(Effect(Some("none"), NextAttempt(s, r.effectKey.value))) else None;
      if suppressed then Decision(Deny, ["suppressed"], effect)
      else if r.subject.Some? && HeldByOther(s, Subject(r.subject.value), r.agent, now)
      then Decision(Defer, ["owner_active"], effect)
      else if Exhausted(s, r) then Decision(Deny, ["budget_exhausted"], effect)
      else Decision(Allow, [], effect)
  }

  /** A contact, outbound and allowed, for a purpose with a budget spends one of its subject's. */
  predicate Spends(s: Store, r: CheckRequest, suppressed: bool, now: real) {
    Decide(s, r, suppressed, now).verdict == Allow && !r.inbound && r.subject.Some? && r.purpose in s.budgets
  }

  function AfterCheck(s: Store, r: CheckRequest, suppressed: bool, now: real): Store {
    var t := AfterReserve(s, r);
    if Spends(s, r, suppressed, now)
    then t.(spent := s.spent[(r.purpose, r.subject.value) := SpentOn(s, r.purpose, r.subject.value) + 1])
    else t
  }

  class CoordinationStore {
    var effects: map<string, Effect>
    var claims: map<string, Claim>
    var budgets: map<string, int>
    var spent: map<(string, string), int>

    ghost function View(): Store
      reads this
    {
      Store(effects, claims, budgets, spent)
    }

    constructor ()
      ensures View() == EMPTY
    {
      effects, claims, budgets, spent := map[], map[], map[], map[];
    }

    method Budget(purpose: string, limit: int)
      modifies this`budgets
      ensures budgets == old(budgets)[purpose := limit]
    {
      budgets := budgets[purpose := limit];
    }

    /** The loop over `self.claims.values()`. */
    method AnyOther(target: Target, holder: string, now: real) returns (found: bool)
      ensures found <==> HeldByOther(View(), target, holder, now)
    {
      var left := claims.Keys;
      while left != {}
        invariant left <= claims.Keys
        invariant forall id :: id in claims && id !in left ==>
                    !(claims[id].target == target && Live(claims[id], now) && claims[id].holder != holder)
      {
        var id :| id in left;
        if claims[id].target == target && claims[id].until > now && claims[id].holder != holder {
          return true;
        }
        left := left - {id};
      }
      return false;
    }

    method Check(r: CheckRequest, suppressed: bool, now: real) returns (d: Decision)
      modifies this`effects, this`spent
      ensures View() == AfterCheck(old(View()), r, suppressed, now)
      ensures d == Decide(old(View()), r, suppressed, now)
    {
      if r.inbound {
        return Decision(Allow, [], None);
      }
      var effect: Option<Effect> := None;
      if r.effectKey.Some? {
        var key := r.effectKey.value;
        var held := if key in effects then effects[key] else Effect(None, 0);
        if held.state == Some("done") {
          return Decision(Deny, ["effect_done"], Some(held));
        }
        if held.state == Some("reserved") {
          return Decision(Deny, ["effect_in_flight"], Some(Effect(Some("in_flight"), held.attempt)));
        }
        if held.state == Some("unknown_outcome") {
          return Decision(Deny, ["effect_unknown_outcome"], Some(Effect(held.state, 0)));
        }
        effects := effects[key := Effect(Some("reserved"), held.attempt + 1)];
        effect := Some(Effect(Some("none"), held.attempt + 1));
      }
      if suppressed {
        return Decision(Deny, ["suppressed"], effect);
      }
      if r.subject.Some? {
        var other := AnyOther(Subject(r.subject.value), r.agent, now);
        if other {
          return Decision(Defer, ["owner_active"], effect);
        }
        if r.purpose in budgets {
          var key := (r.purpose, r.subject.value);
          var used := if key in spent then spent[key] else 0;
          if used >= budgets[r.purpose] {
            return Decision(Deny, ["budget_exhausted"], effect);
          }
          spent := spent[key := used + 1];
        }
      }
      return Decision(Allow, [], effect);
    }

    method Declare(key: string, state: string, attempt: Option<int>)
      modifies this`effects
      ensures View() == AfterDeclare(old(View()), key, state, attempt)
    {
      var kept := if key in effects then effects[key].attempt else if attempt.Some? then attempt.value else 1;
      effects := effects[key := Effect(Some(state), kept)];
    }

    /** `id` is the new claim's, `now` the moment read before the lock. */
    method ClaimTarget(r: ClaimRequest, id: string, now: real) returns (out: Outcome)
      requires id !in claims
      modifies this`claims
      ensures View() == AfterClaim(old(View()), r, id, now)
      ensures out == if TargetOf(r).None? then Refused(InvalidInput)
                     else if Grants(old(View()), r, now) then Held(NewClaim(r, TargetOf(r).value, now))
                     else Refused(if r.kind == "task_lock" then TaskLocked else LeaseHeld)
    {
      var target := TargetOf(r);
      if target.None? {
        return Refused(InvalidInput);
      }
      var other := AnyOther(target.value, r.holder, now);
      if other {
        return Refused(if r.kind == "task_lock" then TaskLocked else LeaseHeld);
      }
      var c := Claim(r.kind, r.holder, target.value, now + r.lease, 1);
      claims := claims[id := c];
      return Held(c);
    }

    method Release(id: string, now: real) returns (out: Outcome)
      modifies this`claims
      ensures View() == AfterRelease(old(View()), id, now)
      ensures out == if id in old(claims) then Held(claims[id]) else Refused(NotFound)
    {
      if id !in claims {
        return Refused(NotFound);
      }
      claims := claims[id := claims[id].(until := now, epoch := claims[id].epoch + 1)];
      return Held(claims[id]);
    }
  }
}

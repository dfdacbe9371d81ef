/** The prefetch mailbox (`prefetch` and `_prefetch` in `src/niadra/_client.py`): one sender per scope, the
  * newest text waits. */
module Prefetch {
  import opened Basics

  type Scope = string

  /** The mailbox under its lock: a scope is in it while a sender is on its way or runs, with the text waiting. */
  class Mailbox<Text> {
    var prefetching: map<Scope, Option<Text>>

    constructor ()
      ensures prefetching == map[]
    {
      prefetching := map[];
    }

    /** True when the caller has to start a sender. */
    method Offer(scope: Scope, text: Text) returns (starts: bool)
      modifies this
      ensures starts <==> scope !in old(prefetching)
      ensures prefetching == old(prefetching)[scope := if starts then None else Some(text)]
    {
      if scope in prefetching {
        prefetching := prefetching[scope := Some(text)];
        return false;
      }
      prefetching := prefetching[scope := None];
      return true;
    }

    /** What the sender sends next; None ends it and frees the scope. */
    method Pop(scope: Scope) returns (text: Option<Text>)
      modifies this
      ensures text == if scope in old(prefetching) then old(prefetching)[scope] else None
      ensures prefetching == if text.Some? then old(prefetching)[scope := None] else old(prefetching) - {scope}
    {
      text := if scope in prefetching then prefetching[scope] else None;
      prefetching := prefetching - {scope};
      if text.Some? {
        prefetching := prefetching[scope := None];
        assert old(prefetching)[scope := None] == prefetching;
      }
    }
  }

  // ---- Every interleaving ----

  /** A sender of one scope: handed a text to send, or between sending and its next look at the mailbox. */
  datatype Sender = Ready(text: nat) | Sent

  /** One scope: its place in the mailbox (None: not there; Some: the text waiting, if any), its senders, how
    * many texts were accepted, which number them in order, and the ones attempted. */
  datatype Slot = Slot(box: Option<Option<nat>>, senders: map<nat, Sender>, accepted: nat, sent: seq<nat>)

  type State = map<Scope, Slot>

  datatype Event = Offer(scope: Scope, sender: nat) | Send(scope: Scope, sender: nat) | Pop(scope: Scope, sender: nat)

  const NEW := Slot(None, map[], 0, [])

  function SlotOf(s: State, scope: Scope): Slot { if scope in s then s[scope] else NEW }

  /** A new sender has a name of its own. */
  predicate Enabled(s: State, e: Event) {
    var senders := SlotOf(s, e.scope).senders;
    match e
    case Offer(_, sender) => sender !in senders
    case Send(_, sender) => sender in senders && senders[sender].Ready?
    case Pop(_, sender) => sender in senders && senders[sender].Sent?
  }

  function SlotStep(x: Slot, e: Event): Slot
    requires e.Send? ==> e.sender in x.senders && x.senders[e.sender].Ready?
  {
    match e
    case Offer(_, sender) =>
      var text := x.accepted;
      if x.box.Some? then x.(box := Some(Some(text)), accepted := text + 1)
      else x.(box := Some(None), senders := x.senders[sender := Ready(text)], accepted := text + 1)
    case Send(_, sender) =>
      x.(senders := x.senders[sender := Sent], sent := x.sent + [x.senders[sender].text])
    case Pop(_, sender) =>
      if x.box.Some? && x.box.value.Some?
      then x.(box := Some(None), senders := x.senders[sender := Ready(x.box.value.value)])
      else x.(box := None, senders := x.senders - {sender})
  }

  function Step(s: State, e: Event): State
    requires Enabled(s, e)
  {
    s[e.scope := SlotStep(SlotOf(s, e.scope), e)]
  }

  /** A slot's place in the mailbox. */
  function BoxOf(x: Slot, scope: Scope): map<Scope, Option<nat>> {
    if x.box.None? then map[] else map[scope := x.box.value]
  }

  /** The runs use the mailbox as its methods leave it: an offer and a pop of the box do what they do to the map. */
  lemma BoxIsTheMailbox(x: Slot, e: Event)
    requires e.Send? ==> e.sender in x.senders && x.senders[e.sender].Ready?
    ensures var before, after := BoxOf(x, e.scope), BoxOf(SlotStep(x, e), e.scope);
            match e
            case Offer(scope, sender) =>
              && after == before[scope := if scope in before then Some(x.accepted) else None]
              && SlotStep(x, e).senders ==
                 (if scope in before then x.senders else x.senders[sender := Ready(x.accepted)])
            case Send(_, sender) => after == before && SlotStep(x, e).sent == x.sent + [x.senders[sender].text]
            case Pop(scope, sender) =>
              var text := if scope in before then before[scope] else None;
              && after == (if text.Some? then before[scope := None] else before - {scope})
              && SlotStep(x, e).senders == (if text.Some? then x.senders[sender := Ready(text.value)]
                                            else x.senders - {sender})
  {
  }

  ghost predicate IsRun(run: seq<State>) {
    run != [] && run[0] == map[] && forall i :: 0 <= i < |run| - 1 ==> Next(run[i], run[i + 1])
  }

  ghost predicate Next(s: State, t: State) { exists e :: Enabled(s, e) && t == Step(s, e) }

  predicate Increasing(texts: seq<nat>) { forall i, j :: 0 <= i < j < |texts| ==> texts[i] < texts[j] }

  /** The last of `texts` is the last accepted. */
  predicate EndsAt(texts: seq<nat>, accepted: nat) { texts != [] && texts[|texts| - 1] + 1 == accepted }

  /** The texts sent, and the one about to be. */
  function Line(x: Slot, sender: Sender): seq<nat> { x.sent + (if sender.Ready? then [sender.text] else []) }

  predicate OneSender(x: Slot) {
    && (forall a, b :: a in x.senders && b in x.senders ==> a == b)
    && (x.box.None? <==> x.senders == map[])
  }

  predicate Fits(x: Slot, line: seq<nat>) {
    && Increasing(line) && line != []
    && (x.box.Some? && x.box.value.None? ==> EndsAt(line, x.accepted))
    && (x.box.Some? && x.box.value.Some? ==>
          line[|line| - 1] < x.box.value.value && x.box.value.value + 1 == x.accepted)
  }

  predicate Orderly(x: Slot) {
    && OneSender(x) && Increasing(x.sent)
    && (x.box.None? ==> (x.sent == [] && x.accepted == 0) || EndsAt(x.sent, x.accepted))
    && (forall id :: id in x.senders ==> Fits(x, Line(x, x.senders[id])))
  }

  lemma OfferIsOrderly(x: Slot, e: Event)
    requires Orderly(x) && e.Offer? && e.sender !in x.senders
    ensures Orderly(SlotStep(x, e))
  {
    if x.box.None? {
      assert Line(SlotStep(x, e), Ready(x.accepted)) == x.sent + [x.accepted];
    }
  }

  lemma SendIsOrderly(x: Slot, e: Event)
    requires Orderly(x) && e.Send? && e.sender in x.senders && x.senders[e.sender].Ready?
    ensures Orderly(SlotStep(x, e))
  {
    var y := SlotStep(x, e);
    assert y.senders.Keys == x.senders.Keys;
    forall id | id in y.senders
      ensures Fits(y, Line(y, y.senders[id]))
    {
      assert id == e.sender && y.senders[id] == Sent;
      assert Line(y, Sent) == y.sent == Line(x, x.senders[e.sender]);
    }
  }

  lemma PopIsOrderly(x: Slot, e: Event)
    requires Orderly(x) && e.Pop? && e.sender in x.senders && x.senders[e.sender].Sent?
    ensures Orderly(SlotStep(x, e))
  {
    var y := SlotStep(x, e);
    assert Line(x, Sent) == x.sent && Fits(x, x.sent);
    if x.box.Some? && x.box.value.Some? {
      assert y.senders.Keys == x.senders.Keys;
      assert Line(y, y.senders[e.sender]) == x.sent + [x.box.value.value];
      assert forall id :: id in y.senders ==> id == e.sender;
    } else {
      assert y.senders == map[];
    }
  }

  lemma StepIsOrderly(s: State, e: Event)
    requires Enabled(s, e) && Orderly(SlotOf(s, e.scope))
    ensures Orderly(SlotOf(Step(s, e), e.scope))
  {
    var x := SlotOf(s, e.scope);
    match e
    case Offer(_, _) => OfferIsOrderly(x, e);
    case Send(_, _) => SendIsOrderly(x, e);
    case Pop(_, _) => PopIsOrderly(x, e);
  }

  lemma {:induction false} RunsAreOrderly(run: seq<State>, i: nat, scope: Scope)
    requires IsRun(run) && i < |run|
    ensures Orderly(SlotOf(run[i], scope))
  {
    if i > 0 {
      RunsAreOrderly(run, i - 1, scope);
      assert Next(run[i - 1], run[i - 1 + 1]);
      var e :| Enabled(run[i - 1], e) && run[i] == Step(run[i - 1], e);
      if e.scope == scope {
        StepIsOrderly(run[i - 1], e);
      }
    }
  }

  /** At most one sender per scope; the texts sent are accepted ones, in order and none twice; and whenever no
    * sender runs for a scope that had a text, its last accepted text has been attempted. */
  lemma NewestIsSent(run: seq<State>, i: nat, scope: Scope)
    requires IsRun(run) && i < |run|
    ensures var x := SlotOf(run[i], scope);
            && (forall a, b :: a in x.senders && b in x.senders ==> a == b)
            && Increasing(x.sent) && (forall k :: 0 <= k < |x.sent| ==> x.sent[k] < x.accepted)
            && (x.senders == map[] && x.accepted > 0 ==> EndsAt(x.sent, x.accepted))
  {
    RunsAreOrderly(run, i, scope);
    var x := SlotOf(run[i], scope);
    if x.box.Some? {
      var id :| id in x.senders;
      var line := Line(x, x.senders[id]);
      forall k | 0 <= k < |x.sent|
        ensures x.sent[k] < x.accepted
      {
        assert x.sent[k] == line[k] && line[k] <= line[|line| - 1];
      }
    }
  }
}

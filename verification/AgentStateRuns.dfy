/** Every run of one agent's working state against the reference server: read your writes, and the copy as
  * the server's state with the waiting writes folded in (`src/niadra/agent_state.py`). */
module AgentStateRuns {
  import opened Basics
  import opened AgentState

  // ---- Folding writes ----

  predicate PlainMerge(w: Write) { w.mode.MergeByKey? && w.ifVersion.None? }

  predicate AllMerges(ws: seq<Write>) { forall i :: 0 <= i < |ws| ==> PlainMerge(ws[i]) }

  /** The state after `ws`, oldest first. */
  function Folded(base: Body, ws: seq<Write>): Body {
    if ws == [] then base else Applied(Folded(base, ws[..|ws| - 1]), ws[|ws| - 1])
  }

  /** What the last of `ws` to write the field wrote. */
  function LastWritten(ws: seq<Write>, k: string): Option<Json> {
    if ws == [] then None
    else if k in ws[|ws| - 1].body then Some(ws[|ws| - 1].body[k])
    else LastWritten(ws[..|ws| - 1], k)
  }

  /** A field after a fold: what the last write to it left, or what it was. */
  lemma {:induction false} FoldedField(base: Body, ws: seq<Write>, k: string)
    requires AllMerges(ws)
    ensures Get(Folded(base, ws), k) ==
            match LastWritten(ws, k)
            case None => Get(base, k)
            case Some(v) => Effect(v)
  {
    if ws != [] {
      FoldedField(base, ws[..|ws| - 1], k);
    }
  }

  lemma {:induction false} LastWrittenOfHead(ws: seq<Write>, k: string)
    requires ws != []
    ensures LastWritten(ws, k) ==
            if LastWritten(ws[1..], k).Some? then LastWritten(ws[1..], k)
            else if k in ws[0].body then Some(ws[0].body[k]) else None
  {
    if |ws| > 1 {
      LastWrittenOfHead(ws[..|ws| - 1], k);
      assert ws[..|ws| - 1][1..] == ws[1..][..|ws| - 2];
      assert ws[1..][|ws| - 2] == ws[|ws| - 1];
    }
  }

  /** The server taking the oldest waiting write changes nothing in the fold. */
  lemma FoldHead(base: Body, ws: seq<Write>)
    requires ws != [] && AllMerges(ws)
    ensures Folded(Applied(base, ws[0]), ws[1..]) == Folded(base, ws)
    ensures Folded(Applied(base, ws[0]), ws) == Folded(base, ws)
  {
    var next := Applied(base, ws[0]);
    forall k
      ensures Get(Folded(next, ws[1..]), k) == Get(Folded(base, ws), k)
      ensures Get(Folded(next, ws), k) == Get(Folded(base, ws), k)
    {
      LastWrittenOfHead(ws, k);
      FoldedField(base, ws, k);
      FoldedField(next, ws, k);
      FoldedField(next, ws[1..], k);
    }
    SameFields(Folded(next, ws[1..]), Folded(base, ws));
    SameFields(Folded(next, ws), Folded(base, ws));
  }

  /** A write the server took unheard and that waits again behind the others is as if it had not arrived. */
  lemma FoldUnheard(base: Body, ws: seq<Write>, w: Write)
    requires AllMerges(ws) && PlainMerge(w)
    ensures Folded(Applied(base, w), ws + [w]) == Folded(base, ws + [w]) == Applied(Folded(base, ws), w)
  {
    assert (ws + [w])[..|ws|] == ws;
    forall k
      ensures Get(Folded(Applied(base, w), ws + [w]), k) == Get(Folded(base, ws + [w]), k)
    {
      FoldedField(Applied(base, w), ws + [w], k);
      FoldedField(base, ws + [w], k);
    }
    SameFields(Folded(Applied(base, w), ws + [w]), Folded(base, ws + [w]));
  }

  // ---- One key, one client, the reference server ----

  /** `history[v]` is the server's body at version `v`. A resend is in one of three places: `onWay` is the version of
    * an answer not yet heard, while the write is still in the outbox; `heard` that of one heard, between the write's
    * removal and its callback; otherwise none is out, or it has yet to reach the server. */
  datatype State = State(
    copy: Option<Held>, waiting: seq<Write>, onWay: Option<int>, heard: Option<int>, history: seq<Body>)

  datatype Event =
    | DirectAnswered(w: Write)
    | DirectUnheard(w: Write, applied: bool)
    | ResendTaken
    | AnswerLost
    | Popped
    | Callback
    | ReadAnswered(version: nat)

  const START := State(None, [], None, None, [map[]])

  predicate Shaped(s: State) { s.history != [] && AllMerges(s.waiting) }

  function Current(s: State): Server
    requires Shaped(s)
  {
    Server(s.history[|s.history| - 1], |s.history| - 1)
  }

  function Serve(s: State, w: Write, applied: bool): State
    requires Shaped(s)
  {
    if applied && ServerPut(Current(s), w).Some? then
      s.(history := s.history + [ServerPut(Current(s), w).value.body])
    else s
  }

  /** One caller at a time: a write's attempt and what the copy makes of it are one step. A read may bring any state
    * the server ever had: its answer may be late. A direct write is answered only when the outbox is empty. */
  predicate Enabled(s: State, e: Event) {
    && Shaped(s)
    && match e
       case DirectAnswered(w) => PlainMerge(w) && s.waiting == []
       case DirectUnheard(w, _) => PlainMerge(w) && |s.waiting| < CAPACITY
       case ResendTaken => s.waiting != [] && s.onWay.None? && s.heard.None?
       case AnswerLost => s.onWay.Some?
       case Popped => s.waiting != [] && s.onWay.Some? && s.heard.None?
       case Callback => s.heard.Some?
       case ReadAnswered(version) => version < |s.history|
  }

  function DirectAnswer(s: State, w: Write): State
    requires Shaped(s) && PlainMerge(w)
  {
    var t := Serve(s, w, true);
    t.(copy := Some(AfterWritten(s.copy, w, Current(t).version)))
  }

  function Step(s: State, e: Event): State
    requires Enabled(s, e)
  {
    match e
    case DirectAnswered(w) => DirectAnswer(s, w)
    case DirectUnheard(w, applied) =>
      Serve(s, w, applied).(copy := Some(AfterLater(s.copy, w)), waiting := s.waiting + [w])
    case ResendTaken =>
      var t := Serve(s, s.waiting[0], true);
      t.(onWay := Some(Current(t).version))
    case AnswerLost => s.(onWay := None)
    case Popped => s.(waiting := s.waiting[1..], onWay := None, heard := s.onWay)
    case Callback => s.(copy := AfterResent(s.copy, s.heard.value), heard := None)
    case ReadAnswered(version) => s.(copy := Some(AfterRead(s.copy, s.history[version], version)))
  }

  ghost predicate IsRun(run: seq<State>, events: seq<Event>) {
    && |run| == |events| + 1 && run[0] == START
    && (forall i :: 0 <= i < |events| ==> StepAt(run, events, i))
  }

  ghost predicate StepAt(run: seq<State>, events: seq<Event>, i: nat)
    requires i < |events| && |run| == |events| + 1
  {
    Enabled(run[i], events[i]) && run[i + 1] == Step(run[i], events[i])
  }

  /** The law: the copy is the server's state with the waiting writes folded in. */
  predicate Converges(s: State)
    requires Shaped(s)
  {
    BodyOf(s.copy) == Folded(Current(s).body, s.waiting)
  }

  lemma ServeGrows(s: State, w: Write)
    requires Shaped(s) && PlainMerge(w)
    ensures Current(Serve(s, w, true)) == Server(Applied(Current(s).body, w), Current(s).version + 1)
  {
  }

  // ---- What holds in every run, the law or not ----

  /** The server has the oldest write, and what came after it waits too: folding it in again changes nothing. */
  predicate HeadIsTaken(s: State)
    requires Shaped(s) && s.waiting != []
  {
    Folded(Current(s).body, s.waiting[1..]) == Folded(Current(s).body, s.waiting)
  }

  predicate Sound(s: State) {
    && Shaped(s)
    && var v := Current(s).version;
       && (s.heard.Some? ==> s.heard.value <= v && s.onWay.None?)
       && (s.onWay.Some? ==> s.onWay.value <= v && s.waiting != [] && HeadIsTaken(s))
       && match s.copy
          case None => s.waiting == [] && s.heard.None? && v == 0
          case Some(h) => h.version <= v + |s.waiting| - (if s.onWay.Some? then 1 else 0)
  }

  lemma UnheardLeaves(s: State, w: Write, applied: bool)
    requires Enabled(s, DirectUnheard(w, applied))
    ensures var t, server := Step(s, DirectUnheard(w, applied)), Current(s);
            && Shaped(t) && t.waiting == s.waiting + [w] && t.onWay == s.onWay && t.heard == s.heard
            && t.copy == Some(AfterLater(s.copy, w))
            && Current(t) == if applied then Server(Applied(server.body, w), server.version + 1) else server
  {
    ServeGrows(s, w);
  }

  lemma UnheardKeepsHead(s: State, w: Write, applied: bool)
    requires Enabled(s, DirectUnheard(w, applied)) && s.waiting != [] && HeadIsTaken(s)
    ensures Shaped(Step(s, DirectUnheard(w, applied))) && HeadIsTaken(Step(s, DirectUnheard(w, applied)))
  {
    UnheardLeaves(s, w, applied);
    FoldOneMore(Current(s).body, s.waiting, w);
    assert (s.waiting + [w])[1..] == s.waiting[1..] + [w];
    FoldOneMore(Current(s).body, s.waiting[1..], w);
  }

  lemma UnheardKeepsLaw(s: State, w: Write, applied: bool)
    requires Enabled(s, DirectUnheard(w, applied)) && Converges(s)
    ensures Shaped(Step(s, DirectUnheard(w, applied))) && Converges(Step(s, DirectUnheard(w, applied)))
  {
    UnheardLeaves(s, w, applied);
    FoldOneMore(Current(s).body, s.waiting, w);
  }

  /** Each step but a read keeps the law. */
  lemma DirectUnheardKeeps(s: State, w: Write, applied: bool)
    requires Sound(s) && Enabled(s, DirectUnheard(w, applied))
    ensures var t := Step(s, DirectUnheard(w, applied)); Sound(t) && (Converges(s) ==> Converges(t))
  {
    UnheardLeaves(s, w, applied);
    if s.onWay.Some? {
      UnheardKeepsHead(s, w, applied);
    }
    if Converges(s) {
      UnheardKeepsLaw(s, w, applied);
    }
  }

  lemma FoldOneMore(base: Body, ws: seq<Write>, w: Write)
    requires AllMerges(ws) && PlainMerge(w)
    ensures AllMerges(ws + [w])
    ensures Folded(base, ws + [w]) == Applied(Folded(base, ws), w)
    ensures Folded(Applied(base, w), ws + [w]) == Applied(Folded(base, ws), w)
  {
    FoldUnheard(base, ws, w);
  }

  lemma ResendKeeps(s: State, e: Event)
    requires Sound(s) && Enabled(s, e) && (e.ResendTaken? || e.AnswerLost? || e.Popped?)
    ensures var t := Step(s, e); Sound(t) && (Converges(s) ==> Converges(t))
  {
    if e.ResendTaken? {
      ServeGrows(s, s.waiting[0]);
      FoldHead(Current(s).body, s.waiting);
    }
  }

  lemma AnswerKeeps(s: State, e: Event)
    requires Sound(s) && Enabled(s, e) && (e.DirectAnswered? || e.Callback?)
    ensures var t := Step(s, e); Sound(t) && (Converges(s) ==> Converges(t))
  {
    if e.DirectAnswered? {
      ServeGrows(s, e.w);
    }
  }

  /** What the law asks of a field: what the last waiting write to it wrote, or what the server holds. */
  function Due(s: State, k: string): Option<Json>
    requires Shaped(s)
  {
    match LastWritten(s.waiting, k)
    case None => Get(Current(s).body, k)
    case Some(v) => Effect(v)
  }

  predicate Replaces(h: Option<Held>, version: int) {
    h.None? || (version >= h.value.version && h.value.pending == 0)
  }

  /** A read that replaces the copy with a body that differs in some field from what the law asks of it. */
  ghost predicate Breaks(s: State, e: Event) {
    && Enabled(s, e) && e.ReadAnswered? && Replaces(s.copy, e.version)
    && exists k :: Get(s.history[e.version], k) != Due(s, k)
  }

  lemma ReadBreaksExactly(s: State, e: Event)
    requires Sound(s) && Converges(s) && Enabled(s, e) && e.ReadAnswered?
    ensures var t := Step(s, e); Sound(t) && (Converges(t) <==> !Breaks(s, e))
  {
    var t := Step(s, e);
    if Replaces(s.copy, e.version) {
      var law, body := Folded(Current(s).body, s.waiting), s.history[e.version];
      forall k
        ensures Get(law, k) == Due(s, k)
      {
        FoldedField(Current(s).body, s.waiting, k);
      }
      if !Breaks(s, e) {
        SameFields(body, law);
      } else {
        var k :| Get(body, k) != Due(s, k);
        assert Get(body, k) != Get(law, k);
      }
    }
  }

  /** From a state where the law holds, a step breaks it exactly when it is such a read. */
  lemma LawBreaksExactly(s: State, e: Event)
    requires Sound(s) && Converges(s) && Enabled(s, e)
    ensures Sound(Step(s, e)) && (Converges(Step(s, e)) <==> !Breaks(s, e))
  {
    match e
    case DirectUnheard(w, applied) => DirectUnheardKeeps(s, w, applied);
    case ReadAnswered(_) => ReadBreaksExactly(s, e);
    case DirectAnswered(_) => AnswerKeeps(s, e);
    case Callback => AnswerKeeps(s, e);
    case _ => ResendKeeps(s, e);
  }

  ghost predicate LawUpTo(run: seq<State>, i: nat)
    requires i < |run|
  {
    forall j :: 0 <= j <= i ==> Shaped(run[j]) && Converges(run[j])
  }

  ghost predicate NoneBreaks(run: seq<State>, events: seq<Event>, i: nat)
    requires i <= |events| && |run| == |events| + 1
  {
    forall j :: 0 <= j < i ==> !Breaks(run[j], events[j])
  }

  /** For every run: the copy is the server's state with the waiting writes folded in, in order and in every state up
    * to `i`, even when the server took attempts whose answer was lost, exactly when no read up to there brought a
    * body that differs from it while the copy counted nothing pending. */
  lemma {:induction false} LawHoldsExactly(run: seq<State>, events: seq<Event>, i: nat)
    requires IsRun(run, events) && i < |run|
    ensures LawUpTo(run, i) <==> NoneBreaks(run, events, i)
    ensures LawUpTo(run, i) ==> Sound(run[i])
  {
    if i > 0 {
      LawHoldsExactly(run, events, i - 1);
      assert StepAt(run, events, i - 1);
      if LawUpTo(run, i - 1) {
        LawBreaksExactly(run[i - 1], events[i - 1]);
      }
    } else {
      assert Converges(START);
    }
  }

  // ---- With every callback run before a direct answer ----

  /** No answer to a direct write falls between a resent write's removal from the outbox and its callback. */
  predicate Counts(s: State, e: Event) { e.DirectAnswered? ==> s.heard.None? }

  predicate Consistent(s: State) {
    && Sound(s) && Converges(s)
    && var v := Current(s).version;
       && (s.copy.Some? ==> s.copy.value.pending == |s.waiting| + (if s.heard.Some? then 1 else 0))
       && (s.onWay.Some? && |s.waiting| == 1 ==> s.onWay.value == v)
       && (s.waiting == [] && s.copy.Some? ==> (if s.heard.Some? then s.heard.value else s.copy.value.version) == v)
  }

  lemma ConsistentStep(s: State, e: Event)
    requires Consistent(s) && Enabled(s, e) && Counts(s, e)
    ensures !Breaks(s, e) && Consistent(Step(s, e))
  {
    if e.ReadAnswered? && Replaces(s.copy, e.version) {
      assert s.history[e.version] == Current(s).body;
    }
    LawBreaksExactly(s, e);
    if e.DirectAnswered? {
      ServeGrows(s, e.w);
    } else if e.DirectUnheard? {
      ServeGrows(s, e.w);
    } else if e.ResendTaken? {
      ServeGrows(s, s.waiting[0]);
    }
  }

  /** So the law holds in every state of every run in which each direct answer comes with no callback left to run. */
  lemma {:induction false} CopyConverges(run: seq<State>, events: seq<Event>, i: nat)
    requires IsRun(run, events) && i < |run|
    requires forall j :: 0 <= j < i ==> Counts(run[j], events[j])
    ensures Consistent(run[i]) && Converges(run[i])
  {
    if i > 0 {
      CopyConverges(run, events, i - 1);
      assert StepAt(run, events, i - 1);
      ConsistentStep(run[i - 1], events[i - 1]);
    } else {
      assert Converges(START);
    }
  }

  /** The answer on its way heard, and its callback run. */
  function Settled(s: State): State
    requires Sound(s)
  {
    var t := if s.onWay.Some? then Step(s, Popped) else s;
    if t.heard.Some? then Step(t, Callback) else t
  }

  lemma SettledKeeps(s: State)
    requires Sound(s)
    ensures var t := Settled(s);
            && Sound(t) && t.onWay.None? && t.heard.None? && |t.waiting| <= |s.waiting|
            && (Converges(s) ==> Converges(t)) && (Consistent(s) ==> Consistent(t))
            && BodyOf(t.copy) == BodyOf(s.copy)
  {
    var t := s;
    if s.onWay.Some? {
      ResendKeeps(s, Popped);
      t := Step(s, Popped);
      if Consistent(s) {
        ConsistentStep(s, Popped);
      }
    }
    if t.heard.Some? {
      AnswerKeeps(t, Callback);
      if Consistent(t) {
        ConsistentStep(t, Callback);
      }
    }
  }

  /** The oldest write sent again, taken and removed. */
  function Resent(s: State): State
    requires Sound(s) && s.waiting != [] && s.onWay.None? && s.heard.None?
  {
    Step(Step(s, ResendTaken), Popped)
  }

  lemma ResentKeeps(s: State)
    requires Sound(s) && s.waiting != [] && s.onWay.None? && s.heard.None?
    ensures var t := Resent(s);
            && Sound(t) && |t.waiting| < |s.waiting| && t.copy == s.copy
            && (Converges(s) ==> Converges(t)) && (Consistent(s) ==> Consistent(t))
  {
    ResendKeeps(s, ResendTaken);
    var t := Step(s, ResendTaken);
    ResendKeeps(t, Popped);
    if Consistent(s) {
      ConsistentStep(s, ResendTaken);
      ConsistentStep(t, Popped);
    }
  }

  /** Sending what waits, each write answered and its callback run. */
  function Drained(s: State): State
    requires Sound(s)
    decreases |s.waiting|
  {
    SettledKeeps(s);
    var t := Settled(s);
    if t.waiting == [] then t
    else
      ResentKeeps(t);
      Drained(Resent(t))
  }

  /** While the law holds, draining the outbox makes the server's body the copy's; with every callback counted, the
    * version is the server's too and nothing is pending. */
  lemma {:induction false} DrainingConverges(s: State)
    requires Sound(s) && Converges(s)
    ensures var t := Drained(s);
            && t.waiting == [] && Sound(t)
            && Current(t).body == BodyOf(t.copy) == BodyOf(s.copy)
            && (Consistent(s) && t.copy.Some? ==> t.copy.value == Held(Current(t).body, Current(t).version, 0))
    decreases |s.waiting|
  {
    SettledKeeps(s);
    var t := Settled(s);
    if t.waiting != [] {
      ResentKeeps(t);
      DrainingConverges(Resent(t));
    }
  }

  // ---- A direct write answered while others wait ----

  /** When the copy takes the write (`result.version >= held.version`), a field that waiting writes also name must
    * end in the same value; when the copy's version is higher and it is left as it was, it must already hold what
    * a field that only this write names is set to. */
  predicate FieldAgrees(s: State, w: Write, k: string)
    requires Shaped(s)
  {
    k in w.body ==>
      if s.copy.None? || Current(s).version + 1 >= s.copy.value.version then
        LastWritten(s.waiting, k).Some? ==> LastWritten(s.waiting, k).value == w.body[k]
      else
        LastWritten(s.waiting, k).None? ==> Get(BodyOf(s.copy), k) == Effect(w.body[k])
  }

  /** The law survives a direct write answered while others wait exactly when every field agrees. */
  lemma DirectAnswerAmongWaiting(s: State, w: Write)
    requires Shaped(s) && Converges(s) && PlainMerge(w)
    ensures Converges(DirectAnswer(s, w)) <==>
            forall k :: FieldAgrees(s, w, k)
  {
    var t := DirectAnswer(s, w);
    ServeGrows(s, w);
    var law := Folded(Current(t).body, s.waiting);
    forall k
      ensures Get(BodyOf(t.copy), k) == Get(law, k) <==> FieldAgrees(s, w, k)
    {
      FoldedField(Current(t).body, s.waiting, k);
      FoldedField(Current(s).body, s.waiting, k);
    }
    if forall k :: FieldAgrees(s, w, k) {
      SameFields(BodyOf(t.copy), law);
    }
  }

  /** A direct write answered once the outbox is empty but before the callback of the last resent write:
    * the callback then counts one write too few. */
  function CountedShort(s: State, direct: Write, w1: Write): State
    requires Shaped(s) && s.waiting == [] && s.heard.Some?
    requires PlainMerge(direct) && PlainMerge(w1)
  {
    Step(Step(DirectAnswer(s, direct), DirectUnheard(w1, false)), Callback)
  }

  lemma CountIsShort(s: State, direct: Write, w1: Write)
    requires Consistent(s) && s.waiting == [] && s.heard.Some?
    requires PlainMerge(direct) && PlainMerge(w1)
    ensures var t := CountedShort(s, direct, w1);
            && Shaped(t) && t.waiting == [w1] && t.onWay.None? && t.heard.None? && t.copy.Some?
            && t.copy.value.pending == 0 && t.copy.value.version == Current(t).version + 1
  {
    ServeGrows(s, direct);
  }

  /** Another write whose direct attempt the server took unheard, then the first one resent and answered. */
  function SecondUnheard(t: State, w1: Write, w2: Write): State
    requires Shaped(t) && t.waiting == [w1] && t.onWay.None? && t.heard.None? && PlainMerge(w2)
  {
    Step(Step(Step(Step(t, DirectUnheard(w2, true)), ResendTaken), Popped), Callback)
  }

  /** The second write waits with the copy's count back at none, and the server has the first one on top. */
  lemma SecondIsUncounted(t: State, w1: Write, w2: Write)
    requires Shaped(t) && t.waiting == [w1] && t.onWay.None? && t.heard.None? && t.copy.Some?
    requires t.copy.value.pending == 0 && t.copy.value.version == Current(t).version + 1
    requires PlainMerge(w2)
    ensures var u := SecondUnheard(t, w1, w2);
            && Shaped(u) && u.waiting == [w2] && u.copy.Some? && u.copy.value.pending <= 0
            && u.copy.value.version <= Current(u).version
            && exists base: Body :: Current(u).body == Applied(base, w1)
  {
    assert PlainMerge(w1) by { assert t.waiting[0] == w1; }
    ServeGrows(t, w2);
    var t1 := Step(t, DirectUnheard(w2, true));
    assert t1.waiting == [w1, w2] && t1.waiting[1..] == [w2];
    ServeGrows(t1, w1);
    assert Current(SecondUnheard(t, w1, w2)).body == Applied(Current(t1).body, w1);
  }

  lemma ReadBringsBackTheFirst(t: State, w1: Write, w2: Write, k: string)
    requires Shaped(t) && t.waiting == [w1] && t.onWay.None? && t.heard.None? && t.copy.Some?
    requires t.copy.value.pending == 0 && t.copy.value.version == Current(t).version + 1
    requires PlainMerge(w2) && k in w1.body && k in w2.body && w1.body[k] != w2.body[k]
    ensures var u := SecondUnheard(t, w1, w2);
            && Shaped(u) && u.waiting == [w2]
            && Enabled(u, ReadAnswered(Current(u).version))
            && !Converges(Step(u, ReadAnswered(Current(u).version)))
  {
    SecondIsUncounted(t, w1, w2);
    var u := SecondUnheard(t, w1, w2);
    var base: Body :| Current(u).body == Applied(base, w1);
    var after := Step(u, ReadAnswered(Current(u).version));
    assert BodyOf(after.copy) == Current(u).body;
    assert [w2][..0] == [];
    assert Folded(Current(u).body, [w2]) == Applied(Current(u).body, w2);
    assert Get(BodyOf(after.copy), k) == Effect(w1.body[k]);
  }

  /** An answer in that gap may break it: from every consistent state with an empty outbox and a callback to run, and
    * for any two later writes that differ in a field, a read can put the first one's value back over the second,
    * which still waits. */
  lemma AnswerBeforeCallbackLosesAWrite(s: State, direct: Write, w1: Write, w2: Write, k: string)
    requires Consistent(s) && s.waiting == [] && s.heard.Some?
    requires PlainMerge(direct) && PlainMerge(w1) && PlainMerge(w2)
    requires k in w1.body && k in w2.body && w1.body[k] != w2.body[k]
    ensures var t := CountedShort(s, direct, w1);
            && Shaped(t) && t.waiting == [w1] && t.onWay.None? && t.heard.None?
            && var u := SecondUnheard(t, w1, w2);
               && Shaped(u) && u.waiting == [w2]
               && Enabled(u, ReadAnswered(Current(u).version))
               && !Converges(Step(u, ReadAnswered(Current(u).version)))
  {
    CountIsShort(s, direct, w1);
    ReadBringsBackTheFirst(CountedShort(s, direct, w1), w1, w2, k);
  }

  /** The law is one caller's: two callers whose direct writes the server took in one order, and whose answers reach
    * the copy in the other, leave it right exactly when it already held what only the first of them writes. */
  lemma CrossedAnswersExactly(h: Held, first: Write, second: Write)
    requires PlainMerge(first) && PlainMerge(second)
    ensures var copy := AfterWritten(Some(AfterWritten(Some(h), second, h.version + 2)), first, h.version + 1);
            copy.body == Applied(Applied(h.body, first), second) <==>
              forall k :: k in first.body && k !in second.body ==> Get(h.body, k) == Effect(first.body[k])
  {
    var copy, right := Applied(h.body, second), Applied(Applied(h.body, first), second);
    assert AfterWritten(Some(AfterWritten(Some(h), second, h.version + 2)), first, h.version + 1).body == copy;
    if forall k :: k in first.body && k !in second.body ==> Get(h.body, k) == Effect(first.body[k]) {
      SameFields(copy, right);
    } else {
      var k :| k in first.body && k !in second.body && Get(h.body, k) != Effect(first.body[k]);
      assert Get(copy, k) != Get(right, k);
    }
  }

  // ---- Read your writes, against any server ----

  /** What one key's callers saw: the highest version a stored write or a read returned since the copy was
    * last dropped. */
  datatype Seen = Seen(copy: Option<Held>, highest: Option<int>)

  /** Any answers at all, in any mode: versions may go back, bodies may be anything. */
  datatype Answer =
    | ReadCame(body: Body, version: int)
    | ReadLost
    | WriteCame(w: Write, stored: bool, version: int)
    | WriteLost(w: Write)
    | ResendCame(version: int)
    | ResendRefused

  /** The version the caller is given, if the call is a read or a stored write. */
  function Returned(h: Option<Held>, a: Answer): Option<int> {
    match a
    case ReadCame(body, version) => Some(AfterRead(h, body, version).version)
    case ReadLost => if h.Some? then Some(h.value.version) else None
    case WriteCame(_, stored, version) => if stored then Some(version) else None
    case WriteLost(w) => if Refuses(h, w) then None else Some(AfterLater(h, w).version)
    case ResendCame(_) => None
    case ResendRefused => None
  }

  function CopyAfter(h: Option<Held>, a: Answer): Option<Held> {
    match a
    case ReadCame(body, version) => Some(AfterRead(h, body, version))
    case ReadLost => h
    case WriteCame(w, stored, version) => if stored then Some(AfterWritten(h, w, version)) else h
    case WriteLost(w) => if Refuses(h, w) then h else Some(AfterLater(h, w))
    case ResendCame(version) => AfterResent(h, version)
    case ResendRefused => None
  }

  function See(s: Seen, a: Answer): Seen {
    var returned := Returned(s.copy, a);
    Seen(CopyAfter(s.copy, a),
         if a.ResendRefused? then None
         else if returned.None? then s.highest
         else if s.highest.None? then returned
         else Some(MaxInt(s.highest.value, returned.value)))
  }

  function SeeAll(answers: seq<Answer>): Seen {
    if answers == [] then Seen(None, None)
    else See(SeeAll(answers[..|answers| - 1]), answers[|answers| - 1])
  }

  /** Whatever the server answers, a read never serves a version below one an earlier read or stored write
    * returned, until a refused resend drops the copy; and a copy with writes pending is never replaced. */
  lemma {:induction false} ReadYourWrites(answers: seq<Answer>, next: Answer)
    ensures var s := SeeAll(answers);
            && (s.highest.Some? ==> s.copy.Some? && s.copy.value.version >= s.highest.value)
            && ((next.ReadCame? || next.ReadLost?) && s.highest.Some? ==>
                  Returned(s.copy, next).Some? && Returned(s.copy, next).value >= s.highest.value)
            && ((next.ReadCame? || next.ReadLost?) && s.copy.Some? && s.copy.value.pending > 0 ==>
                  CopyAfter(s.copy, next) == s.copy)
  {
    if answers != [] {
      ReadYourWrites(answers[..|answers| - 1], answers[|answers| - 1]);
    }
  }

  // ---- Replacements ----

  /** A replacement leaves its own body, whatever the copy or the server held before. */
  lemma ReplacementIsTheBody(h: Option<Held>, s: Server, w: Write, version: int)
    requires w.mode == Cas
    ensures AfterLater(h, w).body == w.body
    ensures (h.Some? ==> version >= h.value.version) ==>
              AfterWritten(h, w, version) == Held(w.body, version, 0)
    ensures ServerPut(s, w).Some? ==> ServerPut(s, w).value == Server(w.body, s.version + 1)
  {
  }

  /** During an outage a write that names a version is taken exactly when it is a merge or that is the version the
    * caller was last shown, 0 without a copy; it is answered with the next one, and pending until it is resent. */
  lemma AcceptedExactly(h: Option<Held>, w: Write)
    ensures var held := if h.Some? then h.value.version else 0;
            Returned(h, WriteLost(w)) ==
            if w.mode == MergeByKey || w.ifVersion == None || w.ifVersion == Some(held) then Some(held + 1) else None
    ensures var after := CopyAfter(h, WriteLost(w));
            if Returned(h, WriteLost(w)) == None then after == h
            else after.Some? && after.value.pending == (if h.Some? then h.value.pending else 0) + 1
  {
  }

  predicate AreReads(answers: seq<Answer>) {
    forall i :: 0 <= i < |answers| ==> answers[i].ReadCame? || answers[i].ReadLost?
  }

  /** After any history, a replacement taken during an outage is what every read serves until it is resent, whatever
    * the copy held and whatever those reads bring. */
  lemma {:induction false} ReplacementIsServed(before: seq<Answer>, w: Write, reads': seq<Answer>)
    requires w.mode == Cas && Returned(SeeAll(before).copy, WriteLost(w)) != None && AreReads(reads')
    ensures var h := SeeAll(before + [WriteLost(w)] + reads').copy;
            && h.Some? && h.value.body == w.body && h.value.pending > 0
            && Returned(SeeAll(before).copy, WriteLost(w)) == Some(h.value.version)
  {
    var all := before + [WriteLost(w)] + reads';
    if reads' == [] {
      assert all[..|all| - 1] == before && all[|all| - 1] == WriteLost(w);
    } else {
      var n := |reads'| - 1;
      ReplacementIsServed(before, w, reads'[..n]);
      assert all[..|all| - 1] == before + [WriteLost(w)] + reads'[..n] && all[|all| - 1] == reads'[n];
    }
  }

  /** The reference server takes a write exactly when it names no version or the current one. */
  lemma ServerTakesExactly(s: Server, w: Write)
    ensures ServerPut(s, w).Some? <==> w.ifVersion == None || w.ifVersion == Some(s.version)
    ensures ServerPut(s, w).Some? ==> ServerPut(s, w).value.version == s.version + 1
    ensures ServerPut(s, w).Some? && w.mode == MergeByKey ==>
              forall k :: Get(ServerPut(s, w).value.body, k) ==
                          if k !in w.body then Get(s.body, k)
                          else if w.body[k] == DELETE then None else Some(w.body[k])
  {
  }

  /** What a resend leaves: one write less pending, the higher version, the body as it was. */
  lemma ResendCounts(h: Held, version: int)
    ensures var after := AfterResent(Some(h), version);
            && after.Some? && after.value.body == h.body
            && after.value.version >= h.version && after.value.version >= version
            && (after.value.version == h.version || after.value.version == version)
            && (h.pending > 0 ==> after.value.pending == h.pending - 1) && (h.pending == 0 ==> after.value.pending == 0)
    ensures AfterResent(None, version) == None
  {
  }
}

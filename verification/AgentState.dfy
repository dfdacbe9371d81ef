/** The SDK's copies of an agent's working state and the outbox that resends what Niadra did not hear
  * (`src/niadra/agent_state.py`, `src/niadra/_outbox.py`). */
module AgentState {
  import opened Basics

  /** A field's value, by its canonical JSON text. */
  type Json = string
  type Body = map<string, Json>

  /** A field written as this, in a merge, is removed. */
  const DELETE: Json := "{\"$delete\": true}"
  const CAPACITY: nat := 1000

  datatype Mode = Cas | MergeByKey
  datatype Key = Key(kind: string, id: string, agent: string)
  datatype Write = Write(key: Key, body: Body, mode: Mode, ifVersion: Option<int>)
  datatype Held = Held(body: Body, version: int, pending: nat)
  datatype WorkingState = WorkingState(body: Body, version: int, degraded: bool)
  datatype StateWrite = StateWrite(stored: bool, version: int, reason: Option<string>, pending: bool)
  datatype Conflict = Conflict(key: Key, body: Body, ifVersion: Option<int>)

  /** Why a resent write did not go through: a 412 or `agent_state_conflict`, or anything else. */
  datatype Refusal = ConflictAnswer | OtherAnswer

  function Get(m: Body, k: string): Option<Json> { if k in m then Some(m[k]) else None }

  /** What one field holds after a write of `value` to it. */
  function Effect(value: Json): Option<Json> { if value == DELETE then None else Some(value) }

  function Applied(base: Body, w: Write): (out: Body)
    ensures w.mode.Cas? ==> out == w.body
    ensures w.mode.MergeByKey? ==>
              forall k :: Get(out, k) == if k in w.body then Effect(w.body[k]) else Get(base, k)
  {
    if w.mode.Cas? then w.body
    else
      map k | k in base.Keys + w.body.Keys && (k in w.body ==> w.body[k] != DELETE) ::
        if k in w.body then w.body[k] else base[k]
  }

  method ApplyWrite(base: Body, w: Write) returns (out: Body)
    ensures out == Applied(base, w)
  {
    if w.mode.Cas? {
      return w.body;
    }
    out := base;
    var left := w.body.Keys;
    while left != {}
      invariant left <= w.body.Keys
      invariant forall k :: Get(out, k) == if k in w.body && k !in left then Effect(w.body[k]) else Get(base, k)
    {
      var name :| name in left;
      ghost var before := out;
      out := if w.body[name] == DELETE then out - {name} else out[name := w.body[name]];
      assert forall k :: k != name ==> Get(out, k) == Get(before, k);
      left := left - {name};
    }
    SameFields(out, Applied(base, w));
  }

  lemma SameFields(a: Body, b: Body)
    requires forall k :: Get(a, k) == Get(b, k)
    ensures a == b
  {
    assert forall k :: k in a <==> Get(a, k).Some?;
    assert forall k :: k in b <==> Get(b, k).Some?;
    forall k | k in a
      ensures k in b && a[k] == b[k]
    {
      assert Get(a, k) == Get(b, k);
    }
  }

  // ---- What each event does to one key's copy ----

  function VersionOf(h: Option<Held>): int { if h.Some? then h.value.version else 0 }

  function BodyOf(h: Option<Held>): Body { if h.Some? then h.value.body else map[] }

  function BaseFor(h: Option<Held>, w: Write): Body { if w.mode.MergeByKey? then BodyOf(h) else map[] }

  /** A read brought `version` and `body`. */
  function AfterRead(h: Option<Held>, body: Body, version: int): (r: Held)
    ensures h.Some? && h.value.pending > 0 ==> r == h.value
    ensures h.Some? ==> r.version >= h.value.version
  {
    if h.None? || (version >= h.value.version && h.value.pending == 0) then Held(body, version, 0) else h.value
  }

  /** Niadra stored the write and answered `version`. */
  function AfterWritten(h: Option<Held>, w: Write, version: int): Held {
    if h.None? || version >= h.value.version then Held(Applied(BaseFor(h, w), w), version, 0) else h.value
  }

  predicate Refuses(h: Option<Held>, w: Write) {
    w.mode.Cas? && w.ifVersion.Some? && w.ifVersion.value != VersionOf(h)
  }

  /** Niadra did not answer, and the copy takes the write. */
  function AfterLater(h: Option<Held>, w: Write): Held {
    Held(Applied(BaseFor(h, w), w), VersionOf(h) + 1, if h.Some? then h.value.pending + 1 else 1)
  }

  /** A resent write was answered with `version`. */
  function AfterResent(h: Option<Held>, version: int): Option<Held> {
    if h.None? then None
    else
      Some(Held(h.value.body, MaxInt(h.value.version, version),
                if h.value.pending == 0 then 0 else h.value.pending - 1))
  }

  function Find(held: map<Key, Held>, key: Key): Option<Held> {
    if key in held then Some(held[key]) else None
  }

  // ---- The outbox ----

  /** A write and its place among all the writes put, which tells two equal writes apart. */
  datatype Queued = Queued(serial: nat, write: Write)

  class Outbox {
    const capacity: nat
    var writes: seq<Queued>
    var dropped: nat
    var serial: nat

    constructor (capacity: nat)
      ensures this.capacity == capacity && writes == [] && dropped == 0 && serial == 0
    {
      this.capacity, writes, dropped, serial := capacity, [], 0, 0;
    }

    ghost predicate Valid()
      reads this
    {
      && |writes| <= capacity
      && (forall i :: 0 <= i < |writes| ==> writes[i].serial < serial)
      && (forall i, j :: 0 <= i < j < |writes| ==> writes[i].serial < writes[j].serial)
    }

    /** Past `capacity` the oldest goes. */
    method Put(w: Write)
      requires Valid()
      modifies this
      ensures Valid() && serial == old(serial) + 1
      ensures var all := old(writes) + [Queued(old(serial), w)];
              if |all| > capacity then writes == all[1..] && dropped == old(dropped) + 1
              else writes == all && dropped == old(dropped)
    {
      writes := writes + [Queued(serial, w)];
      serial := serial + 1;
      while |writes| > capacity
        invariant serial == old(serial) + 1 && |writes| <= |old(writes)| + 1
        invariant var all := old(writes) + [Queued(old(serial), w)];
                  (writes == all && dropped == old(dropped)) ||
                  (|all| > capacity && writes == all[1..] && dropped == old(dropped) + 1)
      {
        writes := writes[1..];
        dropped := dropped + 1;
      }
    }

    /** Takes a settled write out, unless an overflow dropped it while it was in flight. */
    method Remove(q: Queued)
      requires Valid()
      modifies this`writes
      ensures Valid()
      ensures writes == if old(writes) != [] && old(writes)[0] == q then old(writes)[1..] else old(writes)
    {
      if writes != [] && writes[0] == q {
        writes := writes[1..];
      }
    }

    /** Sends what waits, unless the outbox stays `busy` for the whole time: `hears(k)` says whether the k-th attempt
      * had an answer or a final error, `clock(k)` is the reading before it, and `settled` is what was handed to the
      * writes' callbacks. */
    method Flush(busy: bool, deadline: Option<real>, hears: nat -> bool, clock: nat -> real)
      returns (emptied: bool, settled: seq<Queued>)
      requires Valid()
      modifies this`writes
      ensures Valid() && old(writes) == settled + writes
      ensures emptied <==> !busy && writes == []
      ensures busy ==> settled == []
      ensures !busy && !emptied ==>
                !hears(|settled|) || (deadline.Some? && clock(|settled|) >= deadline.value)
      ensures forall k :: 0 <= k < |settled| ==> hears(k) && (deadline.Some? ==> clock(k) < deadline.value)
    {
      settled := [];
      if busy {
        return false, settled;
      }
      while writes != []
        invariant Valid() && old(writes) == settled + writes
        invariant forall k :: 0 <= k < |settled| ==> hears(k) && (deadline.Some? ==> clock(k) < deadline.value)
        decreases |writes|
      {
        if (deadline.Some? && clock(|settled|) >= deadline.value) || !hears(|settled|) {
          return false, settled;
        }
        var head := writes[0];
        Remove(head);
        settled := settled + [head];
      }
      return true, settled;
    }
  }

  // ---- The copies ----

  class AgentStates {
    const outbox: Outbox
    var held: map<Key, Held>
    var conflicts: seq<Conflict>

    constructor (outbox: Outbox)
      ensures this.outbox == outbox && held == map[] && conflicts == []
    {
      this.outbox, held, conflicts := outbox, map[], [];
    }

    method Read(key: Key, body: Body, version: int) returns (served: WorkingState)
      modifies this`held
      ensures held == old(held)[key := AfterRead(Find(old(held), key), body, version)]
      ensures served == WorkingState(held[key].body, held[key].version, false)
    {
      var h := Find(held, key);
      if h.None? || (version >= h.value.version && h.value.pending == 0) {
        held := held[key := Held(body, version, 0)];
      }
      served := WorkingState(held[key].body, held[key].version, false);
    }

    method Unread(key: Key) returns (served: WorkingState)
      ensures served == WorkingState(BodyOf(Find(held, key)), VersionOf(Find(held, key)), true)
    {
      if key in held {
        return WorkingState(held[key].body, held[key].version, true);
      }
      return WorkingState(map[], 0, true);
    }

    method Written(w: Write, stored: bool, version: int, reason: Option<string>) returns (answer: StateWrite)
      modifies this`held
      ensures held == if stored then old(held)[w.key := AfterWritten(Find(old(held), w.key), w, version)]
                      else old(held)
      ensures answer == StateWrite(stored, version, reason, false)
    {
      if stored {
        var h := Find(held, w.key);
        var base: Body := if h.Some? && w.mode.MergeByKey? then h.value.body else map[];
        if h.None? || version >= h.value.version {
          var body := ApplyWrite(base, w);
          held := held[w.key := Held(body, version, 0)];
        }
      }
      answer := StateWrite(stored, version, reason, false);
    }

    method Later(w: Write) returns (answer: StateWrite)
      requires outbox.Valid()
      modifies this`held, outbox
      ensures outbox.Valid()
      ensures Refuses(Find(old(held), w.key), w) ==>
                && answer == StateWrite(false, VersionOf(Find(old(held), w.key)), Some("conflict"), false)
                && held == old(held) && outbox.writes == old(outbox.writes)
      ensures !Refuses(Find(old(held), w.key), w) ==>
                var h := AfterLater(Find(old(held), w.key), w);
                var all := old(outbox.writes) + [Queued(old(outbox.serial), w)];
                && answer == StateWrite(true, h.version, None, true) && held == old(held)[w.key := h]
                && outbox.writes == if |all| > outbox.capacity then all[1..] else all
    {
      var h := Find(held, w.key);
      var copy := if h.Some? then h.value else Held(map[], 0, 0);
      if w.mode.Cas? && w.ifVersion.Some? && w.ifVersion.value != copy.version {
        return StateWrite(false, copy.version, Some("conflict"), false);
      }
      var body := ApplyWrite(if w.mode.MergeByKey? then copy.body else map[], w);
      var pending := if w.key in held then held[w.key].pending + 1 else 1;
      held := held[w.key := Held(body, copy.version + 1, pending)];
      outbox.Put(w);
      answer := StateWrite(true, copy.version + 1, None, true);
    }

    method Resent(w: Write, version: int)
      modifies this`held
      ensures held == match AfterResent(Find(old(held), w.key), version)
                      case None => old(held)
                      case Some(h) => old(held)[w.key := h]
    {
      if w.key in held {
        var h := held[w.key];
        var pending := if h.pending == 0 then 0 else h.pending - 1;
        held := held[w.key := Held(h.body, if h.version >= version then h.version else version, pending)];
      }
    }

    /** Without a copy, whatever the next read brings is held. A conflict is kept with its write. */
    method ResentRefused(w: Write, refusal: Refusal)
      modifies this
      ensures held == old(held) - {w.key}
      ensures conflicts == if refusal.ConflictAnswer? then old(conflicts) + [Conflict(w.key, w.body, w.ifVersion)]
                           else old(conflicts)
    {
      held := held - {w.key};
      if refusal.ConflictAnswer? {
        conflicts := conflicts + [Conflict(w.key, w.body, w.ifVersion)];
      }
    }
  }

  // ---- The reference server (`_played_put`) ----

  datatype Server = Server(body: Body, version: int)

  /** None: the version moved. */
  function ServerPut(s: Server, w: Write): Option<Server> {
    if w.ifVersion.Some? && w.ifVersion.value != s.version then None
    else Some(Server(Applied(if w.mode.MergeByKey? then s.body else map[], w), s.version + 1))
  }
}

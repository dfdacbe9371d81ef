/** The deltas a conversation keeps against its current pack (`_Session._absorb` in
  * `src/niadra/conversation.py`). */
module Session {
  import opened Basics
  import opened PackCache

  const MAX_DELTAS: nat := 20

  datatype State = State(etag: Option<string>, deltas: seq<string>)

  function After(s: State, context: Context): State {
    if context.origin == "empty" then State(None, [])
    else if context.etag != s.etag then State(context.etag, [])
    else if DeltaOf(context) != [] && context.delta.value !in s.deltas then
      s.(deltas := Last(s.deltas + [context.delta.value], MAX_DELTAS))
    else s
  }

  class Session {
    var etag: Option<string>
    var deltas: seq<string>
    var lastContext: Option<Context>

    ghost function View(): State
      reads this
    {
      State(etag, deltas)
    }

    constructor ()
      ensures View() == State(None, []) && lastContext == None
    {
      etag, deltas, lastContext := None, [], None;
    }

    method Absorb(context: Context) returns (result: Context)
      modifies this
      ensures View() == After(old(View()), context)
      ensures result == context.(delta := Joined(deltas)) && lastContext == Some(result)
    {
      if context.origin == "empty" {
        etag, deltas := None, [];
      } else if context.etag != etag {
        etag, deltas := context.etag, [];
      } else if context.delta.Some? && context.delta.value != "" && context.delta.value !in deltas {
        deltas := Last(deltas + [context.delta.value], MAX_DELTAS);
      }
      result := context.(delta := Joined(deltas));
      lastContext := Some(result);
    }
  }

  // ---- One pack's chunks ----

  /** Every context serves the pack `etag`. */
  predicate OnePack(contexts: seq<Context>, etag: Option<string>) {
    forall i :: 0 <= i < |contexts| ==> contexts[i].origin != "empty" && contexts[i].etag == etag
  }

  function AfterAll(s: State, contexts: seq<Context>): State {
    if contexts == [] then s else After(AfterAll(s, contexts[..|contexts| - 1]), contexts[|contexts| - 1])
  }

  /** The chunks the contexts bring, in order. */
  function Chunks(contexts: seq<Context>): seq<string> {
    if contexts == [] then []
    else Chunks(contexts[..|contexts| - 1]) + DeltaOf(contexts[|contexts| - 1])
  }

  /** Each chunk where it first came. */
  function FirstTimes<T(==)>(chunks: seq<T>): (r: seq<T>)
    ensures |r| <= |chunks|
  {
    if chunks == [] then []
    else
      var before := FirstTimes(chunks[..|chunks| - 1]);
      if chunks[|chunks| - 1] in before then before else before + [chunks[|chunks| - 1]]
  }

  /** What the session keeps of a pack's chunks. */
  function Kept<T(==)>(chunks: seq<T>): seq<T> {
    if chunks == [] then []
    else
      var before := Kept(chunks[..|chunks| - 1]);
      if chunks[|chunks| - 1] in before then before else Last(before + [chunks[|chunks| - 1]], MAX_DELTAS)
  }

  lemma {:induction false} SessionKeeps(contexts: seq<Context>, etag: Option<string>)
    requires OnePack(contexts, etag)
    ensures AfterAll(State(etag, []), contexts) == State(etag, Kept(Chunks(contexts)))
  {
    if contexts != [] {
      var init, last := contexts[..|contexts| - 1], contexts[|contexts| - 1];
      SessionKeeps(init, etag);
      if DeltaOf(last) != [] {
        assert Chunks(contexts)[..|Chunks(init)|] == Chunks(init);
      } else {
        assert Chunks(contexts) == Chunks(init);
      }
    }
  }

  /** No chunk comes again once twenty newer ones pushed it out. */
  predicate NoComeback<T(==)>(chunks: seq<T>) {
    forall i :: 0 <= i < |chunks| ==>
      (chunks[i] in FirstTimes(chunks[..i]) ==> chunks[i] in Last(FirstTimes(chunks[..i]), MAX_DELTAS))
  }

  lemma LastOfLast<T>(s: seq<T>, x: T, n: nat)
    ensures Last(Last(s, n) + [x], n) == Last(s + [x], n)
  {
  }

  lemma PrefixesOfPrefix<T>(chunks: seq<T>)
    requires chunks != []
    ensures forall i :: 0 <= i <= |chunks| - 1 ==> chunks[..|chunks| - 1][..i] == chunks[..i]
  {
  }

  lemma {:induction false} KeptIfNoComeback<T>(chunks: seq<T>)
    requires NoComeback(chunks)
    ensures Kept(chunks) == Last(FirstTimes(chunks), MAX_DELTAS)
  {
    if chunks != [] {
      var init, last := chunks[..|chunks| - 1], chunks[|chunks| - 1];
      PrefixesOfPrefix(chunks);
      assert NoComeback(init);
      KeptIfNoComeback(init);
      if last !in FirstTimes(init) {
        LastOfLast(FirstTimes(init), last, MAX_DELTAS);
      }
    }
  }

  ghost predicate KeepsLastTwenty<T>(chunks: seq<T>) { Kept(chunks) == Last(FirstTimes(chunks), MAX_DELTAS) }

  lemma PrefixKeeps<T>(chunks: seq<T>, n: nat)
    requires NoComeback(chunks) && n <= |chunks|
    ensures KeepsLastTwenty(chunks[..n])
  {
    assert forall i :: 0 <= i < n ==> chunks[..n][..i] == chunks[..i];
    KeptIfNoComeback(chunks[..n]);
  }

  lemma ComebackBreaks<T>(init: seq<T>, last: T)
    requires last in FirstTimes(init) && last !in Last(FirstTimes(init), MAX_DELTAS)
    ensures !KeepsLastTwenty(init) || !KeepsLastTwenty(init + [last])
  {
    assert (init + [last])[..|init|] == init;
    if KeepsLastTwenty(init) {
      var kept := Kept(init + [last]);
      assert kept[|kept| - 1] == last;
    }
  }

  /** The session keeps, after every context, the last twenty distinct chunks in the order they first came,
    * exactly when no chunk comes back after it was pushed out. */
  lemma {:induction false} LastTwentyDistinct<T>(chunks: seq<T>)
    ensures NoComeback(chunks) <==> forall n :: 0 <= n <= |chunks| ==> KeepsLastTwenty(chunks[..n])
  {
    if NoComeback(chunks) {
      forall n | 0 <= n <= |chunks|
        ensures KeepsLastTwenty(chunks[..n])
      {
        PrefixKeeps(chunks, n);
      }
    } else {
      var i :| 0 <= i < |chunks| && chunks[i] in FirstTimes(chunks[..i]) &&
               chunks[i] !in Last(FirstTimes(chunks[..i]), MAX_DELTAS);
      assert chunks[..i + 1] == chunks[..i] + [chunks[i]];
      ComebackBreaks(chunks[..i], chunks[i]);
    }
  }

  /** Never more than twenty, and never one twice. */
  lemma {:induction false} KeptIsShortAndDistinct<T>(chunks: seq<T>)
    ensures |Kept(chunks)| <= MAX_DELTAS
    ensures forall i, j :: 0 <= i < j < |Kept(chunks)| ==> Kept(chunks)[i] != Kept(chunks)[j]
  {
    if chunks != [] {
      KeptIsShortAndDistinct(chunks[..|chunks| - 1]);
    }
  }

  // ---- When the pack changes ----

  /** After any history: once a context brings another pack, what is kept is that pack's, from the chunks that come
    * after it; the chunk that came with it is not among them. */
  lemma NewPackStartsOver(before: seq<Context>, first: Context, pack: seq<Context>)
    requires first.origin != "empty" && first.etag != AfterAll(State(None, []), before).etag
    requires OnePack(pack, first.etag)
    ensures AfterAll(State(None, []), before + [first] + pack) == State(first.etag, Kept(Chunks(pack)))
  {
    var known := before + [first];
    assert known[..|before|] == before && known[|before|] == first;
    AllInTwo(State(None, []), known, pack);
    SessionKeeps(pack, first.etag);
  }

  lemma {:induction false} AllInTwo(s: State, a: seq<Context>, b: seq<Context>)
    ensures AfterAll(s, a + b) == AfterAll(AfterAll(s, a), b)
  {
    if b == [] {
      assert a + b == a;
    } else {
      AllInTwo(s, a, b[..|b| - 1]);
      assert (a + b)[..|a + b| - 1] == a + b[..|b| - 1];
    }
  }

  /** A context with nothing to serve leaves no pack and no chunk. */
  lemma EmptyLeavesNothing(s: State, context: Context)
    requires context.origin == "empty"
    ensures After(s, context) == State(None, [])
  {
  }
}

/** One voice conversation as it is followed from turn to turn (`VoiceLine` in `src/niadra/_voice.py`), and the
  * steps the synchronous client takes on it (`_voice_heard`, `_voice_settle`, `_voice_speculate`, `_voice_run` and
  * `_forget_scope` in `src/niadra/_client.py`). A text is its words. When a partial has settled is left to the
  * clock. */
module VoiceLine {
  import opened Basics

  const MAX_READS: nat := 4

  type Words = seq<string>

  /** A settled partial, numbered in the order they settle. */
  datatype Settled = Settled(serial: nat, words: Words)

  datatype Status = Running | Answered | Lost

  /** One read: its words, the settled partial it speculates on, if any, and where it stands. */
  datatype TurnRead = TurnRead(words: Words, serial: Option<nat>, status: Status)

  /** `started` holds every read of the line, by number, and `recent` the numbers it remembers. */
  datatype Line = Line(
    started: seq<TurnRead>, recent: seq<nat>, heard: Option<Words>, settling: bool,
    speculating: Option<nat>, waiting: Option<Settled>, closed: bool, asked: bool)

  const NEW := Line([], [], None, false, None, None, false, false)

  predicate Covers(partial: Words, final: Words, minCoverage: real) {
    if partial == [] || final == [] then partial == final
    else partial <= final && |partial| as real >= minCoverage * |final| as real
  }

  predicate WellFormed(l: Line) { forall i :: 0 <= i < |l.recent| ==> l.recent[i] < |l.started| }

  /** Which of the remembered reads can serve a turn of `words`, from the latest back; a lost one cannot. */
  function Covering(l: Line, words: Words, minCoverage: real): seq<nat>
    requires WellFormed(l)
    decreases |l.recent|
  {
    if l.recent == [] then []
    else
      var n := |l.recent| - 1;
      var read := l.started[l.recent[n]];
      (if Covers(read.words, words, minCoverage) && !read.status.Lost? then [l.recent[n]] else []) +
      Covering(l.(recent := l.recent[..n]), words, minCoverage)
  }

  predicate AlreadyRead(l: Line, words: Words)
    requires WellFormed(l)
  {
    exists i :: 0 <= i < |l.recent| && l.started[l.recent[i]].words == words && !l.started[l.recent[i]].status.Lost?
  }

  /** A turn whose words were read finds that read, so it starts no second one. */
  lemma {:induction false} ReadWordsAreCovered(l: Line, words: Words, minCoverage: real)
    requires WellFormed(l) && AlreadyRead(l, words) && minCoverage <= 1.0
    ensures Covering(l, words, minCoverage) != []
    decreases |l.recent|
  {
    var n := |l.recent| - 1;
    var i :| 0 <= i < |l.recent| && l.started[l.recent[i]].words == words && !l.started[l.recent[i]].status.Lost?;
    if i < n {
      var older := l.(recent := l.recent[..n]);
      assert older.started[older.recent[i]].words == words;
      ReadWordsAreCovered(older, words, minCoverage);
    } else {
      assert minCoverage * |words| as real <= |words| as real;
    }
  }

  /** A read answers a turn that goes on from its words, as long as those are enough of it; without words, only a turn
    * without any. */
  lemma CoversExactly(partial: Words, final: Words, minCoverage: real)
    ensures Covers(partial, final, minCoverage) <==>
            if partial != [] && final != [] then
              && |partial| <= |final| && (forall i :: 0 <= i < |partial| ==> partial[i] == final[i])
              && |partial| as real >= minCoverage * |final| as real
            else |partial| == 0 && |final| == 0
  {
  }

  /** Hearing more of the turn never takes a read out: a longer start of it covers it too. */
  lemma LongerStartCovers(partial: Words, longer: Words, final: Words, minCoverage: real)
    requires Covers(partial, final, minCoverage) && partial <= longer <= final
    ensures Covers(longer, final, minCoverage)
  {
  }

  /** The reads that can serve a turn are those remembered that were not lost and cover it, in no other order than from
    * the latest back. */
  lemma {:induction false} CoveringExactly(l: Line, words: Words, minCoverage: real, id: nat)
    requires WellFormed(l)
    ensures id in Covering(l, words, minCoverage) <==>
            id in l.recent && Covers(l.started[id].words, words, minCoverage) && l.started[id].status != Lost
    decreases |l.recent|
  {
    if l.recent != [] {
      var n := |l.recent| - 1;
      CoveringExactly(l.(recent := l.recent[..n]), words, minCoverage, id);
      assert l.recent == l.recent[..n] + [l.recent[n]];
    }
  }

  lemma {:induction false} CoveringFromTheLatest(l: Line, words: Words, minCoverage: real)
    requires WellFormed(l) && forall i, j :: 0 <= i < j < |l.recent| ==> l.recent[i] < l.recent[j]
    ensures var found := Covering(l, words, minCoverage);
            forall i, j :: 0 <= i < j < |found| ==> found[i] > found[j]
    decreases |l.recent|
  {
    if l.recent != [] {
      var n := |l.recent| - 1;
      var older := l.(recent := l.recent[..n]);
      CoveringFromTheLatest(older, words, minCoverage);
      var found := Covering(older, words, minCoverage);
      forall i | 0 <= i < |found|
        ensures found[i] < l.recent[n]
      {
        CoveringExactly(older, words, minCoverage, found[i]);
        var k :| 0 <= k < n && l.recent[..n][k] == found[i];
        assert l.recent[k] == found[i];
      }
    }
  }

  // ---- What each step does to the line, under the lock ----

  function Remembered(recent: seq<nat>, id: nat): (r: seq<nat>)
    ensures forall i :: 0 <= i < |r| ==> r[i] == id || r[i] in recent
    ensures |r| <= MAX_READS
  {
    var all := recent + [id];
    if |all| <= MAX_READS then all else all[|all| - MAX_READS..]
  }

  /** `submits`: whether the pool took the read, which it does not while it shuts down. */
  function StartStep(l: Line, words: Words, serial: Option<nat>, submits: bool): Line {
    l.(started := l.started + [TurnRead(words, serial, if submits then Running else Lost)],
       recent := Remembered(l.recent, |l.started|))
  }

  function HearStep(l: Line, words: Words): Line {
    if l.closed || !l.asked then l else l.(heard := Some(words), settling := true)
  }

  predicate Settles(l: Line) { !l.closed && l.heard.Some? }

  function SettleStep(l: Line): Line {
    l.(heard := if Settles(l) then None else l.heard, settling := false)
  }

  predicate InFlight(l: Line) {
    l.speculating.Some? && l.speculating.value < |l.started| && l.started[l.speculating.value].status.Running?
  }

  datatype Verdict = Closed | NothingNew | Wait | Start

  function Judge(l: Line, words: Words): Verdict
    requires WellFormed(l)
  {
    if l.closed || !l.asked then Closed
    else if words == [] || AlreadyRead(l, words) then NothingNew
    else if InFlight(l) then Wait
    else Start
  }

  function SpeculateStep(l: Line, text: Settled, submits: bool): Line
    requires WellFormed(l)
  {
    match Judge(l, text.words)
    case Closed => l
    case NothingNew => l
    case Wait => l.(waiting := Some(text))
    case Start => StartStep(l, text.words, Some(text.serial), submits).(speculating := Some(|l.started|))
  }

  function DoneStep(l: Line, id: nat, ok: bool): Line
    requires id < |l.started|
  {
    var read := l.started[id].(status := if ok then Answered else Lost);
    var mine := l.speculating == Some(id);
    l.(started := l.started[id := read],
       speculating := if mine then None else l.speculating, waiting := if mine then None else l.waiting)
  }

  /** What a finished read takes along to speculate on next. */
  function Following(l: Line, id: nat): Option<Settled> { if l.speculating == Some(id) then l.waiting else None }

  function DropStep(l: Line): Line { l.(recent := [], heard := None, waiting := None, closed := true) }

  /** A verified or identified caller: the reads were made for another view of the conversation. A read that runs
    * goes on, and a text that waits stays. */
  function ForgetReadsStep(l: Line): Line { l.(recent := [], speculating := None) }

  class VoiceLine {
    var started: seq<TurnRead>
    var recent: seq<nat>
    var heard: Option<Words>
    var settling: bool
    var speculating: Option<nat>
    var waiting: Option<Settled>
    var closed: bool
    var asked: bool

    ghost function View(): Line
      reads this
    {
      Line(started, recent, heard, settling, speculating, waiting, closed, asked)
    }

    ghost predicate Valid()
      reads this
    {
      WellFormed(View())
    }

    constructor ()
      ensures View() == NEW && Valid()
    {
      started, recent, heard, settling := [], [], None, false;
      speculating, waiting, closed, asked := None, None, false, false;
    }

    method Add(words: Words, serial: Option<nat>, submits: bool) returns (id: nat)
      requires Valid()
      modifies this`started, this`recent
      ensures Valid() && View() == StartStep(old(View()), words, serial, submits) && id == old(|started|)
    {
      id := |started|;
      started := started + [TurnRead(words, serial, if submits then Running else Lost)];
      recent := recent + [id];
      if |recent| > MAX_READS {
        recent := recent[|recent| - MAX_READS..];
      }
    }

    method WasRead(words: Words) returns (found: bool)
      requires Valid()
      ensures found <==> AlreadyRead(View(), words)
    {
      for i := 0 to |recent|
        invariant forall j :: 0 <= j < i ==>
                                started[recent[j]].words != words || started[recent[j]].status.Lost?
      {
        if started[recent[i]].words == words && !started[recent[i]].status.Lost? {
          return true;
        }
      }
      return false;
    }

    method Answering(words: Words, minCoverage: real) returns (found: seq<nat>)
      requires Valid()
      ensures found == Covering(View(), words, minCoverage)
    {
      found := [];
      for i := 0 to |recent|
        invariant found == Covering(View().(recent := recent[..i]), words, minCoverage)
      {
        assert recent[..i + 1][..i] == recent[..i];
        var read := started[recent[i]];
        if Covers(read.words, words, minCoverage) && !read.status.Lost? {
          found := [recent[i]] + found;
        } else {
          assert [] + found == found;
        }
      }
      assert recent[..|recent|] == recent;
    }

    /** A partial transcript; true when the caller has to start a settler. */
    method Hear(words: Words) returns (starts: bool)
      modifies this`heard, this`settling
      ensures View() == HearStep(old(View()), words)
      ensures starts <==> !closed && asked && !old(settling)
    {
      if closed || !asked {
        return false;
      }
      heard := Some(words);
      starts := !settling;
      settling := true;
    }

    /** The settled partial, or None when the line closed or the text is gone. */
    method Settle() returns (text: Option<Words>)
      modifies this`heard, this`settling
      ensures View() == SettleStep(old(View()))
      ensures text == if Settles(old(View())) then old(heard) else None
    {
      settling := false;
      if closed || heard.None? {
        return None;
      }
      text, heard := heard, None;
    }

    method Speculate(text: Settled, submits: bool)
      requires Valid()
      modifies this`started, this`recent, this`speculating, this`waiting
      ensures Valid() && View() == SpeculateStep(old(View()), text, submits)
    {
      var known := WasRead(text.words);
      if closed || !asked || text.words == [] || known {
        return;
      }
      if speculating.Some? && speculating.value < |started| && started[speculating.value].status.Running? {
        waiting := Some(text);
        return;
      }
      var id := Add(text.words, Some(text.serial), submits);
      speculating := Some(id);
    }

    method Done(id: nat, ok: bool) returns (following: Option<Settled>)
      requires Valid() && id < |started|
      modifies this`started, this`speculating, this`waiting
      ensures Valid() && View() == DoneStep(old(View()), id, ok)
      ensures following == Following(old(View()), id)
    {
      started := started[id := started[id].(status := if ok then Answered else Lost)];
      following := None;
      if speculating == Some(id) {
        speculating := None;
        following, waiting := waiting, None;
      }
    }

    method ForgetReads()
      modifies this`recent, this`speculating
      ensures View() == ForgetReadsStep(old(View())) && Valid()
    {
      recent, speculating := [], None;
    }

    method Drop()
      modifies this`recent, this`heard, this`waiting, this`closed
      ensures View() == DropStep(old(View())) && Valid()
    {
      closed, recent, heard, waiting := true, [], None, None;
    }
  }
}

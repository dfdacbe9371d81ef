/** UUIDv7 keys (`src/niadra/_ids.py`; section 5.7 of RFC 9562), for any clock readings. The random bits are
  * parameters. */
module Uuid7 {
  const COUNTER: nat := 0x1000
  const MS: nat := 0x1_0000_0000_0000
  const B62: nat := 0x4000_0000_0000_0000
  const B64: nat := 0x1_0000_0000_0000_0000
  const B76: nat := 0x1000 * B64
  const B80: nat := 0x10 * B76

  /** The fields side by side: 48 bits of time, version 7, the counter, variant 2, 62 random bits. */
  function Assemble(ms: nat, counter: nat, random: nat): nat {
    (ms % MS) * B80 + 7 * B76 + counter * B64 + 2 * B62 + random
  }

  datatype State = State(lastMs: nat, counter: nat)

  function After(s: State, reading: int, seed: nat): State {
    if reading <= s.lastMs then
      var counter := (s.counter + 1) % COUNTER;
      State(if counter == 0 then s.lastMs + 1 else s.lastMs, counter)
    else State(reading, seed % 0x800)
  }

  /** Time and counter as one number. */
  function Tick(s: State): nat { COUNTER * s.lastMs + s.counter }

  class Generator {
    var lastMs: nat
    var counter: nat

    ghost function View(): State
      reads this
    {
      State(lastMs, counter)
    }

    constructor ()
      ensures View() == State(0, 0)
    {
      lastMs, counter := 0, 0;
    }

    /** `seed` holds the 16 random bits of a new millisecond, `random` the last 62. */
    method Next(reading: int, seed: nat, random: nat) returns (value: nat)
      requires counter < COUNTER
      modifies this
      ensures View() == After(old(View()), reading, seed) && counter < COUNTER
      ensures value == Assemble(lastMs, counter, random)
    {
      var ms := reading;
      if ms <= lastMs {
        ms := lastMs;
        counter := (counter + 1) % COUNTER;
        if counter == 0 {
          ms := ms + 1;
        }
      } else {
        counter := seed % 0x800;
      }
      lastMs := ms;
      value := Assemble(ms, counter, random);
    }
  }

  /** The version and variant fields are those of a UUIDv7, and the value has 128 bits. */
  lemma VersionAndVariant(ms: nat, counter: nat, random: nat)
    requires counter < COUNTER && random < B62
    ensures Assemble(ms, counter, random) / B76 % 16 == 7
    ensures Assemble(ms, counter, random) / B62 % 4 == 2
    ensures Assemble(ms, counter, random) < MS * B80
  {
    var low := counter * B64 + 2 * B62 + random;
    assert low < B76;
    assert Assemble(ms, counter, random) == (ms % MS * 16 + 7) * B76 + low;
    assert Assemble(ms, counter, random) == (ms % MS * 0x4_0000 + 7 * 0x4000 + counter * 4 + 2) * B62 + random;
  }

  lemma TickGrows(s: State, reading: int, seed: nat)
    requires s.counter < COUNTER
    ensures var t := After(s, reading, seed);
            && t.counter < COUNTER && Tick(t) > Tick(s) && t.lastMs >= s.lastMs && t.lastMs >= reading
            && (Tick(t) == Tick(s) + 1 || (t.lastMs == reading && t.counter < 0x800))
  {
  }

  lemma LaterIsLarger(s: State, t: State, r1: nat, r2: nat)
    requires s.counter < COUNTER && t.counter < COUNTER && Tick(s) < Tick(t) && t.lastMs < MS
    requires r1 < B62 && r2 < B62
    ensures Assemble(s.lastMs, s.counter, r1) < Assemble(t.lastMs, t.counter, r2)
  {
    assert s.lastMs <= t.lastMs;
  }

  function AfterAll(readings: seq<int>, seeds: nat -> nat): State {
    if readings == [] then State(0, 0)
    else After(AfterAll(readings[..|readings| - 1], seeds), readings[|readings| - 1], seeds(|readings|))
  }

  /** The value of the n-th call. */
  function ValueOf(readings: seq<int>, seeds: nat -> nat, randoms: nat -> nat): nat {
    var s := AfterAll(readings, seeds);
    Assemble(s.lastMs, s.counter, randoms(|readings|))
  }

  predicate AtMost(readings: seq<int>, largest: nat) { forall i :: 0 <= i < |readings| ==> readings[i] <= largest }

  /** After n calls, time and counter are at most 4096 times the largest reading, plus 2047, plus n: the ids run
    * ahead of the clock by no more than one tick a call. */
  lemma {:induction false} TicksStayClose(readings: seq<int>, seeds: nat -> nat, largest: nat)
    requires AtMost(readings, largest)
    ensures AfterAll(readings, seeds).counter < COUNTER
    ensures Tick(AfterAll(readings, seeds)) <= COUNTER * largest + 2047 + |readings|
  {
    if readings != [] {
      var init := readings[..|readings| - 1];
      TicksStayClose(init, seeds, largest);
      TickGrows(AfterAll(init, seeds), readings[|readings| - 1], seeds(|readings|));
    }
  }

  lemma {:induction false} TicksIncrease(readings: seq<int>, seeds: nat -> nat, m: nat)
    requires m <= |readings|
    ensures AfterAll(readings, seeds).counter < COUNTER && AfterAll(readings[..m], seeds).counter < COUNTER
    ensures m < |readings| ==> Tick(AfterAll(readings[..m], seeds)) < Tick(AfterAll(readings, seeds))
  {
    assert readings[..|readings|] == readings;
    if readings != [] {
      var init := readings[..|readings| - 1];
      if m < |readings| {
        assert init[..m] == readings[..m];
        TicksIncrease(init, seeds, m);
      } else {
        TicksIncrease(init, seeds, m - 1);
      }
      TickGrows(AfterAll(init, seeds), readings[|readings| - 1], seeds(|readings|));
    }
  }

  /** For any clock readings, even backwards, a later id is larger, while the millisecond fits its field. */
  lemma IdsIncrease(readings: seq<int>, seeds: nat -> nat, randoms: nat -> nat, m: nat)
    requires m < |readings| && AfterAll(readings, seeds).lastMs < MS
    requires randoms(m) < B62 && randoms(|readings|) < B62
    ensures ValueOf(readings[..m], seeds, randoms) < ValueOf(readings, seeds, randoms)
  {
    TicksIncrease(readings, seeds, m);
    LaterIsLarger(AfterAll(readings[..m], seeds), AfterAll(readings, seeds), randoms(m), randoms(|readings|));
  }

  /** The other fields: the millisecond in the first 48 bits, the counter in the twelve after the version, and the
    * random bits last. */
  lemma TimeCounterAndRandom(ms: nat, counter: nat, random: nat)
    requires counter < COUNTER && random < B62
    ensures Assemble(ms, counter, random) / 0x1_0000_0000_0000_0000_0000 == ms % 0x1_0000_0000_0000
    ensures Assemble(ms, counter, random) / 0x1_0000_0000_0000_0000 % 0x1000 == counter
    ensures Assemble(ms, counter, random) % 0x4000_0000_0000_0000 == random
  {
    var time := ms % MS;
    Over80(time, 7 * B76 + counter * B64 + 2 * B62 + random);
    Over64(time * 0x10 + 7, counter, 2 * B62 + random);
    Over62((time * 0x10 + 7) * 0x4000 + counter * 4 + 2, random);
  }

  lemma Over62(high: nat, low: nat)
    requires low < B62
    ensures (high * B62 + low) % B62 == low
  {
  }

  lemma Over80(high: nat, low: nat)
    requires low < B80
    ensures (high * B80 + low) / B80 == high
  {
  }

  lemma Over64(high: nat, middle: nat, low: nat)
    requires middle < 0x1000 && low < B64
    ensures ((high * 0x1000 + middle) * B64 + low) / B64 % 0x1000 == middle
  {
    assert ((high * 0x1000 + middle) * B64 + low) / B64 == high * 0x1000 + middle;
  }

  /** A reading past the last millisecond is taken, with eleven random bits to count from; any other counts one more,
    * into the next millisecond after 4096. */
  lemma FollowsTheClock(s: State, reading: int, seed: nat)
    requires s.counter < COUNTER
    ensures var t := After(s, reading, seed);
            if reading > s.lastMs then t.lastMs == reading && t.counter == seed % 2048
            else if s.counter < 4095 then t == State(s.lastMs, s.counter + 1)
            else t == State(s.lastMs + 1, 0)
  {
  }
}

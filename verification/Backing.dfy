/** Which values an answer states and whether its sources back them (`src/niadra/backing.py`). What the regular
  * expressions match is a parameter: any list of candidates. */
module Backing {
  const MAX_SUM_TERMS: nat := 64
  const MAX_FACTOR: nat := 60

  datatype Kind = Amount | Date | Code | Numeric
  datatype Found = Found(kind: Kind, raw: string, start: int, end: int, key: string)

  /** A match in the order the patterns are tried: a value, or a time of day, which only takes its span. */
  datatype Candidate = Value(found: Found) | TimeOfDay(start: int, end: int)

  // ---- Which spans are read ----

  function StartOf(c: Candidate): int { if c.Value? then c.found.start else c.start }

  function EndOf(c: Candidate): int { if c.Value? then c.found.end else c.end }

  predicate Apart(s1: int, e1: int, s2: int, e2: int) { e1 <= s2 || s1 >= e2 }

  predicate Free(taken: seq<(int, int)>, start: int, end: int) {
    forall i :: 0 <= i < |taken| ==> Apart(start, end, taken[i].0, taken[i].1)
  }

  /** The candidates that take their span: each one free of all that took theirs before it. */
  function Taking(cs: seq<Candidate>): seq<Candidate> {
    if cs == [] then []
    else
      var before, last := Taking(cs[..|cs| - 1]), cs[|cs| - 1];
      if Free(Spans(before), StartOf(last), EndOf(last)) then before + [last] else before
  }

  function Spans(cs: seq<Candidate>): (r: seq<(int, int)>)
    ensures |r| == |cs| && forall i :: 0 <= i < |cs| ==> r[i] == (StartOf(cs[i]), EndOf(cs[i]))
  {
    if cs == [] then [] else Spans(cs[..|cs| - 1]) + [(StartOf(cs[|cs| - 1]), EndOf(cs[|cs| - 1]))]
  }

  function Values(cs: seq<Candidate>): seq<Found> {
    if cs == [] then []
    else Values(cs[..|cs| - 1]) + (if cs[|cs| - 1].Value? then [cs[|cs| - 1].found] else [])
  }

  /** Python's stable `sort(key=start)`. */
  function Inserted(sorted: seq<Found>, f: Found): seq<Found> {
    if sorted == [] || sorted[|sorted| - 1].start <= f.start then sorted + [f]
    else Inserted(sorted[..|sorted| - 1], f) + [sorted[|sorted| - 1]]
  }

  function ByStart(fs: seq<Found>): seq<Found> {
    if fs == [] then [] else Inserted(ByStart(fs[..|fs| - 1]), fs[|fs| - 1])
  }

  predicate Disjoint(fs: seq<Found>) {
    forall i, j :: 0 <= i < j < |fs| ==> Apart(fs[i].start, fs[i].end, fs[j].start, fs[j].end)
  }

  predicate Ascending(fs: seq<Found>) { forall i, j :: 0 <= i < j < |fs| ==> fs[i].start <= fs[j].start }

  predicate ApartFromAll(f: Found, fs: seq<Found>) {
    forall i :: 0 <= i < |fs| ==> Apart(fs[i].start, fs[i].end, f.start, f.end)
  }

  lemma {:induction false} InsertedHolds(sorted: seq<Found>, f: Found)
    ensures multiset(Inserted(sorted, f)) == multiset(sorted) + multiset{f}
  {
    if !(sorted == [] || sorted[|sorted| - 1].start <= f.start) {
      InsertedHolds(sorted[..|sorted| - 1], f);
      assert sorted == sorted[..|sorted| - 1] + [sorted[|sorted| - 1]];
    }
  }

  lemma InsertedIs(sorted: seq<Found>, f: Found, i: nat)
    requires i < |Inserted(sorted, f)|
    ensures Inserted(sorted, f)[i] == f || Inserted(sorted, f)[i] in sorted
  {
    InsertedHolds(sorted, f);
    assert Inserted(sorted, f)[i] in multiset(Inserted(sorted, f));
  }

  lemma {:induction false} InsertedAscends(sorted: seq<Found>, f: Found)
    requires Ascending(sorted)
    ensures Ascending(Inserted(sorted, f))
  {
    if !(sorted == [] || sorted[|sorted| - 1].start <= f.start) {
      var init, last := sorted[..|sorted| - 1], sorted[|sorted| - 1];
      InsertedAscends(init, f);
      forall i | 0 <= i < |Inserted(init, f)|
        ensures Inserted(init, f)[i].start <= last.start
      {
        InsertedIs(init, f, i);
      }
    }
  }

  lemma {:induction false} InsertedIsDisjoint(sorted: seq<Found>, f: Found)
    requires Disjoint(sorted) && ApartFromAll(f, sorted)
    ensures Disjoint(Inserted(sorted, f))
  {
    if !(sorted == [] || sorted[|sorted| - 1].start <= f.start) {
      var init, last := sorted[..|sorted| - 1], sorted[|sorted| - 1];
      InsertedIsDisjoint(init, f);
      forall i | 0 <= i < |Inserted(init, f)|
        ensures Apart(Inserted(init, f)[i].start, Inserted(init, f)[i].end, last.start, last.end)
      {
        InsertedIs(init, f, i);
      }
    }
  }

  lemma {:induction false} ValuesWithin(cs: seq<Candidate>, c: Candidate)
    requires Free(Spans(cs), StartOf(c), EndOf(c))
    ensures c.Value? ==> ApartFromAll(c.found, Values(cs))
  {
    if cs != [] {
      var init := cs[..|cs| - 1];
      assert Free(Spans(init), StartOf(c), EndOf(c)) by {
        forall i | 0 <= i < |init|
          ensures Apart(StartOf(c), EndOf(c), Spans(init)[i].0, Spans(init)[i].1)
        {
          assert Spans(init)[i] == Spans(cs)[i];
        }
      }
      ValuesWithin(init, c);
      assert Spans(cs)[|cs| - 1] == (StartOf(cs[|cs| - 1]), EndOf(cs[|cs| - 1]));
    }
  }

  /** The values kept have pairwise disjoint spans, in order, and are the values that took theirs. */
  lemma {:induction false} KeptAreDisjoint(cs: seq<Candidate>)
    ensures var kept := ByStart(Values(Taking(cs)));
            Disjoint(kept) && Ascending(kept) && multiset(kept) == multiset(Values(Taking(cs)))
  {
    if cs != [] {
      var before, last := Taking(cs[..|cs| - 1]), cs[|cs| - 1];
      KeptAreDisjoint(cs[..|cs| - 1]);
      if Free(Spans(before), StartOf(last), EndOf(last)) {
        assert (before + [last])[..|before|] == before;
        ValuesWithin(before, last);
        if last.Value? {
          var fs := Values(before);
          assert (fs + [last.found])[..|fs|] == fs;
          AllApart(last.found, fs, ByStart(fs));
          InsertedHolds(ByStart(fs), last.found);
          InsertedAscends(ByStart(fs), last.found);
          InsertedIsDisjoint(ByStart(fs), last.found);
        } else {
          assert Values(before) + [] == Values(before);
        }
      }
    }
  }

  lemma AllApart(f: Found, fs: seq<Found>, sorted: seq<Found>)
    requires ApartFromAll(f, fs) && multiset(sorted) == multiset(fs)
    ensures ApartFromAll(f, sorted)
  {
    forall i | 0 <= i < |sorted|
      ensures Apart(sorted[i].start, sorted[i].end, f.start, f.end)
    {
      assert sorted[i] in multiset(fs);
    }
  }

  /** A candidate takes its span exactly when no earlier one that took its own overlaps it. */
  lemma {:induction false} TakenUnlessOverlapped(cs: seq<Candidate>, n: nat)
    requires n < |cs|
    ensures Taking(cs[..n]) <= Taking(cs)
    ensures var c := cs[n];
            if Free(Spans(Taking(cs[..n])), StartOf(c), EndOf(c))
            then Taking(cs[..n]) + [c] <= Taking(cs)
            else Taking(cs[..n + 1]) == Taking(cs[..n])
  {
    var init := cs[..|cs| - 1];
    if n < |cs| - 1 {
      TakenUnlessOverlapped(init, n);
      assert init[..n] == cs[..n] && init[..n + 1] == cs[..n + 1];
    } else {
      assert cs[..n + 1] == cs;
    }
    assert cs[..n + 1][..n] == cs[..n];
  }

  /** Spans with something in them are apart exactly when they share no place. */
  lemma ApartExactly(s1: int, e1: int, s2: int, e2: int)
    requires s1 < e1 && s2 < e2
    ensures Apart(s1, e1, s2, e2) <==> forall at :: Within(at, s1, e1) ==> !Within(at, s2, e2)
  {
    var at := if s1 <= s2 then s2 else s1;
    assert !Apart(s1, e1, s2, e2) ==> Within(at, s1, e1) && Within(at, s2, e2);
  }

  predicate Within(at: int, start: int, end: int) { start <= at < end }

  /** Of what took its span, every value is kept and no time of day. */
  lemma {:induction false} ValuesExactly(cs: seq<Candidate>, f: Found)
    ensures multiset(Values(cs))[f] == multiset(cs)[Value(f)]
  {
    if cs != [] {
      ValuesExactly(cs[..|cs| - 1], f);
      assert cs == cs[..|cs| - 1] + [cs[|cs| - 1]];
    }
  }

  lemma NextCandidate(cs: seq<Candidate>, i: nat)
    requires i < |cs|
    ensures var before, c := Taking(cs[..i]), cs[i];
            if Free(Spans(before), StartOf(c), EndOf(c)) then
              && Spans(Taking(cs[..i + 1])) == Spans(before) + [(StartOf(c), EndOf(c))]
              && Values(Taking(cs[..i + 1])) == Values(before) + (if c.Value? then [c.found] else [])
            else Taking(cs[..i + 1]) == before
  {
    var before, c := Taking(cs[..i]), cs[i];
    assert cs[..i + 1][..i] == cs[..i];
    assert (before + [c])[..|before|] == before;
  }

  lemma PrefixHolds(fs: seq<Found>, n: nat)
    requires n <= |fs|
    ensures multiset(fs[..n]) <= multiset(fs)
  {
    assert fs == fs[..n] + fs[n..];
  }

  /** The values of a text by their place, at most `limit`: no part of the text belongs to two. */
  method ValuesIn(candidates: seq<Candidate>, limit: nat) returns (found: seq<Found>)
    ensures var kept := ByStart(Values(Taking(candidates)));
            found == if |kept| <= limit then kept else kept[..limit]
    ensures Disjoint(found) && Ascending(found) && |found| <= limit
    ensures multiset(found) <= multiset(Values(Taking(candidates)))
  {
    var taken: seq<(int, int)> := [];
    var values: seq<Found> := [];
    for i := 0 to |candidates|
      invariant taken == Spans(Taking(candidates[..i])) && values == Values(Taking(candidates[..i]))
    {
      var c := candidates[i];
      NextCandidate(candidates, i);
      if Free(taken, StartOf(c), EndOf(c)) {
        taken := taken + [(StartOf(c), EndOf(c))];
        if c.Value? {
          values := values + [c.found];
        } else {
          assert values + [] == values;
        }
      }
    }
    assert candidates[..|candidates|] == candidates;
    KeptAreDisjoint(candidates);
    found := ByStart(values);
    if |found| > limit {
      PrefixHolds(found, limit);
      found := found[..limit];
    }
  }

  // ---- Whether an amount is backed ----

  /** The newest of the distinct source amounts. */
  function Terms(order: seq<int>): (r: seq<int>)
    ensures |r| <= MAX_SUM_TERMS
  {
    if |order| <= MAX_SUM_TERMS then order else order[|order| - MAX_SUM_TERMS..]
  }

  predicate SumOrDifference(value: int, terms: seq<int>) {
    exists a, b :: a in terms && b in terms && (value == a + b || value == a - b)
  }

  /** The first two are distinct, since the terms are; the third may be either of them. */
  predicate SumOfThree(value: int, terms: seq<int>) {
    exists i, j, c :: 0 <= i < j < |terms| && c in terms && value == terms[i] + terms[j] + c
  }

  predicate Multiple(value: int, terms: seq<int>, counts: set<int>) {
    exists n, a :: n in counts && 1 < n <= MAX_FACTOR && a in terms && value == n * a
  }

  predicate Backed(value: int, amounts: set<int>, order: seq<int>, counts: set<int>) {
    || value in amounts
    || SumOrDifference(value, Terms(order))
    || SumOfThree(value, Terms(order))
    || Multiple(value, Terms(order), counts)
  }

  /** One of the 64 newest. */
  predicate IsNew(order: seq<int>, a: int) { exists i :: 0 <= i < |order| && i >= |order| - 64 && order[i] == a }

  lemma TermsAreTheNewest(order: seq<int>, a: int)
    ensures a in Terms(order) <==> IsNew(order, a)
  {
    var from := |order| - |Terms(order)|;
    if a in Terms(order) {
      var i :| 0 <= i < |Terms(order)| && Terms(order)[i] == a;
      assert order[from + i] == a;
    }
    if IsNew(order, a) {
      var i :| 0 <= i < |order| && i >= |order| - 64 && order[i] == a;
      assert Terms(order)[i - from] == a;
    }
  }

  /** An amount is backed exactly when it is one of the sources, or of the 64 newest of them the sum or difference of
    * two, the sum of three of which two differ, or one of them a known number of times, from 2 to 60. */
  lemma BackedExactly(value: int, amounts: set<int>, order: seq<int>, counts: set<int>)
    requires forall i, j :: 0 <= i < j < |order| ==> order[i] != order[j]
    ensures Backed(value, amounts, order, counts) <==>
            || value in amounts
            || (exists a, b :: IsNew(order, a) && IsNew(order, b) && (value == a + b || value == a - b))
            || (exists a, b, c :: IsNew(order, a) && IsNew(order, b) && IsNew(order, c) && a != b && value == a + b + c)
            || (exists n, a :: n in counts && 2 <= n <= 60 && IsNew(order, a) && value == n * a)
  {
    var terms := Terms(order);
    forall a
      ensures a in terms <==> IsNew(order, a)
    {
      TermsAreTheNewest(order, a);
    }
    assert forall i, j :: 0 <= i < j < |terms| ==> terms[i] != terms[j];
    ThreeByValue(value, terms);
  }

  lemma ThreeByValue(value: int, terms: seq<int>)
    requires forall i, j :: 0 <= i < j < |terms| ==> terms[i] != terms[j]
    ensures SumOfThree(value, terms) <==>
            exists a, b, c :: a in terms && b in terms && c in terms && a != b && value == a + b + c
  {
    if SumOfThree(value, terms) {
      var i, j, c :| 0 <= i < j < |terms| && c in terms && value == terms[i] + terms[j] + c;
      assert terms[i] in terms && terms[j] in terms;
    }
    if a, b, c :| a in terms && b in terms && c in terms && a != b && value == a + b + c {
      var i :| 0 <= i < |terms| && terms[i] == a;
      var j :| 0 <= j < |terms| && terms[j] == b;
      if i < j {
        assert value == terms[i] + terms[j] + c;
      } else {
        assert value == terms[j] + terms[i] + c;
      }
    }
  }

  class Sources {
    var amounts: set<int>
    var order: seq<int>
    var counts: set<int>

    ghost predicate Valid()
      reads this
    {
      && (forall a :: a in amounts <==> a in order)
      && (forall i, j :: 0 <= i < j < |order| ==> order[i] != order[j])
    }

    constructor ()
      ensures Valid() && amounts == {} && order == [] && counts == {}
    {
      amounts, order, counts := {}, [], {};
    }

    /** Each amount once, at the place it first came. */
    method AddAmount(value: int)
      requires Valid()
      modifies this`amounts, this`order
      ensures Valid() && amounts == old(amounts) + {value}
      ensures order == if value in old(amounts) then old(order) else old(order) + [value]
    {
      if value !in amounts {
        amounts := amounts + {value};
        order := order + [value];
      }
    }

    /** A small integer among the sources is a count an amount may be multiplied by. */
    method AddCount(n: int)
      modifies this`counts
      ensures counts == if 1 < n <= MAX_FACTOR then old(counts) + {n} else old(counts)
    {
      if 1 < n <= MAX_FACTOR {
        counts := counts + {n};
      }
    }

    /** `said` holds the numbers the answer itself states, which count as multipliers too. */
    method BacksAmount(value: int, said: set<int>) returns (backed: bool)
      requires Valid()
      ensures backed <==> Backed(value, amounts, order, counts + said)
    {
      if value in amounts {
        return true;
      }
      var terms := Terms(order);
      var pairs := FindPair(value, terms);
      if pairs {
        return true;
      }
      var triples := FindTriple(value, terms);
      if triples {
        return true;
      }
      backed := FindMultiple(value, terms, counts + said);
    }
  }

  method FindPair(value: int, terms: seq<int>) returns (found: bool)
    ensures found <==> SumOrDifference(value, terms)
  {
    for k := 0 to |terms|
      invariant forall i :: 0 <= i < k ==> value - terms[i] !in terms && terms[i] - value !in terms
    {
      var a := terms[k];
      if value - a in terms || a - value in terms {
        assert a in terms && (value == a + (value - a) || value == a - (a - value));
        return true;
      }
    }
    forall a, b | a in terms && b in terms
      ensures value != a + b && value != a - b
    {
      assert b != value - a && b != a - value;
    }
    return false;
  }

  method FindTriple(value: int, terms: seq<int>) returns (found: bool)
    ensures found <==> SumOfThree(value, terms)
  {
    for i := 0 to |terms|
      invariant forall p, q :: 0 <= p < i && p < q < |terms| ==> value - terms[p] - terms[q] !in terms
    {
      for j := i + 1 to |terms|
        invariant forall q :: i < q < j ==> value - terms[i] - terms[q] !in terms
      {
        var c := value - terms[i] - terms[j];
        if c in terms {
          assert value == terms[i] + terms[j] + c;
          return true;
        }
      }
    }
    forall i, j, c | 0 <= i < j < |terms| && c in terms
      ensures value != terms[i] + terms[j] + c
    {
      var other := value - terms[i] - terms[j];
      assert other !in terms && c != other;
    }
    return false;
  }

  method FindMultiple(value: int, terms: seq<int>, counts: set<int>) returns (found: bool)
    ensures found <==> Multiple(value, terms, counts)
  {
    var left := counts;
    while left != {}
      invariant left <= counts
      invariant forall n, a :: n in counts && n !in left && 1 < n <= MAX_FACTOR && a in terms ==> value != n * a
    {
      HasMember(left);
      var n :| n in left;
      if 1 < n <= MAX_FACTOR {
        if value % n == 0 && value / n in terms {
          assert value == n * (value / n);
          return true;
        }
        forall a | a in terms
          ensures value != n * a
        {
          ExactQuotient(value, n, a);
        }
      }
      left := left - {n};
    }
    return false;
  }

  lemma HasMember(s: set<int>)
    ensures s == {} || exists n :: n in s
  {
    assert (forall n :: n !in s) ==> s == {};
  }

  lemma ExactQuotient(value: int, n: int, a: int)
    requires n > 1
    ensures value == n * a ==> value % n == 0 && value / n == a
  {
    if value == n * a {
      var k := a - value / n;
      assert k * n == value % n by {
        assert k * n == a * n - value / n * n;
      }
      Apportion(k, n);
    }
  }

  lemma Apportion(k: int, n: int)
    requires n > 0 && 0 <= k * n < n
    ensures k == 0
  {
  }
}

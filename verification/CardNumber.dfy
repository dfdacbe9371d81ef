/** The check digit of a card number (`_card` in `src/niadra/backing.py`), on the digits as numbers. */
module CardNumber {
  predicate AllDigit(number: seq<nat>) { forall i :: 0 <= i < |number| ==> number[i] < 10 }

  /** What a digit adds: every second one from the right counts double, less nine past nine. */
  function Weight(d: nat, double: bool): nat
    requires d < 10
  {
    if !double then d else if d > 4 then d * 2 - 9 else d * 2
  }

  /** Whether the digit `k` places from the left of `length` is one of those. */
  predicate Doubled(length: nat, k: nat) { (length - k) % 2 == 0 }

  lemma NextDoubled(length: nat, k: nat)
    ensures Doubled(length, k + 1) <==> !Doubled(length, k)
  {
  }

  function Total(number: seq<nat>): nat
    requires AllDigit(number)
  {
    if number == [] then 0 else Weight(number[0], Doubled(|number|, 0)) + Total(number[1..])
  }

  predicate IsCard(number: seq<nat>)
    requires AllDigit(number)
  {
    13 <= |number| <= 19 && 2 <= number[0] <= 6 && Total(number) % 10 == 0
  }

  /** The loop adds from the right. */
  method Card(number: seq<nat>) returns (card: bool)
    requires AllDigit(number)
    ensures card <==> IsCard(number)
  {
    if !(13 <= |number| <= 19) || !(2 <= number[0] <= 6) {
      return false;
    }
    var total := 0;
    for i := 0 to |number|
      invariant total == Total(number[|number| - i..])
    {
      var d := number[|number| - 1 - i];
      assert number[|number| - 1 - i..][1..] == number[|number| - i..];
      if i % 2 == 1 {
        d := if d > 4 then d * 2 - 9 else d * 2;
      }
      total := total + d;
    }
    assert number[0..] == number;
    card := total % 10 == 0;
  }

  lemma {:induction false} TotalChanges(number: seq<nat>, k: nat, d: nat)
    requires AllDigit(number) && k < |number| && d < 10
    ensures var double := Doubled(|number|, k);
            Total(number[k := d]) == Total(number) + Weight(d, double) - Weight(number[k], double)
  {
    if k == 0 {
      assert number[0 := d][1..] == number[1..];
    } else {
      TotalChanges(number[1..], k - 1, d);
      assert number[k := d][1..] == number[1..][k - 1 := d];
    }
  }

  lemma WeightsDiffer(a: nat, b: nat, double: bool)
    requires a < 10 && b < 10
    ensures -9 <= Weight(a, double) - Weight(b, double) <= 9
    ensures Weight(a, double) == Weight(b, double) <==> a == b
  {
  }

  lemma SmallChange(total: int, change: int)
    requires total % 10 == 0 && -9 <= change <= 9
    ensures (total + change) % 10 == 0 <==> change == 0
  {
  }

  /** Changing one digit of a card number is always caught. */
  lemma OneDigitIsCaught(number: seq<nat>, k: nat, d: nat)
    requires AllDigit(number) && k < |number| && d < 10 && d != number[k]
    requires IsCard(number)
    ensures !IsCard(number[k := d])
  {
    var double := Doubled(|number|, k);
    TotalChanges(number, k, d);
    WeightsDiffer(d, number[k], double);
    SmallChange(Total(number), Weight(d, double) - Weight(number[k], double));
  }

  /** Thirteen to nineteen digits, the first from 2 to 6, and a total that ends in zero. */
  lemma CardShape(number: seq<nat>)
    requires AllDigit(number)
    ensures IsCard(number) ==>
              13 <= |number| <= 19 && 2 <= number[0] <= 6 && exists tens: nat :: Total(number) == 10 * tens
    ensures 13 <= |number| <= 19 && 2 <= number[0] <= 6 && Total(number) % 10 == 0 ==> IsCard(number)
  {
    assert IsCard(number) ==> Total(number) == 10 * (Total(number) / 10);
  }

  /** A doubled digit adds the digits of its double; the last digit is not doubled, and then every second one is. */
  lemma WeighedFromTheRight(d: nat, length: nat, k: nat)
    requires d < 10 && k < length
    ensures Weight(d, true) == 2 * d / 10 + 2 * d % 10 && Weight(d, false) == d
    ensures Doubled(length, k) <==> (length - 1 - k) % 2 == 1
  {
  }

  lemma {:induction false} ZerosAddNothing(number: seq<nat>)
    requires forall i :: 0 <= i < |number| ==> number[i] == 0
    ensures Total(number) == 0
  {
    if number != [] {
      ZerosAddNothing(number[1..]);
    }
  }

  function SwapChange(a: nat, b: nat, double: bool): int
    requires a < 10 && b < 10
  {
    Weight(b, double) - Weight(a, double) + Weight(a, !double) - Weight(b, !double)
  }

  /** The pairs whose swap changes no total: equal digits, and 0 with 9. */
  predicate Unseen(a: nat, b: nat) { a == b || (a == 0 && b == 9) || (a == 9 && b == 0) }

  /** What doubling adds to a digit, at most nine values apart. */
  lemma SwappedWeights(a: nat, b: nat, double: bool)
    requires a < 10 && b < 10
    ensures -9 <= SwapChange(a, b, double) <= 9
    ensures SwapChange(a, b, double) == 0 <==> Unseen(a, b)
  {
    assert SwapChange(a, b, true) == -SwapChange(a, b, false);
  }

  function Swapped(number: seq<nat>, k: nat): (r: seq<nat>)
    requires AllDigit(number) && k + 1 < |number|
    ensures AllDigit(r)
  {
    number[k := number[k + 1]][k + 1 := number[k]]
  }

  lemma SwapChanges(number: seq<nat>, k: nat)
    requires AllDigit(number) && k + 1 < |number|
    ensures Total(Swapped(number, k)) ==
            Total(number) + SwapChange(number[k], number[k + 1], Doubled(|number|, k))
  {
    var a, b, once := number[k], number[k + 1], number[k := number[k + 1]];
    TotalChanges(number, k, b);
    assert once[k + 1] == b;
    TotalChanges(once, k + 1, a);
    NextDoubled(|number|, k);
  }

  /** Swapping two neighbours is caught exactly when they differ and are not 0 and 9, or when it brings a first digit
    * no card has to the front. */
  lemma NeighbourSwap(number: seq<nat>, k: nat)
    requires AllDigit(number) && k + 1 < |number| && IsCard(number)
    ensures IsCard(Swapped(number, k)) <==>
              Unseen(number[k], number[k + 1]) && (k == 0 ==> 2 <= number[1] <= 6)
  {
    var change := SwapChange(number[k], number[k + 1], Doubled(|number|, k));
    SwapChanges(number, k);
    SwappedWeights(number[k], number[k + 1], Doubled(|number|, k));
    SmallChange(Total(number), change);
  }
}

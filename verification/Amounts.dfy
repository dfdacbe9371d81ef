/** Amounts read from text (`cents` in `src/niadra/backing.py`), on ASCII text already stripped. */
module Amounts {
  import opened Basics
  import opened Text

  predicate IsSeparator(c: char) { c == ',' || c == '.' }

  /** The white space `int` skips in ASCII text. */
  predicate IsSpace(c: char) { c == ' ' || '\t' <= c <= '\r' }

  function Digits(s: string): (r: string)
    ensures AllDigits(r)
  {
    if s == "" then "" else Digits(s[..|s| - 1]) + (if IsDigit(s[|s| - 1]) then [s[|s| - 1]] else [])
  }

  /** Where the last separator is, or -1. */
  function LastSeparator(s: string): (i: int)
    ensures -1 <= i < |s| && (i >= 0 ==> IsSeparator(s[i]))
    ensures forall j :: i < j < |s| ==> !IsSeparator(s[j])
  {
    LastBefore(s, |s|)
  }

  function LastBefore(s: string, n: nat): (i: int)
    requires n <= |s|
    ensures -1 <= i < n && (i >= 0 ==> IsSeparator(s[i]))
    ensures forall j :: i < j < n ==> !IsSeparator(s[j])
  {
    if n == 0 then -1 else if IsSeparator(s[n - 1]) then n - 1 else LastBefore(s, n - 1)
  }

  /** One or two characters after the last separator: a decimal part. */
  predicate HasFraction(s: string) {
    var last := LastSeparator(s);
    last >= 0 && (|s| - last - 1 == 1 || |s| - last - 1 == 2)
  }

  function WholeText(s: string): string { if HasFraction(s) then s[..LastSeparator(s)] else s }

  function FractionText(s: string): (f: string)
    ensures |f| <= 2
  {
    if HasFraction(s) then s[LastSeparator(s) + 1..] else ""
  }

  /** Python's `int` on two characters: a sign before a digit counts, and white space around one does not. */
  function IntOfTwo(a: char, b: char): Option<int> {
    if IsDigit(b) then
      if IsDigit(a) then Some(10 * DigitValue(a) + DigitValue(b))
      else if a == '-' then Some(0 - DigitValue(b) as int)
      else if a == '+' || IsSpace(a) then Some(DigitValue(b))
      else None
    else if IsDigit(a) && IsSpace(b) then Some(DigitValue(a))
    else None
  }

  function FractionValue(f: string): Option<int>
    requires |f| <= 2
  {
    if |f| == 2 then IntOfTwo(f[0], f[1]) else if |f| == 1 then IntOfTwo(f[0], '0') else Some(0)
  }

  /** What reading a text as an amount comes to; `Raises` is the `ValueError` nothing catches. */
  datatype Reading = NotAnAmount | InCents(cents: int) | Raises

  function Cents(s: string): Reading {
    if s == "" || !IsDigit(s[0]) then NotAnAmount
    else
      var whole := Digits(WholeText(s));
      if whole == "" || |whole| > 15 then NotAnAmount
      else
        match FractionValue(FractionText(s))
        case None => Raises
        case Some(v) => InCents(Number(whole) * 100 + v)
  }

  // ---- How an amount is written ----

  function TwoDigits(n: nat): (s: string)
    requires n < 100
    ensures AllDigits(s) && |s| == 2
  {
    [DigitChar(n / 10), DigitChar(n % 10)]
  }

  function ThreeDigits(n: nat): (s: string)
    requires n < 1000
    ensures AllDigits(s) && |s| == 3
  {
    [DigitChar(n / 100), DigitChar(n / 10 % 10), DigitChar(n % 10)]
  }

  /** A whole amount in groups of three, or in one run. */
  function Grouped(n: nat, group: Option<char>): (s: string)
    ensures s != "" && IsDigit(s[0])
  {
    if group.None? || n < 1000 then Decimal(n)
    else Grouped(n / 1000, group) + [group.value] + ThreeDigits(n % 1000)
  }

  // ---- Reading it back ----

  lemma {:induction false} DigitsConcat(a: string, b: string)
    ensures Digits(a + b) == Digits(a) + Digits(b)
  {
    if b == "" {
      assert a + b == a;
    } else {
      DigitsConcat(a, b[..|b| - 1]);
      assert (a + b)[..|a + b| - 1] == a + b[..|b| - 1];
    }
  }

  lemma {:induction false} DigitsOfDigits(s: string)
    requires AllDigits(s)
    ensures Digits(s) == s
  {
    if s != "" {
      DigitsOfDigits(s[..|s| - 1]);
      assert s[..|s| - 1] + [s[|s| - 1]] == s;
    }
  }

  /** A separator adds no digit. */
  lemma DigitsAround(head: string, c: char, tail: string)
    requires IsSeparator(c) && AllDigits(tail)
    ensures Digits(head + [c] + tail) == Digits(head) + tail
  {
    DigitsConcat(head + [c], tail);
    DigitsConcat(head, [c]);
    DigitsOfDigits(tail);
    assert [c][..0] == "" && Digits([c]) == "";
    assert Digits(head) + "" == Digits(head);
  }

  lemma LastSeparatorAt(s: string, i: nat)
    requires i < |s| && IsSeparator(s[i]) && forall j :: i < j < |s| ==> !IsSeparator(s[j])
    ensures LastSeparator(s) == i
  {
    var last := LastSeparator(s);
    assert last >= i;
  }

  lemma LastSeparatorIs(head: string, c: char, tail: string)
    requires IsSeparator(c) && AllDigits(tail)
    ensures LastSeparator(head + [c] + tail) == |head|
  {
    var s := head + [c] + tail;
    assert s[|head|] == c;
    forall j | |head| < j < |s|
      ensures !IsSeparator(s[j])
    {
      assert s[j] == tail[j - |head| - 1];
    }
    LastSeparatorAt(s, |head|);
  }

  /** Two digits after a separator are a decimal part, and the text before it the whole one. */
  lemma PartsOfTwo(head: string, c: char, tail: string)
    requires IsSeparator(c) && AllDigits(tail) && |tail| == 2
    ensures WholeText(head + [c] + tail) == head && FractionText(head + [c] + tail) == tail
  {
    var s := head + [c] + tail;
    LastSeparatorIs(head, c, tail);
    assert s[..|head|] == head && s[|head| + 1..] == tail;
  }

  lemma PartsOfThree(head: string, c: char, tail: string)
    requires IsSeparator(c) && AllDigits(tail) && |tail| == 3
    ensures !HasFraction(head + [c] + tail)
  {
    LastSeparatorIs(head, c, tail);
  }

  lemma ByThousands(n: nat)
    ensures n / 10 / 10 / 10 == n / 1000
    ensures n % 1000 / 100 == n / 10 / 10 % 10 && n % 1000 / 10 % 10 == n / 10 % 10 && n % 1000 % 10 == n % 10
  {
  }

  lemma DecimalByThousands(n: nat)
    requires n >= 1000
    ensures Decimal(n) == Decimal(n / 1000) + ThreeDigits(n % 1000)
  {
    ByThousands(n);
    var tens, hundreds := n / 10, n / 10 / 10;
    assert Decimal(n) == Decimal(tens) + [DigitChar(n % 10)];
    assert Decimal(tens) == Decimal(hundreds) + [DigitChar(tens % 10)];
    assert Decimal(hundreds) == Decimal(n / 1000) + [DigitChar(hundreds % 10)];
  }

  lemma {:induction false} GroupedDigits(n: nat, group: Option<char>)
    requires group.Some? ==> IsSeparator(group.value)
    ensures Digits(Grouped(n, group)) == Decimal(n)
  {
    if group.None? || n < 1000 {
      DigitsOfDigits(Decimal(n));
    } else {
      GroupedDigits(n / 1000, group);
      DigitsAround(Grouped(n / 1000, group), group.value, ThreeDigits(n % 1000));
      DecimalByThousands(n);
    }
  }

  lemma GroupedIsWhole(n: nat, group: Option<char>)
    requires group.Some? ==> IsSeparator(group.value)
    ensures !HasFraction(Grouped(n, group))
  {
    if group.Some? && n >= 1000 {
      PartsOfThree(Grouped(n / 1000, group), group.value, ThreeDigits(n % 1000));
    }
  }

  lemma CentsFrom(s: string, whole: string, digits: string, fraction: string)
    requires s != "" && IsDigit(s[0]) && WholeText(s) == whole && FractionText(s) == fraction
    requires |fraction| <= 2 && Digits(whole) == digits && 1 <= |digits| <= 15 && AllDigits(digits)
    ensures Cents(s) ==
            match FractionValue(fraction)
            case None => Raises
            case Some(v) => InCents(Number(digits) * 100 + v)
  {
  }

  lemma CentsAre(s: string, whole: string, fraction: string, n: nat, v: int)
    requires s != "" && IsDigit(s[0]) && WholeText(s) == whole && FractionText(s) == fraction
    requires |fraction| <= 2 && Digits(whole) == Decimal(n) && |Decimal(n)| <= 15
    requires FractionValue(fraction) == Some(v)
    ensures Cents(s) == InCents(n * 100 + v)
  {
    NumberOfDecimal(n);
    CentsFrom(s, whole, Decimal(n), fraction);
  }

  lemma WholeAre(s: string, n: nat)
    requires s != "" && IsDigit(s[0]) && !HasFraction(s) && Digits(s) == Decimal(n) && |Decimal(n)| <= 15
    ensures Cents(s) == InCents(n * 100)
  {
    CentsAre(s, s, "", n, 0);
  }

  /** Whole amounts read back, grouped or not, up to fifteen digits. */
  lemma WholeReadsBack(n: nat, group: Option<char>)
    requires (group.Some? ==> IsSeparator(group.value)) && |Decimal(n)| <= 15
    ensures Cents(Grouped(n, group)) == InCents(n * 100)
  {
    GroupedIsWhole(n, group);
    GroupedDigits(n, group);
    WholeAre(Grouped(n, group), n);
  }

  lemma TwoDigitsReadBack(n: nat)
    requires n < 100
    ensures FractionValue(TwoDigits(n)) == Some(n)
  {
  }

  lemma FirstOf(a: string, c: char, b: string)
    requires a != ""
    ensures (a + [c] + b)[0] == a[0]
  {
  }

  /** Either convention reads back: an amount of `n` and so many cents, after a comma or a point, the rest grouped by
    * the other, by the same or not at all, up to fifteen digits. */
  lemma DecimalsReadBack(n: nat, cents: nat, group: Option<char>, point: char)
    requires (group.Some? ==> IsSeparator(group.value)) && IsSeparator(point)
    requires |Decimal(n)| <= 15 && cents < 100
    ensures Cents(Grouped(n, group) + [point] + TwoDigits(cents)) == InCents(n * 100 + cents)
  {
    var whole, fraction := Grouped(n, group), TwoDigits(cents);
    PartsOfTwo(whole, point, fraction);
    GroupedDigits(n, group);
    TwoDigitsReadBack(cents);
    FirstOf(whole, point, fraction);
    CentsAre(whole + [point] + fraction, whole, fraction, n, cents);
  }

  lemma StartsWithDigit(s: string)
    requires s != "" && IsDigit(s[0])
    ensures Digits(s) != ""
  {
    assert s == [s[0]] + s[1..];
    DigitsConcat([s[0]], s[1..]);
    assert [s[0]][..0] == "" && Digits([s[0]]) == [s[0]];
  }

  /** What a caller can see of a decimal part that `int` refuses. */
  predicate NoNumber(f: string) {
    || (|f| == 1 && !IsDigit(f[0]) && f[0] != '-' && f[0] != '+' && !IsSpace(f[0]))
    || (|f| == 2 && !IsDigit(f[0]) && !IsDigit(f[1]))
    || (|f| == 2 && IsDigit(f[0]) && !IsDigit(f[1]) && !IsSpace(f[1]))
    || (|f| == 2 && IsDigit(f[1]) && !IsDigit(f[0]) && f[0] != '-' && f[0] != '+' && !IsSpace(f[0]))
  }

  /** Reading raises exactly when a decimal part of one or two characters is no number. */
  lemma RaisesExactly(s: string)
    ensures Cents(s) == Raises <==>
            && s != "" && IsDigit(s[0]) && HasFraction(s)
            && |Digits(WholeText(s))| <= 15 && NoNumber(FractionText(s))
  {
    if s != "" && IsDigit(s[0]) {
      StartsWithDigit(WholeText(s));
    }
  }

  lemma DigitsAreBelowAHundred(f: string)
    requires |f| <= 2 && AllDigits(f)
    ensures FractionValue(f).Some? && 0 <= FractionValue(f).value < 100
  {
  }

  /** With digits after the last separator it never raises, and the decimal part stays below one. */
  lemma DigitsNeverRaise(s: string)
    requires AllDigits(FractionText(s))
    ensures Cents(s) != Raises
    ensures Cents(s).InCents? ==> Cents(s).cents / 100 == Number(Digits(WholeText(s)))
  {
    DigitsAreBelowAHundred(FractionText(s));
    if Cents(s).InCents? {
      WholePart(Number(Digits(WholeText(s))), FractionValue(FractionText(s)).value);
    }
  }

  lemma WholePart(n: nat, v: int)
    requires 0 <= v < 100
    ensures (n * 100 + v) / 100 == n
  {
  }

  lemma OneDigit(s: string)
    requires |s| == 1 && IsDigit(s[0])
    ensures Digits(s) == s && Number(s) == DigitValue(s[0])
  {
    DigitsOfDigits(s);
    assert s[..0] == "";
  }

  /** One digit, a separator and two other characters. */
  lemma ShortToken(s: string)
    requires |s| == 4 && IsDigit(s[0]) && IsSeparator(s[1]) && !IsSeparator(s[2]) && !IsSeparator(s[3])
    ensures Cents(s) ==
            match IntOfTwo(s[2], s[3]) case None => Raises case Some(v) => InCents(DigitValue(s[0]) * 100 + v)
  {
    LastSeparatorAt(s, 1);
    var whole, fraction := s[..1], s[2..];
    OneDigit(whole);
    CentsFrom(s, whole, whole, fraction);
  }

  /** No amount at all: without a digit in front, or with more than fifteen before the decimal part. */
  lemma NotAnAmountExactly(s: string)
    ensures Cents(s) == NotAnAmount <==> s == "" || !('0' <= s[0] <= '9') || |Digits(WholeText(s))| > 15
  {
    if s != "" && IsDigit(s[0]) {
      StartsWithDigit(WholeText(s));
    }
  }

  predicate NoSeparator(s: string) { forall i :: 0 <= i < |s| ==> s[i] != ',' && s[i] != '.' }

  /** One or two characters after the last comma or point are a decimal part, whatever they are; none, or more, are not,
    * and then the whole text is the amount. */
  lemma PartsExactly(head: string, c: char, tail: string)
    requires (c == ',' || c == '.') && NoSeparator(tail)
    ensures var s := head + [c] + tail;
            if |tail| == 1 || |tail| == 2 then WholeText(s) == head && FractionText(s) == tail
            else WholeText(s) == s && FractionText(s) == ""
    ensures WholeText(tail) == tail && FractionText(tail) == ""
  {
    var s := head + [c] + tail;
    assert s[|head|] == c;
    forall j | |head| < j < |s|
      ensures !IsSeparator(s[j])
    {
      assert s[j] == tail[j - |head| - 1];
    }
    LastSeparatorAt(s, |head|);
    assert s[..|head|] == head && s[|head| + 1..] == tail;
    assert LastSeparator(tail) == -1;
  }

  /** What the decimal part is worth: one digit is tenths, two are hundredths, one beside white space or after a plus is
    * hundredths, and after a minus takes them off. */
  lemma FractionExactly(f: string)
    requires |f| <= 2 && FractionValue(f).Some?
    ensures var v := FractionValue(f).value;
            && (|f| == 0 ==> v == 0)
            && (|f| == 1 ==> v == if IsDigit(f[0]) then 10 * DigitValue(f[0]) else 0)
            && (|f| == 2 && IsDigit(f[0]) && IsDigit(f[1]) ==> v == 10 * DigitValue(f[0]) + DigitValue(f[1]))
            && (|f| == 2 && IsDigit(f[0]) && !IsDigit(f[1]) ==> v == DigitValue(f[0]))
            && (|f| == 2 && !IsDigit(f[0]) ==>
                  IsDigit(f[1]) && v == if f[0] == '-' then 0 - DigitValue(f[1]) as int else DigitValue(f[1]))
  {
  }

  /** An amount that is read is the number its whole part's digits write, and what its decimal part is worth. */
  lemma CentsExactly(s: string)
    requires Cents(s).InCents?
    ensures FractionValue(FractionText(s)).Some?
    ensures Cents(s).cents == 100 * Number(Digits(WholeText(s))) + FractionValue(FractionText(s)).value
  {
  }

  lemma DigitsOfOne(c: char)
    ensures Digits([c]) == if '0' <= c <= '9' then [c] else ""
  {
    assert [c][..0] == "";
  }

  /** A sign before one digit that is not zero, where the decimal part should be. */
  predicate SignIsRead(f: string) { |f| == 2 && f[0] == '-' && IsDigit(f[1]) && f[1] != '0' }

  lemma FractionIsSmall(f: string)
    requires |f| <= 2 && FractionValue(f).Some?
    ensures -9 <= FractionValue(f).value < 100
    ensures FractionValue(f).value < 0 <==> SignIsRead(f)
  {
  }

  lemma BelowWhole(n: nat, v: int)
    requires -9 <= v < 100
    ensures (n * 100 + v) / 100 == n <==> v >= 0
  {
  }

  /** An amount that is read has the whole units its text writes, except exactly where a sign is read as part of the
    * decimals and takes cents off. */
  lemma MisreadExactly(s: string)
    requires Cents(s).InCents?
    ensures Cents(s).cents / 100 == Number(Digits(WholeText(s))) <==> !SignIsRead(FractionText(s))
    ensures SignIsRead(FractionText(s)) ==>
              Cents(s).cents == 100 * Number(Digits(WholeText(s))) - DigitValue(FractionText(s)[1])
  {
    FractionIsSmall(FractionText(s));
    BelowWhole(Number(Digits(WholeText(s))), FractionValue(FractionText(s)).value);
  }

  /** A token such as `3.5x` raises, and in one such as `1.-5` the sign is read: 95 cents. */
  lemma TokensThatMisread()
    ensures Cents("3.5x") == Raises && Cents("1.-5") == InCents(95)
  {
    ShortToken("3.5x");
    ShortToken("1.-5");
  }
}

/** Python's `OrderedDict` as a value: the keys oldest first, and what each holds. */
module OrderedDict {
  import opened Basics

  datatype Ordered<K(==,!new), V> = Ordered(order: seq<K>, items: map<K, V>) {
    ghost predicate Valid() { Distinct(order) && forall k :: k in order <==> k in items }

    function Remove(k: K): Ordered<K, V> { Ordered(Without(order, k), items - {k}) }

    /** Sets `k` and moves it to the newest end. */
    function MoveIn(k: K, v: V): Ordered<K, V> { Ordered(Without(order, k) + [k], items[k := v]) }

    function Replace(k: K, v: V): Ordered<K, V>
      requires k in items
    {
      this.(items := items[k := v])
    }

    /** Pops the oldest while there are more than `limit`. */
    function Trim(limit: nat): Ordered<K, V> {
      if |order| <= limit then this
      else
        var keep := order[|order| - limit..];
        Ordered(keep, map k | k in items && k in keep :: items[k])
    }

    function RemoveAll(ks: set<K>): Ordered<K, V> {
      Ordered(Excluding(order, ks), map k | k in items && k !in ks :: items[k])
    }
  }

  function Without<K(==,!new)>(s: seq<K>, k: K): (r: seq<K>)
    ensures forall x :: x in r <==> x in s && x != k
    ensures k !in s ==> r == s
  {
    if s == [] then []
    else if s[0] == k then Without(s[1..], k)
    else [s[0]] + Without(s[1..], k)
  }

  lemma {:induction false} WithoutClosesTheGap<K(!new)>(a: seq<K>, k: K, b: seq<K>)
    requires k !in a && k !in b
    ensures Without(a + [k] + b, k) == a + b
  {
    var s := a + [k] + b;
    if a == [] {
      assert s[1..] == b;
    } else {
      WithoutClosesTheGap(a[1..], k, b);
      assert s[1..] == a[1..] + [k] + b;
      assert [a[0]] + (a[1..] + b) == a + b;
    }
  }

  function Excluding<K(==,!new)>(s: seq<K>, ks: set<K>): (r: seq<K>)
    ensures forall x :: x in r <==> x in s && x !in ks
  {
    if s == [] then []
    else if s[0] in ks then Excluding(s[1..], ks)
    else [s[0]] + Excluding(s[1..], ks)
  }

  lemma DistinctCons<K(!new)>(x: K, s: seq<K>)
    requires Distinct(s) && x !in s
    ensures Distinct([x] + s)
  {
  }

  lemma {:induction false} WithoutDistinct<K(!new)>(s: seq<K>, k: K)
    requires Distinct(s)
    ensures Distinct(Without(s, k))
  {
    if s != [] {
      WithoutDistinct(s[1..], k);
      if s[0] != k {
        DistinctCons(s[0], Without(s[1..], k));
      }
    }
  }

  lemma {:induction false} ExcludingDistinct<K(!new)>(s: seq<K>, ks: set<K>)
    requires Distinct(s)
    ensures Distinct(Excluding(s, ks))
  {
    if s != [] {
      ExcludingDistinct(s[1..], ks);
      if s[0] !in ks {
        DistinctCons(s[0], Excluding(s[1..], ks));
      }
    }
  }

  lemma RemoveKeepsValid<K(!new), V>(d: Ordered<K, V>, k: K)
    requires d.Valid()
    ensures d.Remove(k).Valid()
    ensures k !in d.items ==> d.Remove(k) == d
  {
    WithoutDistinct(d.order, k);
    assert k !in d.items ==> d.items - {k} == d.items;
  }

  lemma MoveInKeepsValid<K(!new), V>(d: Ordered<K, V>, k: K, v: V)
    requires d.Valid()
    ensures d.MoveIn(k, v).Valid()
  {
    WithoutDistinct(d.order, k);
  }

  lemma TrimKeepsValid<K(!new), V>(d: Ordered<K, V>, limit: nat)
    requires d.Valid()
    ensures d.Trim(limit).Valid()
    ensures |d.Trim(limit).order| <= limit
  {
  }

  lemma RemoveAllKeepsValid<K(!new), V>(d: Ordered<K, V>, ks: set<K>)
    requires d.Valid()
    ensures d.RemoveAll(ks).Valid()
  {
    ExcludingDistinct(d.order, ks);
  }
}

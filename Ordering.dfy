/**
 * The orders `sortProducts` can put the filtered view in. Each is the
 * comparator the source passes to `Array.prototype.sort`; the sort itself
 * is specified as a stable insertion sort (SortBy) over any comparator
 * that is a total preorder, and performed in place on an array
 * (SortInPlace).
 */
module Ordering {
  import opened Wrappers
  import opened Types
  import opened Seqs
  import opened Text

  /** The five payloads the reducer's switch recognises. */
  datatype SortKey = PriceAsc | PriceDesc | NameAsc | NameDesc | Rating

  /** The switch on the payload string; any other string reaches `default`. */
  function ParseSortKey(s: string): (r: Option<SortKey>)
    ensures r.Some? <==> s in {"price_asc", "price_desc", "name_asc", "name_desc", "rating"}
    ensures r == Some(PriceAsc) <==> s == "price_asc"
    ensures r == Some(PriceDesc) <==> s == "price_desc"
    ensures r == Some(NameAsc) <==> s == "name_asc"
    ensures r == Some(NameDesc) <==> s == "name_desc"
    ensures r == Some(Rating) <==> s == "rating"
  {
    if s == "price_asc" then Some(PriceAsc)
    else if s == "price_desc" then Some(PriceDesc)
    else if s == "name_asc" then Some(NameAsc)
    else if s == "name_desc" then Some(NameDesc)
    else if s == "rating" then Some(Rating)
    else None
  }

  /** The comparator for each key: positive when `a` must come after `b`. */
  function Compare(k: SortKey, a: Product, b: Product): (r: int)
    ensures k == PriceAsc ==> (r > 0 <==> a.price > b.price) && (r == 0 <==> a.price == b.price)
    ensures k == PriceDesc ==> (r > 0 <==> a.price < b.price) && (r == 0 <==> a.price == b.price)
    ensures k == NameAsc ==> (r > 0 <==> LexLess(b.name, a.name)) && (r == 0 <==> a.name == b.name)
    ensures k == NameDesc ==> (r > 0 <==> LexLess(a.name, b.name)) && (r == 0 <==> a.name == b.name)
    ensures k == Rating ==> (r > 0 <==> a.rating < b.rating) && (r == 0 <==> a.rating == b.rating)
  {
    LocaleCompareFlip(a.name, b.name);
    match k
    case PriceAsc => a.price - b.price
    case PriceDesc => b.price - a.price
    case NameAsc => LocaleCompare(a.name, b.name)
    case NameDesc => LocaleCompare(b.name, a.name)
    case Rating => b.rating - a.rating
  }

  /** Each comparator is antisymmetric: swapping its arguments flips its sign. */
  lemma CompareFlip(k: SortKey, a: Product, b: Product)
    ensures Compare(k, a, b) > 0 <==> Compare(k, b, a) < 0
    ensures Compare(k, a, b) == 0 <==> Compare(k, b, a) == 0
  {
    if k == NameAsc || k == NameDesc {
      LocaleCompareFlip(a.name, b.name);
    }
  }

  /** Each comparator's "may come first" relation is transitive. */
  lemma CompareTransitive(k: SortKey, a: Product, b: Product, c: Product)
    requires Compare(k, a, b) <= 0 && Compare(k, b, c) <= 0
    ensures Compare(k, a, c) <= 0
  {
    match k
    case NameAsc => LocaleCompareTransitive(a.name, b.name, c.name);
    case NameDesc => LocaleCompareTransitive(c.name, b.name, a.name);
    case _ =>
  }

  /** The comparator for key `k` as a value, the argument `sort` receives. */
  function Comparator(k: SortKey): (Product, Product) -> int
  {
    (a: Product, b: Product) => Compare(k, a, b)
  }

  /** `cmp` orders products consistently: antisymmetric in sign and transitive. */
  ghost predicate IsPreorder(cmp: (Product, Product) -> int)
  {
    && (forall a, b :: cmp(a, b) > 0 <==> cmp(b, a) < 0)
    && (forall a, b, c {:trigger cmp(a, b), cmp(b, c), cmp(a, c)} ::
          cmp(a, b) <= 0 && cmp(b, c) <= 0 ==> cmp(a, c) <= 0)
  }

  /** Every key's comparator is a total preorder, so sorting by it is well defined. */
  lemma ComparatorIsPreorder(k: SortKey)
    ensures IsPreorder(Comparator(k))
  {
    var cmp := Comparator(k);
    forall a, b ensures cmp(a, b) > 0 <==> cmp(b, a) < 0 {
      CompareFlip(k, a, b);
    }
    forall a, b, c | cmp(a, b) <= 0 && cmp(b, c) <= 0 ensures cmp(a, c) <= 0 {
      CompareTransitive(k, a, b, c);
    }
  }

  /** No element is ordered after a later one. */
  predicate Sorted(cmp: (Product, Product) -> int, s: seq<Product>)
  {
    forall i, j :: 0 <= i < j < |s| ==> cmp(s[i], s[j]) <= 0
  }

  /** What a sorted sequence means for each key, in terms of the product fields. */
  lemma SortedMeans(k: SortKey, s: seq<Product>, i: nat, j: nat)
    requires Sorted(Comparator(k), s) && i < j < |s|
    ensures k == PriceAsc ==> s[i].price <= s[j].price
    ensures k == PriceDesc ==> s[i].price >= s[j].price
    ensures k == NameAsc ==> s[i].name == s[j].name || LexLess(s[i].name, s[j].name)
    ensures k == NameDesc ==> s[i].name == s[j].name || LexLess(s[j].name, s[i].name)
    ensures k == Rating ==> s[i].rating >= s[j].rating
  {
    assert Comparator(k)(s[i], s[j]) <= 0;
  }

  /** Puts `x` after every element of `t` that does not sort after it. */
  function Insert(cmp: (Product, Product) -> int, t: seq<Product>, x: Product): (r: seq<Product>)
    ensures |r| == |t| + 1
  {
    if t == [] then [x]
    else if cmp(t[|t| - 1], x) > 0 then Insert(cmp, t[..|t| - 1], x) + [t[|t| - 1]]
    else t + [x]
  }

  /** The stable sort: insert each element, in input order, into the sorted prefix before it. */
  function SortBy(cmp: (Product, Product) -> int, s: seq<Product>): (r: seq<Product>)
    ensures |r| == |s|
  {
    if s == [] then [] else Insert(cmp, SortBy(cmp, s[..|s| - 1]), s[|s| - 1])
  }

  /** Inserting adds exactly `x` to the elements. */
  lemma {:induction false} InsertPermutes(cmp: (Product, Product) -> int, t: seq<Product>, x: Product)
    ensures multiset(Insert(cmp, t, x)) == multiset(t) + multiset{x}
    decreases |t|
  {
    if t != [] && cmp(t[|t| - 1], x) > 0 {
      InsertPermutes(cmp, t[..|t| - 1], x);
      assert t == t[..|t| - 1] + [t[|t| - 1]];
    }
  }

  /** The sort is a permutation of its input. */
  lemma {:induction false} SortByPermutes(cmp: (Product, Product) -> int, s: seq<Product>)
    ensures multiset(SortBy(cmp, s)) == multiset(s)
    decreases |s|
  {
    if s != [] {
      SortByPermutes(cmp, s[..|s| - 1]);
      InsertPermutes(cmp, SortBy(cmp, s[..|s| - 1]), s[|s| - 1]);
      assert s == s[..|s| - 1] + [s[|s| - 1]];
    }
  }

  /** Appending an element no smaller than any other keeps a sequence sorted. */
  lemma SortedSnoc(cmp: (Product, Product) -> int, u: seq<Product>, y: Product)
    requires Sorted(cmp, u)
    requires forall m :: 0 <= m < |u| ==> cmp(u[m], y) <= 0
    ensures Sorted(cmp, u + [y])
  {
    var v := u + [y];
    forall i, j | 0 <= i < j < |v| ensures cmp(v[i], v[j]) <= 0 {
      assert v[i] == u[i];
      if j < |u| {
        assert v[j] == u[j];
      }
    }
  }

  /** When `x` moves before the last element, everything before the last stays no greater than it. */
  lemma BelowLast(cmp: (Product, Product) -> int, init: seq<Product>, last: Product, x: Product)
    requires IsPreorder(cmp) && Sorted(cmp, init + [last])
    requires cmp(last, x) > 0
    ensures forall y :: y in Insert(cmp, init, x) ==> cmp(y, last) <= 0
  {
    var t, u := init + [last], Insert(cmp, init, x);
    InsertPermutes(cmp, init, x);
    assert cmp(x, last) < 0;
    forall y | y in u ensures cmp(y, last) <= 0 {
      assert y in multiset(u);
      if y != x {
        var n :| 0 <= n < |init| && init[n] == y;
        assert t[n] == y && t[|init|] == last;
      }
    }
  }

  lemma {:induction false} InsertSorted(cmp: (Product, Product) -> int, t: seq<Product>, x: Product)
    requires IsPreorder(cmp) && Sorted(cmp, t)
    ensures Sorted(cmp, Insert(cmp, t, x))
    decreases |t|
  {
    if t == [] {
    } else if cmp(t[|t| - 1], x) > 0 {
      var init, last := t[..|t| - 1], t[|t| - 1];
      assert Sorted(cmp, init);
      InsertSorted(cmp, init, x);
      assert t == init + [last];
      BelowLast(cmp, init, last, x);
      SortedSnoc(cmp, Insert(cmp, init, x), last);
    } else {
      forall m | 0 <= m < |t| ensures cmp(t[m], x) <= 0 {
        if m < |t| - 1 {
          assert cmp(t[m], t[|t| - 1]) <= 0;
        }
      }
      SortedSnoc(cmp, t, x);
    }
  }

  /** The sort puts the sequence in the comparator's order. */
  lemma {:induction false} SortBySorted(cmp: (Product, Product) -> int, s: seq<Product>)
    requires IsPreorder(cmp)
    ensures Sorted(cmp, SortBy(cmp, s))
    decreases |s|
  {
    if s != [] {
      SortBySorted(cmp, s[..|s| - 1]);
      InsertSorted(cmp, SortBy(cmp, s[..|s| - 1]), s[|s| - 1]);
    }
  }

  /** The products that tie with `p` under `cmp`. */
  function Ties(cmp: (Product, Product) -> int, p: Product): Product -> bool
  {
    q => cmp(p, q) == 0
  }

  /** Inserting `x` puts it after every element it ties with. */
  lemma {:induction false} InsertTies(cmp: (Product, Product) -> int, t: seq<Product>, x: Product, p: Product)
    requires IsPreorder(cmp)
    ensures Filter(Insert(cmp, t, x), Ties(cmp, p)) == Filter(t, Ties(cmp, p)) + Filter([x], Ties(cmp, p))
    decreases |t|
  {
    var f := Ties(cmp, p);
    if t == [] {
      assert [x] == [] + [x];
    } else if cmp(t[|t| - 1], x) > 0 {
      var init, last := t[..|t| - 1], t[|t| - 1];
      assert f(x) ==> !f(last);
      calc {
        Filter(Insert(cmp, t, x), f);
        Filter(Insert(cmp, init, x) + [last], f);
        { FilterAppend(Insert(cmp, init, x), [last], f); }
        Filter(Insert(cmp, init, x), f) + Filter([last], f);
        { InsertTies(cmp, init, x, p); }
        Filter(init, f) + Filter([x], f) + Filter([last], f);
        { assert Filter([x], f) == [] || Filter([last], f) == []; }
        Filter(init, f) + Filter([last], f) + Filter([x], f);
        { assert t == init + [last]; FilterAppend(init, [last], f); }
        Filter(t, f) + Filter([x], f);
      }
    } else {
      FilterAppend(t, [x], f);
    }
  }

  /** The sort is stable: the products tying with any `p` keep their relative order. */
  lemma {:induction false} SortByStable(cmp: (Product, Product) -> int, s: seq<Product>, p: Product)
    requires IsPreorder(cmp)
    ensures Filter(SortBy(cmp, s), Ties(cmp, p)) == Filter(s, Ties(cmp, p))
    decreases |s|
  {
    if s != [] {
      var init, last := s[..|s| - 1], s[|s| - 1];
      SortByStable(cmp, init, p);
      InsertTies(cmp, SortBy(cmp, init), last, p);
      assert s == init + [last];
      FilterAppend(init, [last], Ties(cmp, p));
    }
  }

  /** Where the insertion stops: `x` goes right after the last element that does not sort after it. */
  lemma {:induction false} InsertAt(cmp: (Product, Product) -> int, t: seq<Product>, x: Product, j: nat)
    requires j <= |t|
    requires forall m :: j <= m < |t| ==> cmp(t[m], x) > 0
    requires j == 0 || cmp(t[j - 1], x) <= 0
    ensures Insert(cmp, t, x) == t[..j] + [x] + t[j..]
    decreases |t|
  {
    if j == |t| {
      assert t[..j] == t;
    } else {
      var init := t[..|t| - 1];
      InsertAt(cmp, init, x, j);
      assert init[..j] == t[..j];
      assert init[j..] + [t[|t| - 1]] == t[j..];
    }
  }

  /** The array prefix left by InsertLast's loop is `x` inserted into `t`. */
  lemma SlidInto(cmp: (Product, Product) -> int, v: seq<Product>, t: seq<Product>, x: Product, j: nat)
    requires |v| == |t| + 1 && j <= |t|
    requires forall m :: 0 <= m < j ==> v[m] == t[m]
    requires v[j] == x
    requires forall m :: j < m < |v| ==> v[m] == t[m - 1]
    requires forall m :: j <= m < |t| ==> cmp(t[m], x) > 0
    requires j == 0 || cmp(t[j - 1], x) <= 0
    ensures v == Insert(cmp, t, x)
  {
    InsertAt(cmp, t, x, j);
    var u := t[..j] + [x] + t[j..];
    assert forall m :: 0 <= m < |v| ==> v[m] == u[m];
  }

  /** Shifts right, by one place, the run of elements before `a[i]` that must come after `x`; returns the gap. */
  method ShiftGreater(a: array<Product>, cmp: (Product, Product) -> int, i: nat, x: Product) returns (j: nat)
    requires i < a.Length
    modifies a
    ensures j <= i
    ensures forall m :: 0 <= m < j ==> a[m] == old(a[m])
    ensures forall m :: j < m <= i ==> a[m] == old(a[m - 1])
    ensures forall m :: j <= m < i ==> cmp(old(a[m]), x) > 0
    ensures j == 0 || cmp(old(a[j - 1]), x) <= 0
    ensures forall m :: i < m < a.Length ==> a[m] == old(a[m])
  {
    j := i;
    while j > 0 && cmp(a[j - 1], x) > 0
      invariant 0 <= j <= i
      invariant forall m :: 0 <= m < j ==> a[m] == old(a[m])
      invariant forall m :: j < m <= i ==> a[m] == old(a[m - 1])
      invariant forall m :: j <= m < i ==> cmp(old(a[m]), x) > 0
      invariant forall m :: i < m < a.Length ==> a[m] == old(a[m])
    {
      a[j] := a[j - 1];
      j := j - 1;
    }
  }

  /** One step of the sort: moves `a[i]` into its place in the sorted prefix `a[..i]`. */
  method InsertLast(a: array<Product>, cmp: (Product, Product) -> int, i: nat)
    requires i < a.Length
    modifies a
    ensures a[..i + 1] == Insert(cmp, old(a[..i]), old(a[i]))
    ensures forall m :: i < m < a.Length ==> a[m] == old(a[m])
  {
    ghost var t := a[..i];
    var x := a[i];
    var j := ShiftGreater(a, cmp, i, x);
    a[j] := x;
    SlidInto(cmp, a[..i + 1], t, x, j);
  }

  /**
   * `Array.prototype.sort` with comparator `cmp`: a stable sort in place,
   * here by insertion (each element moves left past every element that
   * must come after it, and no further).
   */
  method SortInPlace(a: array<Product>, cmp: (Product, Product) -> int)
    modifies a
    ensures a[..] == SortBy(cmp, old(a[..]))
  {
    ghost var s := a[..];
    var i := 0;
    while i < a.Length
      invariant 0 <= i <= a.Length
      invariant a[..i] == SortBy(cmp, s[..i])
      invariant forall m :: i <= m < a.Length ==> a[m] == s[m]
    {
      InsertLast(a, cmp, i);
      assert s[..i + 1][..i] == s[..i];
      i := i + 1;
    }
    assert a[..] == a[..a.Length] && s == s[..a.Length];
  }
}

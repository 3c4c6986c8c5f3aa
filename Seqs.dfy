/**
 * The two array methods the reducers are built from, as functions over
 * sequences: `Array.prototype.filter` and `Array.prototype.findIndex`
 * (`find` is `findIndex` followed by an index).
 */
module Seqs {
  import opened Wrappers

  /** The elements of `s` that satisfy `f`, in their original order. */
  function Filter<T>(s: seq<T>, f: T -> bool): (r: seq<T>)
    ensures |r| <= |s|
    ensures forall i :: 0 <= i < |r| ==> r[i] in s && f(r[i])
    ensures forall i :: 0 <= i < |s| && f(s[i]) ==> s[i] in r
  {
    if s == [] then []
    else if f(s[0]) then [s[0]] + Filter(s[1..], f)
    else Filter(s[1..], f)
  }

  /** Filtering distributes over concatenation: the result keeps the input's order. */
  lemma {:induction false} FilterAppend<T>(a: seq<T>, b: seq<T>, f: T -> bool)
    ensures Filter(a + b, f) == Filter(a, f) + Filter(b, f)
  {
    if a == [] {
      assert a + b == b;
    } else {
      assert (a + b)[1..] == a[1..] + b;
      FilterAppend(a[1..], b, f);
    }
  }

  /** A filter that every element passes returns its input unchanged. */
  lemma {:induction false} FilterKeepsAll<T>(s: seq<T>, f: T -> bool)
    requires forall i :: 0 <= i < |s| ==> f(s[i])
    ensures Filter(s, f) == s
  {
    if s != [] {
      FilterKeepsAll(s[1..], f);
    }
  }

  /** The multiset of elements a filter keeps. */
  lemma {:induction false} FilterMultiset<T>(s: seq<T>, f: T -> bool, x: T)
    ensures multiset(Filter(s, f))[x] == if f(x) then multiset(s)[x] else 0
  {
    if s != [] {
      FilterMultiset(s[1..], f, x);
      assert s == [s[0]] + s[1..];
    }
  }

  /** The index of the first element satisfying `f`, or `None` (JavaScript's -1). */
  function FindIndex<T>(s: seq<T>, f: T -> bool): (r: Option<nat>)
    ensures r.Some? ==> r.value < |s| && f(s[r.value])
    ensures r.Some? ==> forall j :: 0 <= j < r.value ==> !f(s[j])
    ensures r.None? <==> forall j :: 0 <= j < |s| ==> !f(s[j])
  {
    if s == [] then None
    else if f(s[0]) then Some(0)
    else match FindIndex(s[1..], f)
      case None => None
      case Some(i) => Some(i + 1)
  }

  /** The first element satisfying `f`, or `None` (JavaScript's `find`). */
  function Find<T>(s: seq<T>, f: T -> bool): (r: Option<T>)
    ensures r.Some? <==> exists j :: 0 <= j < |s| && f(s[j])
    ensures r.Some? ==> exists j :: 0 <= j < |s| && s[j] == r.value && f(s[j]) &&
                                    forall m :: 0 <= m < j ==> !f(s[m])
  {
    match FindIndex(s, f)
    case None => None
    case Some(i) => Some(s[i])
  }

  /** The first match in `a + b` is the first in `a`, or else the first in `b` shifted past `a`. */
  lemma {:induction false} FindIndexAppend<T>(a: seq<T>, b: seq<T>, f: T -> bool)
    ensures FindIndex(a + b, f) ==
      match FindIndex(a, f)
      case Some(i) => Some(i)
      case None => match FindIndex(b, f)
        case None => None
        case Some(j) => Some(|a| + j)
  {
    if a == [] {
      assert a + b == b;
    } else if f(a[0]) {
      assert (a + b)[0] == a[0];
    } else {
      assert (a + b)[0] == a[0];
      assert (a + b)[1..] == a[1..] + b;
      FindIndexAppend(a[1..], b, f);
    }
  }

  /** `FindIndex` sees only which positions match, not the elements themselves. */
  lemma {:induction false} FindIndexSameMatches<T>(a: seq<T>, b: seq<T>, f: T -> bool, g: T -> bool)
    requires |a| == |b|
    requires forall j :: 0 <= j < |a| ==> f(a[j]) == g(b[j])
    ensures FindIndex(a, f) == FindIndex(b, g)
  {
    if a != [] {
      FindIndexSameMatches(a[1..], b[1..], f, g);
    }
  }

  /** Filtering twice keeps what passes both tests, in the original order. */
  lemma {:induction false} FilterFilter<T>(s: seq<T>, f: T -> bool, g: T -> bool, h: T -> bool)
    requires forall i :: 0 <= i < |s| ==> h(s[i]) == (f(s[i]) && g(s[i]))
    ensures Filter(Filter(s, f), g) == Filter(s, h)
  {
    if s != [] {
      FilterFilter(s[1..], f, g, h);
    }
  }
}

/** Sequence operations the model borrows from JavaScript arrays:
    `filter`, `find`, counting, and `Array.from(new Set(xs))`. */
module Seqs {
  import opened Outcomes

  function Min(a: int, b: int): int {
    if a <= b then a else b
  }

  /** The number of elements of `s` that satisfy `p`. */
  function Count<T>(p: T -> bool, s: seq<T>): (n: nat)
    ensures n <= |s|
    decreases |s|
  {
    if s == [] then 0 else (if p(s[0]) then 1 else 0) + Count(p, s[1..])
  }

  /** `s.filter(p)`: the elements of `s` that satisfy `p`, in their original order
      (the order is pinned down by `FilterAppend`). */
  function Filter<T>(p: T -> bool, s: seq<T>): (r: seq<T>)
    ensures |r| == Count(p, s)
    ensures forall i | 0 <= i < |r| :: p(r[i])
    ensures forall i | 0 <= i < |r| :: r[i] in s
    ensures forall i | 0 <= i < |s| && p(s[i]) :: s[i] in r
    decreases |s|
  {
    if s == [] then []
    else
      assert s == [s[0]] + s[1..];
      (if p(s[0]) then [s[0]] else []) + Filter(p, s[1..])
  }

  /** Filtering commutes with concatenation: the kept elements of `a` come first,
      in their order, then those of `b`. */
  lemma {:induction false} FilterAppend<T>(p: T -> bool, a: seq<T>, b: seq<T>)
    ensures Filter(p, a + b) == Filter(p, a) + Filter(p, b)
    decreases |a|
  {
    if a == [] {
      assert a + b == b;
    } else {
      assert (a + b)[0] == a[0];
      assert (a + b)[1..] == a[1..] + b;
      FilterAppend(p, a[1..], b);
    }
  }

  lemma CountAppend<T>(p: T -> bool, a: seq<T>, b: seq<T>)
    ensures Count(p, a + b) == Count(p, a) + Count(p, b)
  {
    FilterAppend(p, a, b);
  }

  /** Every element satisfies exactly one of `p` and its negation `q`. */
  lemma {:induction false} CountComplement<T>(p: T -> bool, q: T -> bool, s: seq<T>)
    requires forall x :: q(x) == !p(x)
    ensures Count(p, s) + Count(q, s) == |s|
    decreases |s|
  {
    if s != [] {
      CountComplement(p, q, s[1..]);
    }
  }

  /** Every element satisfies `p` exactly when all of them are counted. */
  lemma {:induction false} CountAll<T>(p: T -> bool, s: seq<T>)
    ensures Count(p, s) == |s| <==> forall i | 0 <= i < |s| :: p(s[i])
    decreases |s|
  {
    if s != [] {
      CountAll(p, s[1..]);
      assert forall i | 1 <= i < |s| :: s[i] == s[1..][i - 1];
    }
  }

  /** `s.findIndex(p)` starting at position `k`. */
  function FindFrom<T>(p: T -> bool, s: seq<T>, k: nat): (r: Option<nat>)
    requires k <= |s|
    ensures r.Some? ==> k <= r.value < |s| && p(s[r.value])
    ensures r.Some? ==> forall i | k <= i < r.value :: !p(s[i])
    ensures r.None? ==> forall i | k <= i < |s| :: !p(s[i])
    decreases |s| - k
  {
    if k == |s| then None
    else if p(s[k]) then Some(k)
    else FindFrom(p, s, k + 1)
  }

  /** The position of the first element satisfying `p`, if any. */
  function FindFirst<T>(p: T -> bool, s: seq<T>): (r: Option<nat>)
    ensures r.Some? ==> r.value < |s| && p(s[r.value])
    ensures r.Some? ==> forall i | 0 <= i < r.value :: !p(s[i])
    ensures r.None? <==> forall i | 0 <= i < |s| :: !p(s[i])
  {
    FindFrom(p, s, 0)
  }

  ghost predicate NoDuplicates<T>(s: seq<T>) {
    forall i, j | 0 <= i < j < |s| :: s[i] != s[j]
  }

  /** The position of the first occurrence of `x` in `s`. */
  function IndexOf<T(==)>(s: seq<T>, x: T): (i: nat)
    requires x in s
    ensures i < |s| && s[i] == x && x !in s[..i]
    decreases |s|
  {
    if s[0] == x then 0
    else
      var j := IndexOf(s[1..], x);
      assert s[..1 + j] == [s[0]] + s[1..][..j];
      1 + j
  }

  /** A first occurrence inside a prefix is the first occurrence in the whole sequence. */
  lemma IndexOfPrefix<T>(s: seq<T>, n: nat, x: T)
    requires n <= |s| && x in s[..n]
    ensures IndexOf(s, x) == IndexOf(s[..n], x)
  {
    var a, b := IndexOf(s, x), IndexOf(s[..n], x);
    assert s[..n][..b] == s[..b];
  }

  /** `Array.from(new Set(s))`: one copy of each element, in order of first occurrence
      (the order is pinned down by `DistinctKeepsFirstOccurrenceOrder`). */
  function Distinct<T(==)>(s: seq<T>): (r: seq<T>)
    ensures NoDuplicates(r)
    ensures forall i | 0 <= i < |r| :: r[i] in s
    ensures forall i | 0 <= i < |s| :: s[i] in r
    ensures |r| <= |s|
    decreases |s|
  {
    if s == [] then []
    else
      var last := s[|s| - 1];
      assert s == s[..|s| - 1] + [last];
      var r := Distinct(s[..|s| - 1]);
      if last in r then r else r + [last]
  }

  /** An element that does not occur earlier is first found at the end. */
  lemma IndexOfNewLast<T>(s: seq<T>)
    requires s != [] && s[|s| - 1] !in s[..|s| - 1]
    ensures IndexOf(s, s[|s| - 1]) == |s| - 1
  {
    var n := |s| - 1;
    forall j | 0 <= j < n
      ensures s[j] != s[n]
    {
      assert s[..n][j] == s[j];
    }
  }

  /** An order by first occurrence in a prefix stays one in the whole sequence. */
  lemma OrderByFirstOccurrenceLifts<T>(s: seq<T>, n: nat, r: seq<T>)
    requires n <= |s|
    requires forall k | 0 <= k < |r| :: r[k] in s[..n]
    requires forall i, j | 0 <= i < j < |r| :: IndexOf(s[..n], r[i]) < IndexOf(s[..n], r[j])
    ensures forall k | 0 <= k < |r| :: r[k] in s && IndexOf(s, r[k]) < n
    ensures forall i, j | 0 <= i < j < |r| :: IndexOf(s, r[i]) < IndexOf(s, r[j])
  {
    forall k | 0 <= k < |r|
      ensures r[k] in s && IndexOf(s, r[k]) == IndexOf(s[..n], r[k]) < n
    {
      IndexOfPrefix(s, n, r[k]);
    }
  }

  /** Appending an element whose first occurrence comes after all of `r`'s keeps the order. */
  lemma OrderByFirstOccurrenceSnoc<T>(s: seq<T>, r: seq<T>, x: T)
    requires x in s
    requires forall k | 0 <= k < |r| :: r[k] in s && IndexOf(s, r[k]) < IndexOf(s, x)
    requires forall i, j | 0 <= i < j < |r| :: IndexOf(s, r[i]) < IndexOf(s, r[j])
    ensures forall i, j | 0 <= i < j < |r + [x]| :: IndexOf(s, (r + [x])[i]) < IndexOf(s, (r + [x])[j])
  {
    var r' := r + [x];
    forall i, j | 0 <= i < j < |r'|
      ensures IndexOf(s, r'[i]) < IndexOf(s, r'[j])
    {
      assert r'[i] == r[i];
      if j < |r| {
        assert r'[j] == r[j];
      }
    }
  }

  lemma {:induction false} DistinctKeepsFirstOccurrenceOrder<T>(s: seq<T>)
    ensures forall i, j | 0 <= i < j < |Distinct(s)| :: IndexOf(s, Distinct(s)[i]) < IndexOf(s, Distinct(s)[j])
    decreases |s|
  {
    if s != [] {
      var n := |s| - 1;
      var prefix := s[..n];
      var rp := Distinct(prefix);
      DistinctKeepsFirstOccurrenceOrder(prefix);
      OrderByFirstOccurrenceLifts(s, n, rp);
      if s[n] in rp {
        assert Distinct(s) == rp;
      } else {
        assert Distinct(s) == rp + [s[n]];
        IndexOfNewLast(s);
        OrderByFirstOccurrenceSnoc(s, rp, s[n]);
      }
    }
  }
}

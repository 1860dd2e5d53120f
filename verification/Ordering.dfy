/** ORDER BY, LIMIT and Python's stable `sorted`, for any total preorder. */
module Ordering {

  ghost predicate TotalPreorder<T(!new)>(le: (T, T) -> bool) {
    && (forall a, b :: le(a, b) || le(b, a))
    && (forall a, b, c :: le(a, b) && le(b, c) ==> le(a, c))
  }

  ghost predicate Sorted<T(!new)>(le: (T, T) -> bool, s: seq<T>) {
    forall i, j :: 0 <= i < j < |s| ==> le(s[i], s[j])
  }

  /** No two elements of `s` rank equal. */
  ghost predicate Distinct<T(!new)>(le: (T, T) -> bool, s: seq<T>) {
    forall i, j :: 0 <= i < j < |s| ==> !(le(s[i], s[j]) && le(s[j], s[i]))
  }

  function Take<T>(s: seq<T>, n: nat): (r: seq<T>)
    ensures |r| == if |s| < n then |s| else n
    ensures r <= s
  {
    if |s| <= n then s else s[..n]
  }

  function Filter<T(!new)>(p: T -> bool, s: seq<T>): (r: seq<T>)
    ensures forall x :: x in r <==> x in s && p(x)
  {
    if s == [] then [] else
      assert forall x :: x in s <==> x == s[0] || x in s[1..];
      (if p(s[0]) then [s[0]] else []) + Filter(p, s[1..])
  }

  function Reverse<T>(s: seq<T>): (r: seq<T>)
    ensures |r| == |s|
    ensures forall i :: 0 <= i < |s| ==> r[i] == s[|s| - 1 - i]
  {
    seq(|s|, i requires 0 <= i < |s| => s[|s| - 1 - i])
  }

  /** Insertion in front of equals: one step of a stable sort read from the right. */
  function Insert<T>(le: (T, T) -> bool, x: T, s: seq<T>): (r: seq<T>)
    ensures multiset(r) == multiset{x} + multiset(s)
  {
    if s == [] || le(x, s[0]) then [x] + s
    else
      assert s == [s[0]] + s[1..];
      [s[0]] + Insert(le, x, s[1..])
  }

  /** Python's `sorted(s, key=...)`: a stable sort. */
  function Sort<T>(le: (T, T) -> bool, s: seq<T>): (r: seq<T>)
    ensures multiset(r) == multiset(s)
  {
    if s == [] then [] else
      assert s == [s[0]] + s[1..];
      Insert(le, s[0], Sort(le, s[1..]))
  }

  /** Two ascending runs into one, the left run first among equals. */
  function Merge<T>(le: (T, T) -> bool, a: seq<T>, b: seq<T>): (r: seq<T>) {
    if a == [] then b
    else if b == [] then a
    else if le(a[0], b[0]) then [a[0]] + Merge(le, a[1..], b)
    else [b[0]] + Merge(le, a, b[1..])
  }

  lemma {:induction false} InsertSorted<T(!new)>(le: (T, T) -> bool, x: T, s: seq<T>)
    requires TotalPreorder(le) && Sorted(le, s)
    ensures Sorted(le, Insert(le, x, s))
  {
    if s == [] || le(x, s[0]) {
    } else {
      InsertSorted(le, x, s[1..]);
      var t := Insert(le, x, s[1..]);
      forall i | 0 <= i < |t| ensures le(s[0], t[i]) {
        assert t[i] in multiset(t);
        assert t[i] == x || t[i] in s[1..];
      }
    }
  }

  lemma {:induction false} SortSorted<T(!new)>(le: (T, T) -> bool, s: seq<T>)
    requires TotalPreorder(le)
    ensures Sorted(le, Sort(le, s))
  {
    if s != [] {
      SortSorted(le, s[1..]);
      InsertSorted(le, s[0], Sort(le, s[1..]));
    }
  }

  lemma {:induction false} SortOfSorted<T(!new)>(le: (T, T) -> bool, s: seq<T>)
    requires Sorted(le, s)
    ensures Sort(le, s) == s
  {
    if s != [] {
      SortOfSorted(le, s[1..]);
    }
  }

  lemma {:induction false} InsertIntoMerge<T(!new)>(le: (T, T) -> bool, x: T, a: seq<T>, b: seq<T>)
    requires TotalPreorder(le) && Sorted(le, [x] + a) && Sorted(le, b)
    ensures Insert(le, x, Merge(le, a, b)) == Merge(le, [x] + a, b)
    decreases |b|
  {
    var xa := [x] + a;
    assert xa[1..] == a;
    if a != [] {
      assert le(xa[0], xa[1]);
    }
    if b == [] {
      assert Merge(le, a, b) == a;
    } else if !le(x, b[0]) {
      InsertIntoMerge(le, x, a, b[1..]);
      var m := Merge(le, a, b);
      assert m == [b[0]] + Merge(le, a, b[1..]);
      assert m[1..] == Merge(le, a, b[1..]);
    }
  }

  /** Sorting two ascending runs laid end to end merges them. */
  lemma {:induction false} SortOfRuns<T(!new)>(le: (T, T) -> bool, a: seq<T>, b: seq<T>)
    requires TotalPreorder(le) && Sorted(le, a) && Sorted(le, b)
    ensures Sort(le, a + b) == Merge(le, a, b)
  {
    if a == [] {
      assert a + b == b;
      SortOfSorted(le, b);
    } else {
      assert (a + b)[1..] == a[1..] + b;
      SortOfRuns(le, a[1..], b);
      assert a == [a[0]] + a[1..];
      InsertIntoMerge(le, a[0], a[1..], b);
    }
  }

  /** The first `n` of a merge need no more than the first `n` of either run. */
  lemma {:induction false} TakeOfMerge<T>(le: (T, T) -> bool, a: seq<T>, b: seq<T>, n: nat, k: nat, l: nat)
    requires n <= k && n <= l
    ensures Take(Merge(le, Take(a, k), Take(b, l)), n) == Take(Merge(le, a, b), n)
    decreases |a| + |b|
  {
    var a', b' := Take(a, k), Take(b, l);
    if n == 0 || a == [] || b == [] {
    } else if le(a[0], b[0]) {
      assert a'[1..] == Take(a[1..], k - 1);
      assert b' == Take(b, l);
      TakeOfMerge(le, a[1..], b, n - 1, k - 1, l);
      TakeCons(a[0], Merge(le, a'[1..], b'), n);
      TakeCons(a[0], Merge(le, a[1..], b), n);
    } else {
      assert b'[1..] == Take(b[1..], l - 1);
      TakeOfMerge(le, a, b[1..], n - 1, k, l - 1);
      TakeCons(b[0], Merge(le, a', b'[1..]), n);
      TakeCons(b[0], Merge(le, a, b[1..]), n);
    }
  }

  lemma TakeCons<T>(x: T, s: seq<T>, n: nat)
    requires n > 0
    ensures Take([x] + s, n) == [x] + Take(s, n - 1)
  {
  }

  lemma FilterCons<T(!new)>(p: T -> bool, x: T, s: seq<T>)
    ensures Filter(p, [x] + s) == if p(x) then [x] + Filter(p, s) else Filter(p, s)
    ensures Filter(p, [x]) == if p(x) then [x] else []
  {
    assert ([x] + s)[1..] == s;
  }

  lemma MergeLeft<T(!new)>(le: (T, T) -> bool, x: T, a: seq<T>, b: seq<T>)
    requires b == [] || le(x, b[0])
    ensures Merge(le, [x] + a, b) == [x] + Merge(le, a, b)
  {
    assert ([x] + a)[1..] == a;
    assert b == [] ==> Merge(le, a, b) == a;
  }

  lemma MergeRight<T(!new)>(le: (T, T) -> bool, a: seq<T>, y: T, b: seq<T>)
    requires a == [] || !le(a[0], y)
    ensures Merge(le, a, [y] + b) == [y] + Merge(le, a, b)
  {
    assert ([y] + b)[1..] == b;
  }

  /** Of two elements that rank equal the merge puts the left run's first. */
  lemma {:induction false} MergeTie<T(!new)>(le: (T, T) -> bool, a: seq<T>, b: seq<T>, x: T, y: T) returns (p: nat, q: nat)
    requires TotalPreorder(le) && Sorted(le, a) && Sorted(le, b) && x in a && y in b && le(x, y)
    ensures p < q < |Merge(le, a, b)| && Merge(le, a, b)[p] == x && Merge(le, a, b)[q] == y
    decreases |a| + |b|
  {
    hide Merge;
    var a', b' := a[1..], b[1..];
    assert a == [a[0]] + a' && b == [b[0]] + b';
    if le(a[0], b[0]) {
      MergeLeft(le, a[0], a', b);
      var m := Merge(le, a', b);
      if a[0] == x {
        MergeMembers(le, a', b, y);
        var k :| 0 <= k < |m| && m[k] == y;
        p, q := 0, k + 1;
      } else {
        p, q := MergeTie(le, a', b, x, y);
        p, q := p + 1, q + 1;
      }
    } else {
      HeadLeast(le, a, x);
      MergeRight(le, a, b[0], b');
      p, q := MergeTie(le, a, b', x, y);
      p, q := p + 1, q + 1;
    }
  }

  lemma {:induction false} MergeMembers<T(!new)>(le: (T, T) -> bool, a: seq<T>, b: seq<T>, x: T)
    ensures x in Merge(le, a, b) <==> x in a || x in b
    decreases |a| + |b|
  {
    if a != [] && b != [] {
      MergeMembers(le, a[1..], b, x);
      MergeMembers(le, a, b[1..], x);
      assert a == [a[0]] + a[1..] && b == [b[0]] + b[1..];
    }
  }

  lemma TwoPlaces<T>(s: seq<T>, x: T, i: nat, j: nat)
    requires i < j < |s| && s[i] == x && s[j] == x
    ensures multiset(s)[x] >= 2
  {
    assert s == s[..j] + s[j..];
    assert s[..j][i] == x && s[j..][0] == x;
    assert multiset(s[..j])[x] >= 1 && multiset(s[j..])[x] >= 1;
  }

  /** An element counted once stands in one place. */
  lemma OnePlace<T>(s: seq<T>, x: T, p: nat, q: nat)
    requires p < |s| && q < |s| && s[p] == x && s[q] == x && multiset(s)[x] <= 1
    ensures p == q
  {
    if p < q {
      TwoPlaces(s, x, p, q);
    } else if q < p {
      TwoPlaces(s, x, q, p);
    }
  }

  /** Dropping elements before or after a merge comes to the same: the merge is stable. */
  lemma {:induction false} MergeFilter<T(!new)>(le: (T, T) -> bool, p: T -> bool, a: seq<T>, b: seq<T>)
    requires TotalPreorder(le) && Sorted(le, a) && Sorted(le, b)
    ensures Filter(p, Merge(le, a, b)) == Merge(le, Filter(p, a), Filter(p, b))
    decreases |a| + |b|
  {
    if a == [] || b == [] {
      assert Filter(p, []) == [];
    } else if le(a[0], b[0]) {
      hide Filter, Merge;
      var x, rest := a[0], a[1..];
      assert a == [x] + rest;
      MergeFilter(le, p, rest, b);
      MergeLeft(le, x, rest, b);
      FilterCons(p, x, rest);
      FilterCons(p, x, Merge(le, rest, b));
      var fb := Filter(p, b);
      if p(x) {
        if fb != [] {
          assert fb[0] in fb;
          HeadLeast(le, b, fb[0]);
        }
        MergeLeft(le, x, Filter(p, rest), fb);
      }
    } else {
      hide Filter, Merge;
      var y, rest := b[0], b[1..];
      assert b == [y] + rest;
      MergeFilter(le, p, a, rest);
      MergeRight(le, a, y, rest);
      FilterCons(p, y, rest);
      FilterCons(p, y, Merge(le, a, rest));
      var fa := Filter(p, a);
      if p(y) {
        if fa != [] {
          assert fa[0] in fa;
          HeadLeast(le, a, fa[0]);
        }
        MergeRight(le, fa, y, Filter(p, rest));
      }
    }
  }

  lemma HeadLeast<T(!new)>(le: (T, T) -> bool, s: seq<T>, x: T)
    requires TotalPreorder(le) && Sorted(le, s) && x in s
    ensures le(s[0], x)
  {
    var i :| 0 <= i < |s| && s[i] == x;
  }

  lemma ReverseCons<T>(x: T, s: seq<T>)
    ensures Reverse([x] + s) == Reverse(s) + [x]
  {
  }

  lemma {:induction false} FilterReverse<T(!new)>(p: T -> bool, s: seq<T>)
    ensures Filter(p, Reverse(s)) == Reverse(Filter(p, s))
  {
    if s == [] {
      assert Reverse(s) == s;
    } else {
      hide Filter, Reverse;
      var x, rest := s[0], s[1..];
      assert s == [x] + rest;
      ReverseCons(x, rest);
      FilterReverse(p, rest);
      FilterCons(p, x, rest);
      FilterConcat(p, Reverse(rest), [x]);
      ReverseCons(x, Filter(p, rest));
    }
  }

  lemma {:induction false} FilterConcat<T(!new)>(p: T -> bool, a: seq<T>, b: seq<T>)
    ensures Filter(p, a + b) == Filter(p, a) + Filter(p, b)
  {
    if a == [] {
      assert a + b == b;
    } else {
      assert (a + b)[1..] == a[1..] + b;
      FilterConcat(p, a[1..], b);
    }
  }

  /** Two runs without a tie inside or across them merge into a listing without ties. */
  lemma {:induction false} MergeDistinct<T(!new)>(le: (T, T) -> bool, a: seq<T>, b: seq<T>)
    requires TotalPreorder(le) && Sorted(le, a) && Sorted(le, b) && Distinct(le, a) && Distinct(le, b)
    requires forall x, y :: x in a && y in b ==> !(le(x, y) && le(y, x))
    ensures Distinct(le, Merge(le, a, b))
    ensures forall x :: x in Merge(le, a, b) <==> x in a || x in b
    decreases |a| + |b|
  {
    if a == [] || b == [] {
    } else if le(a[0], b[0]) {
      MergeDistinct(le, a[1..], b);
      assert a == [a[0]] + a[1..];
      var m := Merge(le, a[1..], b);
      forall i | 0 <= i < |m| ensures !(le(a[0], m[i]) && le(m[i], a[0])) {
        assert m[i] in a[1..] || m[i] in b;
      }
    } else {
      MergeDistinct(le, a, b[1..]);
      assert b == [b[0]] + b[1..];
      var m := Merge(le, a, b[1..]);
      forall i | 0 <= i < |m| ensures !(le(b[0], m[i]) && le(m[i], b[0])) {
        assert m[i] in a || m[i] in b[1..];
      }
    }
  }

  /** ... and so does sorting them end to end. */
  lemma SortDistinct<T(!new)>(le: (T, T) -> bool, a: seq<T>, b: seq<T>)
    requires TotalPreorder(le) && Sorted(le, a) && Sorted(le, b) && Distinct(le, a) && Distinct(le, b)
    requires forall x, y :: x in a && y in b ==> !(le(x, y) && le(y, x))
    ensures Sorted(le, Sort(le, a + b)) && Distinct(le, Sort(le, a + b))
    ensures forall x :: x in Sort(le, a + b) <==> x in a || x in b
  {
    SortSorted(le, a + b);
    SortOfRuns(le, a, b);
    MergeDistinct(le, a, b);
  }

  /** PAGE REFINEMENT: cutting two ascending runs to `n`, sorting their union and cutting again gives the first
      `n` of the fully sorted union. */
  lemma CutSortCut<T(!new)>(le: (T, T) -> bool, a: seq<T>, b: seq<T>, n: nat)
    requires TotalPreorder(le) && Sorted(le, a) && Sorted(le, b)
    ensures Take(Sort(le, Take(a, n) + Take(b, n)), n) == Take(Sort(le, a + b), n)
  {
    SortOfRuns(le, Take(a, n), Take(b, n));
    SortOfRuns(le, a, b);
    TakeOfMerge(le, a, b, n, n, n);
  }

  /** A sorted listing without ties is determined by its elements. */
  lemma {:induction false} SortedUnique<T(!new)>(le: (T, T) -> bool, a: seq<T>, b: seq<T>)
    requires TotalPreorder(le) && Sorted(le, a) && Sorted(le, b) && Distinct(le, a) && Distinct(le, b)
    requires forall x :: x in a <==> x in b
    ensures a == b
  {
    assert |b| > 0 ==> b[0] in a;
    if a != [] {
      assert a[0] in b && b != [] && b[0] in a;
      assert a[0] == b[0];
      forall x ensures x in a[1..] <==> x in b[1..] {
        TailMembers(le, a, x);
        TailMembers(le, b, x);
      }
      SortedUnique(le, a[1..], b[1..]);
      assert a == [a[0]] + a[1..] && b == [b[0]] + b[1..];
    }
  }

  lemma TailMembers<T(!new)>(le: (T, T) -> bool, s: seq<T>, x: T)
    requires TotalPreorder(le) && Distinct(le, s) && s != []
    ensures x in s[1..] <==> x in s && x != s[0]
  {
    if x in s[1..] {
      var i :| 0 <= i < |s[1..]| && s[1..][i] == x;
      assert s[i + 1] == x;
    }
  }

  /** Sorting only rearranges. */
  lemma SortMembers<T>(le: (T, T) -> bool, s: seq<T>)
    ensures |Sort(le, s)| == |s|
    ensures forall x :: x in Sort(le, s) <==> x in s
  {
    var r := Sort(le, s);
    assert |r| == |multiset(r)| == |multiset(s)| == |s|;
    forall x ensures x in r <==> x in s {
      assert x in multiset(r) <==> x in r;
      assert x in multiset(s) <==> x in s;
    }
  }
}

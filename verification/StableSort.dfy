/** What a bottom-up merge sort computes, on sequences, and why the result is the stable sort. */
module StableSort {
  import opened Basics

  ghost predicate Sorted<T>(le: (T, T) -> bool, s: seq<T>) {
    forall i, j :: 0 <= i < j < |s| ==> le(s[i], s[j])
  }

  /** The relation is a total preorder on the elements of s. */
  ghost predicate PreorderOn<T>(le: (T, T) -> bool, s: seq<T>) {
    && (forall x, y :: x in s && y in s ==> le(x, y) || le(y, x))
    && (forall x, y, z :: x in s && y in s && z in s && le(x, y) && le(y, z) ==> le(x, z))
  }

  /** The elements of s that tie with x, in order. */
  ghost function Ties<T>(le: (T, T) -> bool, x: T, s: seq<T>): (r: seq<T>) {
    if s == [] then []
    else (if le(x, s[0]) && le(s[0], x) then [s[0]] else []) + Ties(le, x, s[1..])
  }

  /** Elements that tie keep their order. */
  ghost predicate Stable<T>(le: (T, T) -> bool, s: seq<T>, r: seq<T>) {
    forall x :: x in s ==> Ties(le, x, r) == Ties(le, x, s)
  }

  ghost predicate StableSortOf<T>(le: (T, T) -> bool, s: seq<T>, r: seq<T>) {
    multiset(r) == multiset(s) && Sorted(le, r) && Stable(le, s, r)
  }

  function Merge<T>(le: (T, T) -> bool, p: seq<T>, q: seq<T>): (r: seq<T>)
    ensures |r| == |p| + |q|
    decreases |p| + |q|
  {
    if p == [] then q
    else if q == [] then p
    else if le(p[0], q[0]) then [p[0]] + Merge(le, p[1..], q)
    else [q[0]] + Merge(le, p, q[1..])
  }

  /** One pass: merge neighbouring runs of length k. */
  function MergePass<T>(le: (T, T) -> bool, s: seq<T>, k: nat): (r: seq<T>)
    requires k >= 1
    ensures |r| == |s|
    decreases |s|
  {
    if s == [] then []
    else
      var pe, qe := Min(k, |s|), Min(2 * k, |s|);
      Merge(le, s[..pe], s[pe..qe]) + MergePass(le, s[qe..], k)
  }

  /** All passes from run length k on; the last one is the pass that merges a single pair of runs. */
  function Passes<T>(le: (T, T) -> bool, s: seq<T>, k: nat): (r: seq<T>)
    requires k >= 1
    ensures |r| == |s|
    decreases |s| - k
  {
    var r := MergePass(le, s, k);
    if |s| <= 2 * k then r else Passes(le, r, 2 * k)
  }

  /** Every aligned block of k elements (and the shorter last one) is sorted. */
  ghost predicate RunsSorted<T>(le: (T, T) -> bool, s: seq<T>, k: nat)
    requires k >= 1
    decreases |s|
  {
    s == [] || (Sorted(le, s[..Min(k, |s|)]) && RunsSorted(le, s[Min(k, |s|)..], k))
  }

  lemma ConsPerm<T>(x: T, a: seq<T>, b: seq<T>, m: seq<T>)
    requires a != [] && a[0] == x && multiset(m) == multiset(a[1..]) + multiset(b)
    ensures multiset([x] + m) == multiset(a) + multiset(b)
  {
    assert a == [x] + a[1..];
  }

  lemma {:induction false} MergePerm<T>(le: (T, T) -> bool, p: seq<T>, q: seq<T>)
    ensures multiset(Merge(le, p, q)) == multiset(p) + multiset(q)
    decreases |p| + |q|
  {
    if p == [] {
    } else if q == [] {
    } else if le(p[0], q[0]) {
      MergePerm(le, p[1..], q);
      ConsPerm(p[0], p, q, Merge(le, p[1..], q));
    } else {
      MergePerm(le, p, q[1..]);
      ConsPerm(q[0], q, p, Merge(le, p, q[1..]));
    }
  }

  lemma MergeElements<T>(le: (T, T) -> bool, p: seq<T>, q: seq<T>, x: T)
    ensures x in Merge(le, p, q) <==> x in p || x in q
  {
    MergePerm(le, p, q);
    assert x in Merge(le, p, q) <==> x in multiset(Merge(le, p, q));
    assert x in p <==> x in multiset(p);
    assert x in q <==> x in multiset(q);
  }

  lemma PreorderSub<T>(le: (T, T) -> bool, s: seq<T>, r: seq<T>)
    requires PreorderOn(le, s) && forall x :: x in r ==> x in s
    ensures PreorderOn(le, r)
  {
  }

  lemma SortedCons<T>(le: (T, T) -> bool, x: T, s: seq<T>)
    requires Sorted(le, s) && forall y :: y in s ==> le(x, y)
    ensures Sorted(le, [x] + s)
  {
    var t := [x] + s;
    forall i, j | 0 <= i < j < |t|
      ensures le(t[i], t[j])
    {
      assert t[j] == s[j - 1];
      if i > 0 { assert t[i] == s[i - 1]; }
    }
  }

  lemma SortedTail<T>(le: (T, T) -> bool, s: seq<T>)
    requires Sorted(le, s) && s != []
    ensures Sorted(le, s[1..]) && forall y :: y in s[1..] ==> le(s[0], y)
  {
    forall i, j | 0 <= i < j < |s[1..]|
      ensures le(s[1..][i], s[1..][j])
    {
      assert s[1..][i] == s[i + 1] && s[1..][j] == s[j + 1];
    }
  }

  lemma {:induction false} MergeSorted<T>(le: (T, T) -> bool, p: seq<T>, q: seq<T>)
    requires PreorderOn(le, p + q) && Sorted(le, p) && Sorted(le, q)
    ensures Sorted(le, Merge(le, p, q))
    decreases |p| + |q|
  {
    if p == [] {
    } else if q == [] {
    } else {
      SortedTail(le, p);
      SortedTail(le, q);
      assert p[0] in p + q && q[0] in p + q;
      if le(p[0], q[0]) {
        PreorderSub(le, p + q, p[1..] + q);
        MergeSorted(le, p[1..], q);
        forall y | y in Merge(le, p[1..], q)
          ensures le(p[0], y)
        {
          MergeElements(le, p[1..], q, y);
          assert y in p + q;
        }
        SortedCons(le, p[0], Merge(le, p[1..], q));
      } else {
        PreorderSub(le, p + q, p + q[1..]);
        MergeSorted(le, p, q[1..]);
        forall y | y in Merge(le, p, q[1..])
          ensures le(q[0], y)
        {
          MergeElements(le, p, q[1..], y);
          assert y in p + q;
        }
        SortedCons(le, q[0], Merge(le, p, q[1..]));
      }
    }
  }

  lemma {:induction false} TiesConcat<T>(le: (T, T) -> bool, x: T, a: seq<T>, b: seq<T>)
    ensures Ties(le, x, a + b) == Ties(le, x, a) + Ties(le, x, b)
  {
    if a == [] {
      assert a + b == b;
    } else {
      assert (a + b)[1..] == a[1..] + b;
      TiesConcat(le, x, a[1..], b);
    }
  }

  lemma {:induction false} NoTies<T>(le: (T, T) -> bool, x: T, s: seq<T>)
    requires forall y :: y in s ==> !le(y, x)
    ensures Ties(le, x, s) == []
  {
    if s != [] {
      assert s[0] in s;
      NoTies(le, x, s[1..]);
    }
  }

  lemma FirstLeast<T>(le: (T, T) -> bool, s: seq<T>, y: T)
    requires Sorted(le, s) && y in s
    ensures s[0] == y || le(s[0], y)
  {
  }

  /** The tie that the first element of s is, if it is one. */
  ghost function FirstTie<T>(le: (T, T) -> bool, x: T, y: T): seq<T> {
    if le(x, y) && le(y, x) then [y] else []
  }

  lemma TiesFirst<T>(le: (T, T) -> bool, x: T, s: seq<T>)
    requires s != []
    ensures Ties(le, x, s) == FirstTie(le, x, s[0]) + Ties(le, x, s[1..])
  {
  }

  /** Nothing in a sorted run ties with x if what ties with x comes strictly before its first element. */
  lemma NoneTies<T>(le: (T, T) -> bool, x: T, dom: seq<T>, p: seq<T>, y: T)
    requires PreorderOn(le, dom) && x in dom && y in dom && Sorted(le, p) && p != [] && forall z :: z in p ==> z in dom
    requires le(x, y) && le(y, x) && !le(p[0], y)
    ensures Ties(le, x, p) == []
  {
    forall z | z in p
      ensures !le(z, x)
    {
      assert p[0] in p;
      FirstLeast(le, p, z);
    }
    NoTies(le, x, p);
  }

  lemma MergeFirst<T>(le: (T, T) -> bool, p: seq<T>, q: seq<T>)
    requires p != [] && q != []
    ensures var m := Merge(le, p, q);
      && m[0] == (if le(p[0], q[0]) then p[0] else q[0])
      && m[1..] == if le(p[0], q[0]) then Merge(le, p[1..], q) else Merge(le, p, q[1..])
  {
  }

  lemma TakeFirst<T>(le: (T, T) -> bool, x: T, p: seq<T>, q: seq<T>)
    requires p != [] && q != [] && le(p[0], q[0])
    requires Ties(le, x, Merge(le, p[1..], q)) == Ties(le, x, p[1..]) + Ties(le, x, q)
    ensures Ties(le, x, Merge(le, p, q)) == Ties(le, x, p) + Ties(le, x, q)
  {
    hide Merge, Ties, FirstTie;
    MergeFirst(le, p, q);
    TiesFirst(le, x, Merge(le, p, q));
    TiesFirst(le, x, p);
    Assoc(FirstTie(le, x, p[0]), Ties(le, x, p[1..]), Ties(le, x, q));
  }

  lemma TakeSecond<T>(le: (T, T) -> bool, x: T, p: seq<T>, q: seq<T>)
    requires p != [] && q != [] && !le(p[0], q[0])
    requires Ties(le, x, Merge(le, p, q[1..])) == Ties(le, x, p) + Ties(le, x, q[1..])
    requires Ties(le, x, p) == [] || FirstTie(le, x, q[0]) == []
    ensures Ties(le, x, Merge(le, p, q)) == Ties(le, x, p) + Ties(le, x, q)
  {
    hide Merge, Ties, FirstTie;
    MergeFirst(le, p, q);
    TiesFirst(le, x, Merge(le, p, q));
    TiesFirst(le, x, q);
  }

  /** Merging keeps ties in order: those of the first run come first. */
  lemma {:induction false} MergeStableAt<T>(le: (T, T) -> bool, x: T, dom: seq<T>, p: seq<T>, q: seq<T>)
    requires PreorderOn(le, dom) && x in dom && Sorted(le, p)
    requires (forall y :: y in p ==> y in dom) && (forall y :: y in q ==> y in dom)
    ensures Ties(le, x, Merge(le, p, q)) == Ties(le, x, p) + Ties(le, x, q)
    decreases |p| + |q|
  {
    hide PreorderOn, Sorted;
    if p == [] {
    } else if q == [] {
    } else {
      hide Ties, Merge;
      SortedTail(le, p);
      if le(p[0], q[0]) {
        MergeStableAt(le, x, dom, p[1..], q);
        TakeFirst(le, x, p, q);
      } else {
        MergeStableAt(le, x, dom, p, q[1..]);
        assert q[0] in q;
        if FirstTie(le, x, q[0]) != [] {
          NoneTies(le, x, dom, p, q[0]);
        }
        TakeSecond(le, x, p, q);
      }
    }
  }

  lemma SplitMultiset<T>(s: seq<T>, i: nat, j: nat)
    requires i <= j <= |s|
    ensures multiset(s[..i]) + multiset(s[i..j]) + multiset(s[j..]) == multiset(s)
  {
    assert s == s[..i] + s[i..j] + s[j..];
  }

  lemma {:induction false} MergePassPerm<T>(le: (T, T) -> bool, s: seq<T>, k: nat)
    requires k >= 1
    ensures multiset(MergePass(le, s, k)) == multiset(s)
    decreases |s|
  {
    if s != [] {
      var pe, qe := Min(k, |s|), Min(2 * k, |s|);
      var p, q, t := s[..pe], s[pe..qe], s[qe..];
      var m, n := Merge(le, p, q), MergePass(le, t, k);
      MergePassPerm(le, t, k);
      calc {
        multiset(MergePass(le, s, k));
        multiset(m + n);
        multiset(m) + multiset(n);
        { MergePerm(le, p, q); }
        multiset(p) + multiset(q) + multiset(t);
        { SplitMultiset(s, pe, qe); }
        multiset(s);
      }
    }
  }

  lemma {:induction false} PassesPerm<T>(le: (T, T) -> bool, s: seq<T>, k: nat)
    requires k >= 1
    ensures multiset(Passes(le, s, k)) == multiset(s)
    decreases |s| - k
  {
    MergePassPerm(le, s, k);
    if |s| > 2 * k {
      PassesPerm(le, MergePass(le, s, k), 2 * k);
    }
  }

  lemma Ties3<T>(le: (T, T) -> bool, x: T, a: seq<T>, b: seq<T>, c: seq<T>)
    ensures Ties(le, x, a) + Ties(le, x, b) + Ties(le, x, c) == Ties(le, x, a + b + c)
  {
    TiesConcat(le, x, a, b);
    TiesConcat(le, x, a + b, c);
  }

  /** The two runs at the front are sorted, and so are the runs after them. */
  lemma SplitRuns<T>(le: (T, T) -> bool, s: seq<T>, k: nat)
    requires k >= 1 && s != [] && RunsSorted(le, s, k)
    ensures var pe, qe := Min(k, |s|), Min(2 * k, |s|);
      Sorted(le, s[..pe]) && Sorted(le, s[pe..qe]) && RunsSorted(le, s[qe..], k)
  {
    var pe, qe := Min(k, |s|), Min(2 * k, |s|);
    var t := s[pe..];
    if t != [] {
      assert t[..Min(k, |t|)] == s[pe..qe];
      assert t[Min(k, |t|)..] == s[qe..];
    } else {
      assert s[pe..qe] == [];
    }
  }

  lemma {:induction false} MergePassStable<T>(le: (T, T) -> bool, x: T, dom: seq<T>, s: seq<T>, k: nat)
    requires k >= 1 && PreorderOn(le, dom) && x in dom && RunsSorted(le, s, k)
    requires forall y :: y in s ==> y in dom
    ensures Ties(le, x, MergePass(le, s, k)) == Ties(le, x, s)
    decreases |s|
  {
    if s != [] {
      var pe, qe := Min(k, |s|), Min(2 * k, |s|);
      var p, q, t := s[..pe], s[pe..qe], s[qe..];
      SplitRuns(le, s, k);
      calc {
        Ties(le, x, MergePass(le, s, k));
        { TiesConcat(le, x, Merge(le, p, q), MergePass(le, t, k)); }
        Ties(le, x, Merge(le, p, q)) + Ties(le, x, MergePass(le, t, k));
        { MergeStableAt(le, x, dom, p, q); }
        Ties(le, x, p) + Ties(le, x, q) + Ties(le, x, MergePass(le, t, k));
        { MergePassStable(le, x, dom, t, k); }
        Ties(le, x, p) + Ties(le, x, q) + Ties(le, x, t);
        { Ties3(le, x, p, q, t); }
        Ties(le, x, p + q + t);
        { assert s == p + q + t; }
        Ties(le, x, s);
      }
    }
  }

  /** A block that is sorted, in front of runs that are. */
  lemma PrependRun<T>(le: (T, T) -> bool, m: seq<T>, rest: seq<T>, k: nat)
    requires k >= 1 && m != [] && Sorted(le, m) && RunsSorted(le, rest, k)
    requires |m| <= k && (|m| < k ==> rest == [])
    ensures RunsSorted(le, m + rest, k)
  {
    hide Sorted;
    var r := m + rest;
    var c := Min(k, |r|);
    assert c == |m|;
    assert r[..c] == m && r[c..] == rest;
  }

  lemma {:induction false} MergePassSorts<T>(le: (T, T) -> bool, s: seq<T>, k: nat)
    requires k >= 1 && PreorderOn(le, s) && RunsSorted(le, s, k)
    ensures RunsSorted(le, MergePass(le, s, k), 2 * k)
    decreases |s|
  {
    hide Sorted, PreorderOn, Merge;
    if s == [] {
    } else {
      hide RunsSorted;
      var pe, qe := Min(k, |s|), Min(2 * k, |s|);
      var p, q, t := s[..pe], s[pe..qe], s[qe..];
      SplitRuns(le, s, k);
      PreorderSub(le, s, p + q);
      PreorderSub(le, s, t);
      MergeSorted(le, p, q);
      MergePassSorts(le, t, k);
      PrependRun(le, Merge(le, p, q), MergePass(le, t, k), 2 * k);
    }
  }

  lemma {:induction false} SingletonRuns<T>(le: (T, T) -> bool, s: seq<T>)
    ensures RunsSorted(le, s, 1)
  {
    if s != [] {
      SingletonRuns(le, s[1..]);
    }
  }

  lemma OneRun<T>(le: (T, T) -> bool, r: seq<T>, k: nat)
    requires k >= 1 && |r| <= k && RunsSorted(le, r, k)
    ensures Sorted(le, r)
  {
    if r != [] {
      assert r[..Min(k, |r|)] == r;
    }
  }

  lemma SameElements<T>(s: seq<T>, r: seq<T>)
    requires multiset(s) == multiset(r)
    ensures forall x :: x in s <==> x in r
  {
    forall x
      ensures x in s <==> x in r
    {
      assert x in s <==> x in multiset(s);
      assert x in r <==> x in multiset(r);
    }
  }

  lemma PreorderPerm<T>(le: (T, T) -> bool, s: seq<T>, r: seq<T>)
    requires PreorderOn(le, s) && multiset(r) == multiset(s)
    ensures PreorderOn(le, r)
  {
    SameElements(s, r);
    forall x | x in r
      ensures x in s
    {
    }
    PreorderSub(le, s, r);
  }

  /** A pass permutes, keeps ties in order, and doubles the length of the sorted runs. */
  lemma PassCorrect<T>(le: (T, T) -> bool, s: seq<T>, k: nat)
    requires k >= 1 && PreorderOn(le, s) && RunsSorted(le, s, k)
    ensures var r := MergePass(le, s, k);
      multiset(r) == multiset(s) && Stable(le, s, r) && RunsSorted(le, r, 2 * k)
  {
    MergePassPerm(le, s, k);
    MergePassSorts(le, s, k);
    forall x | x in s
      ensures Ties(le, x, MergePass(le, s, k)) == Ties(le, x, s)
    {
      MergePassStable(le, x, s, s, k);
    }
  }

  lemma StableTrans<T>(le: (T, T) -> bool, s: seq<T>, r: seq<T>, t: seq<T>)
    requires multiset(r) == multiset(s) && Stable(le, s, r) && StableSortOf(le, r, t)
    ensures StableSortOf(le, s, t)
  {
    SameElements(s, r);
  }

  /** From sorted runs of length k, the remaining passes give the stable sort. */
  lemma {:induction false} PassesSort<T>(le: (T, T) -> bool, s: seq<T>, k: nat)
    requires k >= 1 && PreorderOn(le, s) && RunsSorted(le, s, k)
    ensures StableSortOf(le, s, Passes(le, s, k))
    decreases |s| - k
  {
    var r := MergePass(le, s, k);
    PassCorrect(le, s, k);
    if |s| <= 2 * k {
      OneRun(le, r, 2 * k);
    } else {
      PreorderPerm(le, s, r);
      PassesSort(le, r, 2 * k);
      StableTrans(le, s, r, Passes(le, r, 2 * k));
    }
  }

  /** The whole sort, starting from runs of length one. */
  lemma {:induction false} SortCorrect<T>(le: (T, T) -> bool, s: seq<T>)
    requires PreorderOn(le, s)
    ensures StableSortOf(le, s, Passes(le, s, 1))
  {
    SingletonRuns(le, s);
    PassesSort(le, s, 1);
  }

  lemma SamePrefix<T>(p: seq<T>, a: seq<T>, b: seq<T>)
    requires p + a == p + b
    ensures a == b
  {
    assert (p + a)[|p|..] == a && (p + b)[|p|..] == b;
  }

  /** What is left of two equal multisets and equal ties behind the same first element. */
  lemma TailsAgree<T>(le: (T, T) -> bool, dom: seq<T>, a: T, r: seq<T>, r': seq<T>)
    requires multiset([a] + r) == multiset([a] + r')
    requires forall x :: x in dom ==> Ties(le, x, [a] + r) == Ties(le, x, [a] + r')
    ensures multiset(r) == multiset(r')
    ensures forall x :: x in dom ==> Ties(le, x, r) == Ties(le, x, r')
  {
    assert multiset(r) == multiset([a] + r) - multiset{a};
    assert multiset(r') == multiset([a] + r') - multiset{a};
    forall x | x in dom
      ensures Ties(le, x, r) == Ties(le, x, r')
    {
      TiesConcat(le, x, [a], r);
      TiesConcat(le, x, [a], r');
      SamePrefix(Ties(le, x, [a]), Ties(le, x, r), Ties(le, x, r'));
    }
  }

  /** The first elements tie, so they are the first of their ties, and equal. */
  lemma SameFirst<T>(le: (T, T) -> bool, dom: seq<T>, r: seq<T>, r': seq<T>)
    requires PreorderOn(le, dom) && r != [] && r' != []
    requires (forall y :: y in r ==> y in dom) && r'[0] in r && r[0] in r'
    requires Sorted(le, r) && Sorted(le, r')
    requires Ties(le, r[0], r) == Ties(le, r[0], r')
    ensures r[0] == r'[0]
  {
    var a, b := r[0], r'[0];
    assert a in r && a in dom && b in dom;
    FirstLeast(le, r, b);
    FirstLeast(le, r', a);
    assert le(a, a);
    assert Ties(le, a, r)[0] == a && Ties(le, a, r')[0] == b;
  }

  lemma {:induction false} SortedTiesDetermine<T>(le: (T, T) -> bool, dom: seq<T>, r: seq<T>, r': seq<T>)
    requires PreorderOn(le, dom)
    requires (forall y :: y in r ==> y in dom) && (forall y :: y in r' ==> y in dom)
    requires Sorted(le, r) && Sorted(le, r') && multiset(r) == multiset(r')
    requires forall x :: x in dom ==> Ties(le, x, r) == Ties(le, x, r')
    ensures r == r'
    decreases |r|
  {
    hide PreorderOn, Sorted, Ties;
    SameElements(r, r');
    assert |r| == |multiset(r)| == |multiset(r')| == |r'|;
    if r == [] {
    } else {
      assert r[0] in r && r'[0] in r';
      SameFirst(le, dom, r, r');
      SortedTail(le, r);
      SortedTail(le, r');
      assert r == [r[0]] + r[1..] && r' == [r[0]] + r'[1..];
      TailsAgree(le, dom, r[0], r[1..], r'[1..]);
      SortedTiesDetermine(le, dom, r[1..], r'[1..]);
    }
  }

  /** Any two stable sorts of a sequence are the same sequence. */
  lemma {:induction false} StableSortUnique<T>(le: (T, T) -> bool, s: seq<T>, r: seq<T>, r': seq<T>)
    requires PreorderOn(le, s) && StableSortOf(le, s, r) && StableSortOf(le, s, r')
    ensures r == r'
  {
    SameElements(s, r);
    SameElements(s, r');
    SortedTiesDetermine(le, s, r, r');
  }
}

/** HASH_SRT on the app list: a bottom-up merge sort that relinks the handles in place. */
module UthashSort {
  import opened Basics
  import opened UthashNodes
  import opened StableSort

  /** The handles written so far, all in w: linked forward and backward, except the last one's `next`. */
  ghost predicate Written(o: seq<Handle>, w: set<Handle>, list: Handle?, tail: Handle?)
    reads o`next, o`prev
  {
    && (forall j {:trigger o[j]} :: 0 <= j < |o| ==> o[j] in w)
    && Distinct(o)
    && list == At(o, 0) && tail == At(o, |o| - 1)
    && (forall j {:trigger o[j].next} :: 0 <= j < |o| - 1 ==> o[j].next == o[j + 1])
    && (forall j {:trigger o[j].prev} :: 0 <= j < |o| ==> o[j].prev == At(o, j - 1))
  }

  /** The handles of s from index i up to j still have their links to the right and are not in w. */
  ghost predicate Untouched(s: seq<Handle>, i: nat, j: nat, w: set<Handle>)
    reads s`next
  {
    && (forall k {:trigger s[k].next} :: i <= k < j && k < |s| ==> s[k].next == At(s, k + 1))
    && (forall k {:trigger s[k]} :: i <= k < j && k < |s| ==> s[k] !in w)
  }

  /** Append e to the written list. */
  method Emit(list: Handle?, tail: Handle?, e: Handle, ghost o: seq<Handle>, ghost w: set<Handle>,
              ghost s: seq<Handle>, ghost pi: nat, ghost qs: nat, ghost qi: nat)
    returns (list': Handle?)
    requires Written(o, w, list, tail) && e !in w
    requires Untouched(s, pi, qs, w + {e}) && Untouched(s, qi, |s|, w + {e})
    modifies w`next, e`prev
    ensures Written(o + [e], w + {e}, list', e)
    ensures Untouched(s, pi, qs, w + {e}) && Untouched(s, qi, |s|, w + {e})
  {
    list' := list;
    if tail != null {
      assert tail == o[|o| - 1];
      tail.next := e;
    } else {
      list' := e;
    }
    e.prev := tail;
  }

  /** The order that the comparator's sign gives. */
  function LeOf(cmp: (Handle, Handle) -> int): (Handle, Handle) -> bool {
    (a: Handle, b: Handle) => cmp(a, b) <= 0
  }

  lemma LeIs(cmp: (Handle, Handle) -> int)
    ensures forall a, b :: LeOf(cmp)(a, b) <==> cmp(a, b) <= 0
  {
  }

  /** What is still to be merged: the rest of the run before qs and the rest of the run before qe. */
  ghost function Rest(le: (Handle, Handle) -> bool, s: seq<Handle>, pi: nat, qs: nat, qi: nat, qe: nat): seq<Handle>
    requires pi <= qs <= qi <= qe <= |s|
  {
    Merge(le, s[pi..qs], s[qi..qe])
  }

  lemma NothingLeft(le: (Handle, Handle) -> bool, s: seq<Handle>, qs: nat, qe: nat, o: seq<Handle>)
    requires qs <= qe <= |s|
    ensures o + Rest(le, s, qs, qs, qe, qe) == o
  {
  }

  lemma TakeP(le: (Handle, Handle) -> bool, s: seq<Handle>, pi: nat, qs: nat, qi: nat, qe: nat, o: seq<Handle>)
    requires pi < qs <= qi <= qe <= |s|
    requires qi < qe ==> le(s[pi], s[qi])
    ensures o + Rest(le, s, pi, qs, qi, qe) == (o + [s[pi]]) + Rest(le, s, pi + 1, qs, qi, qe)
  {
    assert s[pi..qs][1..] == s[pi + 1..qs];
    assert s[pi..qs] == [s[pi]] + s[pi + 1..qs];
  }

  lemma TakeQ(le: (Handle, Handle) -> bool, s: seq<Handle>, pi: nat, qs: nat, qi: nat, qe: nat, o: seq<Handle>)
    requires pi <= qs <= qi < qe <= |s|
    requires pi < qs ==> !le(s[pi], s[qi])
    ensures o + Rest(le, s, pi, qs, qi, qe) == (o + [s[qi]]) + Rest(le, s, pi, qs, qi + 1, qe)
  {
    assert s[qi..qe][1..] == s[qi + 1..qe];
    assert s[qi..qe] == [s[qi]] + s[qi + 1..qe];
  }

  /** After s[x] is taken from the front of one of the two runs, the rest of both is untouched. */
  lemma StillUntouched(s: seq<Handle>, x: nat, p0: nat, pi: nat, qs: nat, q0: nat, qi: nat, w: set<Handle>)
    requires Distinct(s) && x < |s| && p0 <= pi <= qs <= q0 <= qi && (x < pi || qs <= x < qi)
    requires Untouched(s, p0, qs, w) && Untouched(s, q0, |s|, w)
    ensures Untouched(s, pi, qs, w + {s[x]}) && Untouched(s, qi, |s|, w + {s[x]})
  {
  }

  lemma SplitUntouched(s: seq<Handle>, i: nat, m: nat, w: set<Handle>)
    requires i <= m && Untouched(s, i, |s|, w)
    ensures Untouched(s, i, m, w) && Untouched(s, m, |s|, w)
  {
  }

  lemma NextOf(s: seq<Handle>, i: nat, j: nat, w: set<Handle>)
    requires i < j && i < |s| && Untouched(s, i, j, w)
    ensures s[i].next == At(s, i + 1) && s[i] !in w && s[i] in Elems(s)
  {
  }

  /** Merge the run s[base..qs], entered at p, with the run after it, entered at q. */
  method MergeRuns(cmp: (Handle, Handle) -> int, p0: Handle, psize0: nat, q0: Handle?, insize: nat,
                   list0: Handle?, tail0: Handle?, ghost s: seq<Handle>, ghost base: nat, ghost o0: seq<Handle>,
                   ghost w0: set<Handle>)
    returns (q: Handle?, list: Handle?, tail: Handle?, ghost o: seq<Handle>, ghost w: set<Handle>)
    requires Distinct(s) && insize >= 1 && base < |s| && psize0 == Min(insize, |s| - base)
    requires p0 == s[base] && q0 == At(s, base + psize0)
    requires Written(o0, w0, list0, tail0) && Untouched(s, base, |s|, w0) && w0 <= Elems(s)
    modifies Elems(s)`next, Elems(s)`prev
    ensures var qs, qe := base + psize0, Min(base + psize0 + insize, |s|);
      && qe <= |s| && q == At(s, qe)
      && o == o0 + Rest(LeOf(cmp), s, base, qs, qs, qe)
      && Written(o, w, list, tail) && Untouched(s, qe, |s|, w) && w <= Elems(s)
  {
    hide Merge, Rest, Distinct, Written, Untouched, LeOf;
    assert forall a, b :: LeOf(cmp)(a, b) <==> cmp(a, b) <= 0 by { LeIs(cmp); }
    var p: Handle?, psize, qsize := p0, psize0, insize;
    q, list, tail, o, w := q0, list0, tail0, o0, w0;
    ghost var qs := base + psize0;
    ghost var qe := Min(qs + insize, |s|);
    ghost var pi, qi := base, qs;
    ghost var le := LeOf(cmp);
    SplitUntouched(s, base, qs, w);
    ghost var target := o0 + Rest(le, s, base, qs, qs, qe);
    while psize > 0 || (qsize > 0 && q != null)
      invariant base <= pi <= qs <= qi <= qe
      invariant psize == qs - pi && qsize == insize - (qi - qs)
      invariant pi < qs ==> p == s[pi]
      invariant q == At(s, qi)
      invariant Written(o, w, list, tail) && w <= Elems(s)
      invariant Untouched(s, pi, qs, w) && Untouched(s, qi, |s|, w)
      invariant o + Rest(le, s, pi, qs, qi, qe) == target
      decreases psize + (qe - qi)
    {
      var e: Handle;
      ghost var x: nat;
      ghost var fromP, fromQ := pi, qi;
      if pi < qs {
        NextOf(s, pi, qs, w);
      }
      if qi < qe {
        NextOf(s, qi, |s|, w);
      }
      if psize == 0 {
        TakeQ(le, s, pi, qs, qi, qe, o);
        x := qi;
        e := q;
        q := q.next;
        qsize := qsize - 1;
        qi := qi + 1;
      } else if qsize == 0 || q == null {
        TakeP(le, s, pi, qs, qi, qe, o);
        x := pi;
        e := p;
        p := p.next;
        psize := psize - 1;
        pi := pi + 1;
      } else if cmp(p, q) <= 0 {
        TakeP(le, s, pi, qs, qi, qe, o);
        x := pi;
        e := p;
        p := p.next;
        psize := psize - 1;
        pi := pi + 1;
      } else {
        TakeQ(le, s, pi, qs, qi, qe, o);
        x := qi;
        e := q;
        q := q.next;
        qsize := qsize - 1;
        qi := qi + 1;
      }
      StillUntouched(s, x, fromP, pi, qs, fromQ, qi, w);
      list := Emit(list, tail, e, o, w, s, pi, qs, qi);
      tail := e;
      o := o + [e];
      w := w + {e};
    }
    NothingLeft(le, s, qs, qe, o);
  }

  /** Step from p over at most insize handles: the start of the next run and the length of this one. */
  method NextRun(p: Handle, insize: nat, ghost s: seq<Handle>, ghost base: nat, ghost w: set<Handle>)
    returns (q: Handle?, psize: nat)
    requires insize >= 1 && base < |s| && p == s[base] && Untouched(s, base, |s|, w)
    ensures psize == Min(insize, |s| - base) && q == At(s, base + psize)
  {
    q, psize := p, 0;
    for i := 0 to insize
      invariant psize == i && base + i < |s| && q == s[base + i]
    {
      psize := psize + 1;
      q := q.next;
      if q == null {
        break;
      }
    }
  }

  lemma Slices(s: seq<Handle>, base: nat, pe: nat, te: nat)
    requires pe <= te && base + te <= |s|
    ensures s[base..][..pe] == s[base..base + pe] && s[base..][pe..te] == s[base + pe..base + te]
    ensures s[base..][te..] == s[base + te..]
  {
  }

  lemma PassStep(le: (Handle, Handle) -> bool, s: seq<Handle>, base: nat, insize: nat, o: seq<Handle>)
    requires insize >= 1 && base < |s|
    ensures var qs := base + Min(insize, |s| - base);
      var qe := Min(qs + insize, |s|);
      o + MergePass(le, s[base..], insize) == (o + Rest(le, s, base, qs, qs, qe)) + MergePass(le, s[qe..], insize)
  {
    var t := s[base..];
    var pe, te := Min(insize, |t|), Min(2 * insize, |t|);
    Slices(s, base, pe, te);
    var m, n := Merge(le, t[..pe], t[pe..te]), MergePass(le, t[te..], insize);
    assert MergePass(le, t, insize) == m + n;
    Assoc(o, m, n);
  }

  lemma Start(s: seq<Handle>)
    requires AppLinks(s)
    ensures Untouched(s, 0, |s|, {}) && Written([], {}, null, null)
  {
  }

  /** Where the pair of runs that starts at `base` ends. */
  function PairEnd(base: nat, insize: nat, n: nat): nat
    requires base < n
  {
    Min(base + Min(insize, n - base) + insize, n)
  }

  /** How many merges take a pass over n handles to `base`. */
  predicate Counted(nmerges: nat, base: nat, insize: nat, n: nat) {
    && (nmerges == 0 <==> base == 0)
    && (nmerges == 1 ==> base == Min(2 * insize, n))
    && (nmerges > 1 ==> n > 2 * insize)
  }

  lemma CountNone(insize: nat, n: nat)
    ensures Counted(0, 0, insize, n)
  {
  }

  lemma CountOne(nmerges: nat, base: nat, insize: nat, n: nat)
    requires Counted(nmerges, base, insize, n) && base < n && insize >= 1
    ensures Counted(nmerges + 1, PairEnd(base, insize, n), insize, n) && base < PairEnd(base, insize, n) <= n
  {
  }

  lemma CountAll(nmerges: nat, insize: nat, n: nat)
    requires Counted(nmerges, n, insize, n) && n > 0
    ensures nmerges <= 1 <==> n <= 2 * insize
  {
  }

  /** Merge the run at p with the one behind it, and step behind both. */
  method MergePair(cmp: (Handle, Handle) -> int, p: Handle, insize: nat, list0: Handle?, tail0: Handle?,
                   ghost s: seq<Handle>, ghost base: nat, ghost o0: seq<Handle>, ghost w0: set<Handle>)
    returns (next: Handle?, list: Handle?, tail: Handle?, ghost end: nat, ghost o: seq<Handle>, ghost w: set<Handle>)
    requires Distinct(s) && insize >= 1 && base < |s| && p == s[base]
    requires Written(o0, w0, list0, tail0) && Untouched(s, base, |s|, w0) && w0 <= Elems(s)
    modifies Elems(s)`next, Elems(s)`prev
    ensures end == PairEnd(base, insize, |s|) && end <= |s| && next == At(s, end)
    ensures o + MergePass(LeOf(cmp), s[end..], insize) == o0 + MergePass(LeOf(cmp), s[base..], insize)
    ensures Written(o, w, list, tail) && Untouched(s, end, |s|, w) && w <= Elems(s)
  {
    hide MergePass, Rest, Untouched, Written, Distinct, Elems;
    var q, psize := NextRun(p, insize, s, base, w0);
    PassStep(LeOf(cmp), s, base, insize, o0);
    next, list, tail, o, w := MergeRuns(cmp, p, psize, q, insize, list0, tail0, s, base, o0, w0);
    end := Min(base + psize + insize, |s|);
  }

  lemma AllWritten(le: (Handle, Handle) -> bool, s: seq<Handle>, insize: nat, o: seq<Handle>)
    requires insize >= 1 && o + MergePass(le, s[|s|..], insize) == MergePass(le, s, insize)
    ensures o == MergePass(le, s, insize) && |o| == |s|
  {
    assert s[|s|..] == [];
  }

  method Terminate(tail: Handle?, ghost o: seq<Handle>, ghost w: set<Handle>, ghost list: Handle?)
    requires Written(o, w, list, tail)
    modifies w`next
    ensures AppLinks(o) && Distinct(o) && list == At(o, 0) && tail == At(o, |o| - 1)
  {
    if tail != null {
      assert tail == o[|o| - 1];
      tail.next := null;
    }
  }

  /** One pass over the list: merge each pair of neighbouring runs. */
  method Pass(cmp: (Handle, Handle) -> int, first: Handle, insize: nat, ghost s: seq<Handle>)
    returns (list: Handle?, tail: Handle?, nmerges: nat, ghost o: seq<Handle>)
    requires AppLinks(s) && Distinct(s) && s != [] && first == s[0] && insize >= 1
    modifies Elems(s)`next, Elems(s)`prev
    ensures o == MergePass(LeOf(cmp), s, insize)
    ensures AppLinks(o) && Distinct(o) && list == o[0] && tail == o[|o| - 1]
    ensures nmerges <= 1 <==> |s| <= 2 * insize
  {
    hide MergePass, Rest, Untouched, Written, AppLinks, Distinct, Elems, Counted, LeOf, PairEnd;
    Start(s);
    CountNone(insize, |s|);
    ghost var le := LeOf(cmp);
    var p: Handle? := first;
    list, tail, nmerges, o := null, null, 0, [];
    ghost var base, w := 0, {};
    assert s[0..] == s;
    while p != null
      invariant base <= |s| && p == At(s, base)
      invariant o + MergePass(le, s[base..], insize) == MergePass(le, s, insize)
      invariant Written(o, w, list, tail) && Untouched(s, base, |s|, w) && w <= Elems(s)
      invariant Counted(nmerges, base, insize, |s|)
      decreases |s| - base
    {
      assert base < |s|;
      CountOne(nmerges, base, insize, |s|);
      nmerges := nmerges + 1;
      p, list, tail, base, o, w := MergePair(cmp, p, insize, list, tail, s, base, o, w);
    }
    AllWritten(le, s, insize, o);
    CountAll(nmerges, insize, |s|);
    Terminate(tail, o, w, list);
  }

  lemma ElemsEqual(s: seq<Handle>, r: seq<Handle>)
    requires forall x :: x in s <==> x in r
    ensures Elems(r) == Elems(s)
  {
    assert forall x :: x in Elems(r) ==> x in r && x in s;
    assert forall x :: x in Elems(s) ==> x in s && x in r;
  }

  lemma PassKeepsElements(le: (Handle, Handle) -> bool, s: seq<Handle>, k: nat)
    requires k >= 1
    ensures Elems(MergePass(le, s, k)) == Elems(s)
  {
    var r := MergePass(le, s, k);
    MergePassPerm(le, s, k);
    SameElements(s, r);
    ElemsEqual(s, r);
  }

  /** HASH_SRT: passes with doubling run lengths until one pass merges at most one pair of runs. */
  method SortList(cmp: (Handle, Handle) -> int, first: Handle, ghost s: seq<Handle>)
    returns (list: Handle?, tail: Handle?, ghost o: seq<Handle>)
    requires AppLinks(s) && Distinct(s) && s != [] && first == s[0] && |s| < UINT_RANGE
    modifies Elems(s)`next, Elems(s)`prev
    ensures o == Passes(LeOf(cmp), s, 1) && Elems(o) == Elems(s)
    ensures AppLinks(o) && Distinct(o) && list == At(o, 0) && tail == At(o, |o| - 1)
  {
    hide AppLinks, Distinct, MergePass, Elems;
    ghost var le := LeOf(cmp);
    var insize, looping := 1, true;
    list, tail, o := first, null, s;
    while looping
      invariant |o| == |s| && Elems(o) == Elems(s) && AppLinks(o) && Distinct(o) && list == o[0]
      invariant looping ==> 1 <= insize && (insize == 1 || insize < |s|)
      invariant looping ==> Passes(le, o, insize) == Passes(le, s, 1)
      invariant !looping ==> o == Passes(le, s, 1) && tail == o[|o| - 1]
      decreases if looping then 1 else 0, |s| - insize
    {
      PassKeepsElements(le, o, insize);
      var nmerges;
      list, tail, nmerges, o := Pass(cmp, list, insize, o);
      if nmerges <= 1 {
        looping := false;
      }
      insize := insize * 2 % UINT_RANGE;
    }
  }
}

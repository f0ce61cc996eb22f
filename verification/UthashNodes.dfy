/**
 The heap objects of the hash table: handles threaded through two doubly linked lists,
 and the bucket array. What it means for the links to spell out given sequences, and the
 two pointer operations on a bucket chain.
 */
module UthashNodes {
  import opened Bits

  type Key = seq<bv8>

  /** An element with its hash handle; `val` stands for the application's own fields. */
  class Handle {
    const val: int
    var prev: Handle?    // previous element in app order
    var next: Handle?    // next element in app order
    var hhPrev: Handle?  // previous element in the bucket chain
    var hhNext: Handle?  // next element in the bucket chain
    var key: Key
    var hashv: nat

    constructor (val: int)
      ensures this.val == val
    {
      this.val := val;
      prev, next, hhPrev, hhNext, key, hashv := null, null, null, null, [], 0;
    }
  }

  datatype Bucket = Bucket(hhHead: Handle?, count: nat, expandMult: nat)

  ghost function At(s: seq<Handle>, i: int): Handle? {
    if 0 <= i < |s| then s[i] else null
  }

  ghost function Elems(s: seq<Handle>): set<Handle> {
    set e | e in s
  }

  ghost predicate Distinct(s: seq<Handle>) {
    forall i, j :: 0 <= i < j < |s| ==> s[i] != s[j]
  }

  lemma ElemsTake(s: seq<Handle>, j: nat)
    requires j <= |s|
    ensures j < |s| ==> Elems(s[..j + 1]) == Elems(s[..j]) + {s[j]}
    ensures j == |s| ==> s[..j] == s
    ensures forall i :: j <= i < |s| && Distinct(s) ==> s[i] !in Elems(s[..j])
  {
    if j < |s| {
      assert s[..j + 1] == s[..j] + [s[j]];
    }
  }

  ghost predicate DistinctKeys(s: seq<Handle>)
    reads s`key
  {
    forall i, j :: 0 <= i < j < |s| ==> s[i].key != s[j].key
  }

  /** The app-order links of the handles in s spell out s. */
  ghost predicate AppLinks(s: seq<Handle>)
    reads s`next, s`prev
  {
    && (forall i {:trigger s[i].next} :: 0 <= i < |s| ==> s[i].next == At(s, i + 1))
    && (forall i {:trigger s[i].prev} :: 0 <= i < |s| ==> s[i].prev == At(s, i - 1))
  }

  /** The bucket-chain links of the handles in c spell out c, and no handle occurs twice. */
  ghost predicate HhLinks(c: seq<Handle>)
    reads c`hhNext, c`hhPrev
  {
    && Distinct(c)
    && (forall j {:trigger c[j].hhNext} :: 0 <= j < |c| ==> c[j].hhNext == At(c, j + 1))
    && (forall j {:trigger c[j].hhPrev} :: 0 <= j < |c| ==> c[j].hhPrev == At(c, j - 1))
  }

  /** Bucket b starts chain cs[b] and counts its handles. */
  ghost predicate Heads(bks: array<Bucket>, cs: seq<seq<Handle>>)
    reads bks
  {
    |cs| == bks.Length &&
    forall b {:trigger bks[b]} {:trigger cs[b]} :: 0 <= b < |cs| ==>
      bks[b].hhHead == At(cs[b], 0) && bks[b].count == |cs[b]|
  }

  /** Every handle sits in the chain its hash value selects, among the given nodes. */
  ghost predicate Slotted(nodes: set<Handle>, cs: seq<seq<Handle>>)
    reads nodes`hashv
  {
    |cs| > 0 &&
    forall b, e {:trigger e in cs[b]} :: 0 <= b < |cs| && e in cs[b] ==> e in nodes && And(e.hashv, |cs| - 1) == b
  }

  /** Every given handle is in the chain its hash value selects. */
  ghost predicate InSlots(nodes: set<Handle>, cs: seq<seq<Handle>>)
    reads nodes`hashv
  {
    |cs| > 0 &&
    forall e {:trigger And(e.hashv, |cs| - 1)} :: e in nodes ==>
      And(e.hashv, |cs| - 1) < |cs| && e in cs[And(e.hashv, |cs| - 1)]
  }

  ghost predicate Chained(nodes: set<Handle>, bks: array<Bucket>, cs: seq<seq<Handle>>)
    reads bks, nodes`hhNext, nodes`hhPrev, nodes`hashv
  {
    && Heads(bks, cs)
    && Slotted(nodes, cs)
    && forall b {:trigger cs[b]} :: 0 <= b < |cs| ==> (forall e :: e in cs[b] ==> e in nodes) && HhLinks(cs[b])
  }

  ghost predicate Apart(c: seq<Handle>, s: set<Handle>) {
    forall j :: 0 <= j < |c| ==> c[j] !in s
  }

  lemma ChainsApart(nodes: set<Handle>, cs: seq<seq<Handle>>, b: nat)
    requires Slotted(nodes, cs) && b < |cs|
    ensures forall i :: 0 <= i < |cs| && i != b ==> Apart(cs[i], Elems(cs[b]))
  {
    hide And;
    forall i, j | 0 <= i < |cs| && i != b && 0 <= j < |cs[i]|
      ensures cs[i][j] !in Elems(cs[b])
    {
      assert cs[i][j] in cs[i];
    }
  }

  ghost predicate NoneIn(e: Handle, cs: seq<seq<Handle>>) {
    forall b :: 0 <= b < |cs| ==> e !in cs[b]
  }

  /** Link e in front of a chain. */
  method LinkFront(first: Handle?, e: Handle, ghost c: seq<Handle>)
    requires HhLinks(c) && first == At(c, 0) && e !in c
    modifies e`hhNext, e`hhPrev, c`hhPrev
    ensures HhLinks([e] + c)
  {
    e.hhNext := first;
    e.hhPrev := null;
    if first != null {
      assert first in c;
      first.hhPrev := e;
    }
    ghost var d := [e] + c;
    assert forall j :: 0 < j < |d| ==> d[j] == c[j - 1];
  }

  /** The chains as they were, but for one that got e in front. */
  lemma PushSlotted(nodes: set<Handle>, cs: seq<seq<Handle>>, b: nat, e: Handle)
    requires Slotted(nodes, cs) && b < |cs| && And(e.hashv, |cs| - 1) == b
    ensures Slotted(nodes + {e}, cs[b := [e] + cs[b]])
  {
    hide And;
  }

  /** Link e in front of the chain of bucket b and store the bucket's new multiplier. */
  method PushFront(bks: array<Bucket>, b: nat, e: Handle, mult: nat, ghost nodes: set<Handle>,
                   ghost cs: seq<seq<Handle>>)
    requires Chained(nodes, bks, cs) && b < bks.Length
    requires NoneIn(e, cs) && And(e.hashv, bks.Length - 1) == b
    modifies bks, e`hhNext, e`hhPrev, cs[b]`hhPrev
    ensures Chained(nodes + {e}, bks, cs[b := [e] + cs[b]])
    ensures bks[b] == Bucket(e, old(bks[b].count) + 1, mult)
    ensures forall i :: 0 <= i < bks.Length && i != b ==> bks[i] == old(bks[i])
  {
    hide And;
    ChainsApart(nodes, cs, b);
    PushSlotted(nodes, cs, b, e);
    LinkFront(bks[b].hhHead, e, cs[b]);
    bks[b] := Bucket(e, bks[b].count + 1, mult);
    forall i | 0 <= i < |cs| && i != b
      ensures HhLinks(cs[i])
    {
      assert old(HhLinks(cs[i]));
      assert Apart(cs[i], Elems(cs[b]) + {e});
    }
  }

  ghost function RemoveAt(s: seq<Handle>, k: nat): seq<Handle>
    requires k < |s|
  {
    s[..k] + s[k + 1..]
  }

  lemma RemoveAtIndex(s: seq<Handle>, k: nat)
    requires k < |s|
    ensures |RemoveAt(s, k)| == |s| - 1
    ensures forall i :: 0 <= i < |s| - 1 ==> RemoveAt(s, k)[i] == s[if i < k then i else i + 1]
  {
  }

  lemma RemoveAtElements(s: seq<Handle>, k: nat)
    requires k < |s| && Distinct(s)
    ensures Distinct(RemoveAt(s, k))
    ensures forall e :: e in RemoveAt(s, k) <==> e in s && e != s[k]
  {
    var r := RemoveAt(s, k);
    RemoveAtIndex(s, k);
    forall e | e in s && e != s[k]
      ensures e in r
    {
      var i :| 0 <= i < |s| && s[i] == e;
      assert r[if i < k then i else i - 1] == e;
    }
  }

  /** The sequence without the first occurrence of d. */
  ghost function Without(s: seq<Handle>, d: Handle): seq<Handle> {
    if s == [] then [] else if s[0] == d then s[1..] else [s[0]] + Without(s[1..], d)
  }

  lemma DistinctTail(s: seq<Handle>)
    requires Distinct(s) && s != []
    ensures Distinct(s[1..])
  {
  }

  lemma {:induction false} WithoutIsRemoveAt(s: seq<Handle>, k: nat)
    requires k < |s| && Distinct(s)
    ensures Without(s, s[k]) == RemoveAt(s, k)
  {
    if k == 0 {
      assert s[..0] + s[1..] == s[1..];
    } else {
      DistinctTail(s);
      assert s[0] != s[k];
      WithoutIsRemoveAt(s[1..], k - 1);
      hide Without, Distinct;
      assert s[1..][k - 1] == s[k];
      assert s[..k] == [s[0]] + s[1..][..k - 1];
      assert s[1..][k..] == s[k + 1..];
    }
  }

  /** The head of a chain moves only if it is the one taken out. */
  lemma HeadAfter(c: seq<Handle>, k: nat)
    requires HhLinks(c) && k < |c|
    ensures At(RemoveAt(c, k), 0) == if At(c, 0) == c[k] then c[k].hhNext else At(c, 0)
    ensures |RemoveAt(c, k)| == |c| - 1
  {
    assert k > 0 ==> c[0] != c[k];
  }

  /** Make the neighbours of the k-th handle of a chain skip it. */
  method SkipInChain(ghost c: seq<Handle>, ghost k: nat, del: Handle)
    requires HhLinks(c) && k < |c| && c[k] == del
    modifies c`hhPrev, c`hhNext
    ensures HhLinks(RemoveAt(c, k))
    ensures del.hhNext == old(del.hhNext)
  {
    hide RemoveAt;
    assert del.hhNext == At(c, k + 1) && del.hhPrev == At(c, k - 1);
    if del.hhPrev != null {
      assert del.hhPrev in c;
      del.hhPrev.hhNext := del.hhNext;
    }
    if del.hhNext != null {
      assert del.hhNext in c;
      del.hhNext.hhPrev := del.hhPrev;
    }
    ghost var r := RemoveAt(c, k);
    RemoveAtElements(c, k);
    RemoveAtIndex(c, k);
    forall j | 0 <= j < |r|
      ensures r[j].hhNext == At(r, j + 1) && r[j].hhPrev == At(r, j - 1)
    {
      var i := if j < k then j else j + 1;
      assert r[j] == c[i];
      assert old(c[i].hhNext) == At(c, i + 1) && old(c[i].hhPrev) == At(c, i - 1);
    }
  }

  /** Make the neighbours of the k-th handle of the app list skip it. */
  method SkipInApp(ghost s: seq<Handle>, ghost k: nat, del: Handle)
    requires AppLinks(s) && Distinct(s) && k < |s| && s[k] == del
    modifies s`next, s`prev
    ensures AppLinks(RemoveAt(s, k))
    ensures del.next == old(del.next) && del.prev == old(del.prev)
  {
    hide RemoveAt;
    assert del.next == At(s, k + 1) && del.prev == At(s, k - 1);
    if del.prev != null {
      assert del.prev in s;
      del.prev.next := del.next;
    }
    if del.next != null {
      assert del.next in s;
      del.next.prev := del.prev;
    }
    ghost var r := RemoveAt(s, k);
    RemoveAtIndex(s, k);
    forall j | 0 <= j < |r|
      ensures r[j].next == At(r, j + 1) && r[j].prev == At(r, j - 1)
    {
      var i := if j < k then j else j + 1;
      assert r[j] == s[i];
      assert old(s[i].next) == At(s, i + 1) && old(s[i].prev) == At(s, i - 1);
    }
  }

  /** The chains as they were, but for one without its k-th handle. */
  lemma UnchainSlotted(nodes: set<Handle>, cs: seq<seq<Handle>>, b: nat, k: nat)
    requires Slotted(nodes, cs) && b < |cs| && k < |cs[b]| && Distinct(cs[b])
    ensures Slotted(nodes - {cs[b][k]}, cs[b := RemoveAt(cs[b], k)])
  {
    hide And, Distinct;
    RemoveAtElements(cs[b], k);
    var del := cs[b][k];
    assert del in cs[b];
    var ds := cs[b := RemoveAt(cs[b], k)];
    forall i, e | 0 <= i < |ds| && e in ds[i]
      ensures e in nodes - {del} && And(e.hashv, |ds| - 1) == i
    {
      if i == b {
        assert e in RemoveAt(cs[b], k);
        assert e in cs[b] && e != del;
      } else {
        assert e in cs[i];
      }
    }
  }

  /** Unlink the k-th handle of the chain of bucket b. */
  method Unchain(bks: array<Bucket>, b: nat, del: Handle, ghost k: nat, ghost nodes: set<Handle>,
                 ghost cs: seq<seq<Handle>>)
    requires Chained(nodes, bks, cs) && b < bks.Length
    requires k < |cs[b]| && cs[b][k] == del
    modifies bks, cs[b]`hhPrev, cs[b]`hhNext
    ensures Chained(nodes - {del}, bks, cs[b := RemoveAt(cs[b], k)])
    ensures forall i :: 0 <= i < bks.Length && i != b ==> bks[i] == old(bks[i])
    ensures bks[b].expandMult == old(bks[b].expandMult) && bks[b].count == old(bks[b].count) - 1
  {
    hide And;
    ghost var c := cs[b];
    ChainsApart(nodes, cs, b);
    UnchainSlotted(nodes, cs, b, k);
    HeadAfter(c, k);
    bks[b] := bks[b].(count := bks[b].count - 1);
    if bks[b].hhHead == del {
      bks[b] := bks[b].(hhHead := del.hhNext);
    }
    SkipInChain(c, k, del);
    forall i | 0 <= i < |cs| && i != b
      ensures HhLinks(cs[i])
    {
      assert old(HhLinks(cs[i]));
      assert Apart(cs[i], Elems(c));
    }
  }
}

/**
 The hash table: an application-order list and a power-of-two array of bucket chains over
 the same handles, with incremental doubling and an optional bloom filter.
 */
module Uthash {
  import opened Basics
  import opened Bits
  import opened UthashNodes
  import Bloom
  import UthashSort
  import StableSort

  const HASH_INITIAL_NUM_BUCKETS: nat := 32
  const HASH_INITIAL_NUM_BUCKETS_LOG2: nat := 5
  const HASH_BKT_CAPACITY_THRESH: nat := 10

  /** Handles beyond the ideal chain length, over all chains. */
  ghost function NonIdeal(cs: seq<seq<Handle>>, ideal: nat): nat {
    if cs == [] then 0
    else (if |cs[0]| > ideal then |cs[0]| - ideal else 0) + NonIdeal(cs[1..], ideal)
  }

  lemma {:induction false} NonIdealEmpty(cs: seq<seq<Handle>>, ideal: nat)
    requires forall b :: 0 <= b < |cs| ==> cs[b] == []
    ensures NonIdeal(cs, ideal) == 0
  {
    if cs != [] {
      NonIdealEmpty(cs[1..], ideal);
    }
  }

  lemma {:induction false} NonIdealPush(cs: seq<seq<Handle>>, b: nat, e: Handle, ideal: nat)
    requires b < |cs|
    ensures NonIdeal(cs[b := [e] + cs[b]], ideal) == NonIdeal(cs, ideal) + if |cs[b]| + 1 > ideal then 1 else 0
  {
    var ds := cs[b := [e] + cs[b]];
    if b == 0 {
      assert ds[1..] == cs[1..];
    } else {
      assert ds[1..] == cs[1..][b - 1 := [e] + cs[1..][b - 1]];
      NonIdealPush(cs[1..], b - 1, e, ideal);
    }
  }

  /**
   The threshold multiplier of a bucket with `count` handles after an expansion: how many whole ideal chains an
   overfull one holds, and zero for any other.
   */
  ghost predicate MultFits(mult: nat, count: nat, ideal: nat) {
    if count > ideal then mult * ideal <= count < (mult + 1) * ideal else mult == 0
  }

  lemma QuotientFits(count: nat, ideal: nat)
    requires count > ideal > 0
    ensures MultFits(count / ideal, count, ideal)
  {
    var q, r := count / ideal, count % ideal;
    assert count == ideal * q + r && r < ideal;
    assert (q + 1) * ideal == q * ideal + ideal;
  }

  lemma NextMult(mult: nat, count: nat, ideal: nat)
    requires MultFits(mult, count, ideal) && ideal > 0
    ensures MultFits(if count + 1 > ideal then (count + 1) / ideal else mult, count + 1, ideal)
  {
    if count + 1 > ideal {
      QuotientFits(count + 1, ideal);
    }
  }

  lemma {:induction false} CountDistinct(s: seq<Handle>)
    requires Distinct(s)
    ensures |Elems(s)| == |s|
  {
    if s != [] {
      CountDistinct(s[1..]);
      assert Elems(s) == Elems(s[1..]) + {s[0]};
    }
  }

  /** The handles that have at least `ideal` others in front of them in their chain. */
  ghost function Deep(cs: seq<seq<Handle>>, ideal: nat): set<Handle> {
    set b, j | 0 <= b < |cs| && ideal <= j < |cs[b]| :: cs[b][j]
  }

  ghost predicate AllApart(cs: seq<seq<Handle>>) {
    && (forall b :: 0 <= b < |cs| ==> Distinct(cs[b]))
    && forall a, b :: 0 <= a < b < |cs| ==> Apart(cs[a], Elems(cs[b]))
  }

  lemma DeepFirst(cs: seq<seq<Handle>>, ideal: nat)
    requires cs != [] && AllApart(cs)
    ensures var first := if |cs[0]| > ideal then cs[0][ideal..] else [];
      && Distinct(first) && AllApart(cs[1..])
      && Deep(cs, ideal) == Elems(first) + Deep(cs[1..], ideal) && Elems(first) !! Deep(cs[1..], ideal)
  {
    var first := if |cs[0]| > ideal then cs[0][ideal..] else [];
    var rest := Deep(cs[1..], ideal);
    assert forall b :: 0 <= b < |cs| - 1 ==> cs[1..][b] == cs[b + 1];
    forall e | e in Deep(cs, ideal)
      ensures e in Elems(first) + rest
    {
      var b, j :| 0 <= b < |cs| && ideal <= j < |cs[b]| && e == cs[b][j];
      if b == 0 {
        assert first[j - ideal] == e;
      } else {
        assert e == cs[1..][b - 1][j];
      }
    }
    forall e | e in Elems(first)
      ensures e in Deep(cs, ideal) && e !in rest
    {
      var j :| 0 <= j < |first| && first[j] == e;
      assert e == cs[0][j + ideal];
      forall b | 0 < b < |cs|
        ensures e !in cs[b]
      {
        assert Apart(cs[0], Elems(cs[b]));
      }
    }
  }

  /** The excess over the ideal length counts the handles that stand too deep. */
  lemma {:induction false} NonIdealCounts(cs: seq<seq<Handle>>, ideal: nat)
    requires AllApart(cs)
    ensures NonIdeal(cs, ideal) == |Deep(cs, ideal)|
  {
    if cs != [] {
      hide Distinct, AllApart, Deep;
      DeepFirst(cs, ideal);
      CountDistinct(if |cs[0]| > ideal then cs[0][ideal..] else []);
      NonIdealCounts(cs[1..], ideal);
    } else {
      assert Deep(cs, ideal) == {};
    }
  }

  /** Length of the run of `true` at the end of h. */
  ghost function Trailing(h: seq<bool>): nat {
    if h == [] || !h[|h| - 1] then 0 else 1 + Trailing(h[..|h| - 1])
  }

  lemma TrailingTwo(h: seq<bool>)
    ensures Trailing(h) >= 2 <==> |h| >= 2 && h[|h| - 2] && h[|h| - 1]
  {
    if |h| >= 1 {
      var g := h[..|h| - 1];
      assert Trailing(h) == if h[|h| - 1] then 1 + Trailing(g) else 0;
      assert Trailing(g) > 0 <==> |g| > 0 && g[|g| - 1];
    }
  }

  /** No two consecutive expansions were ineffective, except possibly the last two. */
  ghost predicate OnlyLastTwo(h: seq<bool>) {
    forall i :: 0 <= i < |h| - 2 ==> !(h[i] && h[i + 1])
  }

  ghost predicate MultsOk(bks: array<Bucket>, cs: seq<seq<Handle>>, ideal: nat)
    reads bks
  {
    && |cs| == bks.Length
    && ideal > 0
    && forall b :: 0 <= b < bks.Length ==> MultFits(bks[b].expandMult, |cs[b]|, ideal)
  }

  /** The new buckets hold exactly the handles in `done`, and the overload figures count them. */
  ghost predicate Rehashed(done: set<Handle>, nb: array<Bucket>, nc: seq<seq<Handle>>, ideal: nat, nonideal: nat)
    reads nb, done
  {
    && Chained(done, nb, nc)
    && InSlots(done, nc)
    && MultsOk(nb, nc, ideal)
    && nonideal == NonIdeal(nc, ideal)
  }

  lemma InSlotsSome(nodes: set<Handle>, cs: seq<seq<Handle>>)
    requires InSlots(nodes, cs)
    ensures |cs| > 0
  {
  }

  /** A handle outside the linked ones is in no chain, and there are as many chains as buckets. */
  lemma NotChained(nodes: set<Handle>, bks: array<Bucket>, cs: seq<seq<Handle>>, e: Handle, b: nat)
    requires Chained(nodes, bks, cs) && e !in nodes && b < bks.Length
    ensures NoneIn(e, cs) && |cs| == bks.Length && forall x :: x in cs[b] ==> x in nodes
  {
  }

  lemma PushInSlots(nodes: set<Handle>, cs: seq<seq<Handle>>, e: Handle, b: nat)
    requires InSlots(nodes, cs) && b == And(e.hashv, |cs| - 1)
    ensures InSlots(nodes + {e}, cs[b := [e] + cs[b]])
  {
    hide And;
  }

  /** Move one handle to its bucket in the new array. */
  method Rehash(nb: array<Bucket>, ideal: nat, nonideal: nat, e: Handle, ghost done: set<Handle>,
                ghost nc: seq<seq<Handle>>)
    returns (nonideal': nat, ghost nc': seq<seq<Handle>>)
    requires Rehashed(done, nb, nc, ideal, nonideal) && e !in done
    modifies nb, e`hhNext, e`hhPrev, done`hhPrev
    ensures |nc'| == |nc| && Rehashed(done + {e}, nb, nc', ideal, nonideal')
  {
    hide MultFits, NonIdeal, And;
    var bkt := And(e.hashv, nb.Length - 1);
    NextMult(nb[bkt].expandMult, nb[bkt].count, ideal);
    var mult := nb[bkt].expandMult;
    var count := nb[bkt].count + 1;
    nonideal' := nonideal;
    if count > ideal {
      nonideal' := nonideal + 1;
      mult := count / ideal;
    }
    nc' := nc[bkt := [e] + nc[bkt]];
    NonIdealPush(nc, bkt, e, ideal);
    PushInSlots(done, nc, e, bkt);
    assert NoneIn(e, nc);
    PushFront(nb, bkt, e, mult, done, nc);
  }

  /** Walk an old chain and move its handles to the new array. */
  method RehashChain(nb: array<Bucket>, ideal: nat, nonideal: nat, first: Handle?,
                     ghost c: seq<Handle>, ghost done: set<Handle>, ghost nc: seq<seq<Handle>>)
    returns (nonideal': nat, ghost nc': seq<seq<Handle>>)
    requires HhLinks(c) && first == At(c, 0)
    requires Rehashed(done, nb, nc, ideal, nonideal)
    requires forall e :: e in c ==> e !in done
    modifies nb, c`hhNext, c`hhPrev, done`hhPrev
    ensures |nc'| == |nc| && Rehashed(done + Elems(c), nb, nc', ideal, nonideal')
  {
    var thh := first;
    ghost var j := 0;
    nonideal', nc' := nonideal, nc;
    assert done + Elems(c[..0]) == done;
    while thh != null
      invariant 0 <= j <= |c| && thh == At(c, j)
      invariant forall k :: j <= k < |c| ==> c[k].hhNext == At(c, k + 1)
      invariant |nc'| == |nc| && Rehashed(done + Elems(c[..j]), nb, nc', ideal, nonideal')
      decreases |c| - j
    {
      var hhNxt := thh.hhNext;
      ElemsTake(c, j);
      nonideal', nc' := Rehash(nb, ideal, nonideal', thh, done + Elems(c[..j]), nc');
      assert done + Elems(c[..j]) + {c[j]} == done + Elems(c[..j + 1]);
      thh := hhNxt;
      j := j + 1;
    }
    ElemsTake(c, j);
  }

  /** The handles whose old slot is below i. */
  ghost function Below(nodes: set<Handle>, n: nat, i: nat): set<Handle>
    requires n > 0
    reads nodes`hashv
  {
    set e | e in nodes && And(e.hashv, n - 1) < i
  }

  lemma BelowEnds(nodes: set<Handle>, cs: seq<seq<Handle>>)
    requires InSlots(nodes, cs)
    ensures |cs| > 0 && Below(nodes, |cs|, 0) == {} && Below(nodes, |cs|, |cs|) == nodes
  {
  }

  lemma BelowStep(nodes: set<Handle>, cs: seq<seq<Handle>>, i: nat)
    requires Slotted(nodes, cs) && InSlots(nodes, cs) && i < |cs|
    ensures Below(nodes, |cs|, i + 1) == Below(nodes, |cs|, i) + Elems(cs[i])
    ensures forall e :: e in cs[i] ==> e !in Below(nodes, |cs|, i)
  {
  }

  lemma LaterApart(nodes: set<Handle>, cs: seq<seq<Handle>>, i: nat)
    requires Slotted(nodes, cs) && i < |cs|
    ensures forall b :: i < b < |cs| ==> Apart(cs[b], Below(nodes, |cs|, i) + Elems(cs[i]))
  {
    forall b, j | i < b < |cs| && 0 <= j < |cs[b]|
      ensures cs[b][j] !in Below(nodes, |cs|, i) + Elems(cs[i])
    {
      assert cs[b][j] in cs[b];
    }
  }

  /** Move the handles of old chain i; the chains after it keep their links. */
  method RedistributeOne(nb: array<Bucket>, ideal: nat, nonideal: nat, first: Handle?, ghost i: nat,
                         ghost nodes: set<Handle>, ghost cs: seq<seq<Handle>>, ghost nc: seq<seq<Handle>>)
    returns (nonideal': nat, ghost nc': seq<seq<Handle>>)
    requires Slotted(nodes, cs) && InSlots(nodes, cs) && i < |cs| && first == At(cs[i], 0)
    requires forall b :: i <= b < |cs| ==> HhLinks(cs[b])
    requires Rehashed(Below(nodes, |cs|, i), nb, nc, ideal, nonideal)
    modifies nb, nodes`hhNext, nodes`hhPrev
    ensures forall b :: i < b < |cs| ==> HhLinks(cs[b])
    ensures |nc'| == |nc| && Rehashed(Below(nodes, |cs|, i + 1), nb, nc', ideal, nonideal')
  {
    ghost var done := Below(nodes, |cs|, i);
    BelowStep(nodes, cs, i);
    assert forall e :: e in cs[i] ==> e in nodes;
    LaterApart(nodes, cs, i);
    nonideal', nc' := RehashChain(nb, ideal, nonideal, first, cs[i], done, nc);
    forall b | i < b < |cs|
      ensures HhLinks(cs[b])
    {
      assert old(HhLinks(cs[b]));
      assert Apart(cs[b], done + Elems(cs[i]));
    }
  }

  ghost function Empties(n: nat): seq<seq<Handle>> {
    seq(n, _ => [])
  }

  lemma EmptyRehashed(nb: array<Bucket>, ideal: nat)
    requires nb.Length > 0 && ideal > 0
    requires forall b :: 0 <= b < nb.Length ==> nb[b] == Bucket(null, 0, 0)
    ensures Rehashed({}, nb, Empties(nb.Length), ideal, 0) && |Empties(nb.Length)| == nb.Length
  {
    NonIdealEmpty(Empties(nb.Length), ideal);
  }

  /** Walk all old chains. */
  method Redistribute(bks: array<Bucket>, nb: array<Bucket>, ideal: nat, ghost nodes: set<Handle>,
                      ghost cs: seq<seq<Handle>>)
    returns (nonideal: nat, ghost nc: seq<seq<Handle>>)
    requires bks != nb && nb.Length > 0 && ideal > 0
    requires Chained(nodes, bks, cs) && InSlots(nodes, cs)
    requires forall b :: 0 <= b < nb.Length ==> nb[b] == Bucket(null, 0, 0)
    modifies nb, nodes`hhNext, nodes`hhPrev
    ensures |nc| == nb.Length && Rehashed(nodes, nb, nc, ideal, nonideal)
  {
    hide Rehashed, InSlots, Slotted, HhLinks, Below, And, Empties;
    nonideal, nc := 0, Empties(nb.Length);
    EmptyRehashed(nb, ideal);
    BelowEnds(nodes, cs);
    var i := 0;
    while i < bks.Length
      invariant 0 <= i <= bks.Length && Heads(bks, cs)
      invariant forall b :: i <= b < |cs| ==> HhLinks(cs[b])
      invariant Slotted(nodes, cs) && InSlots(nodes, cs)
      invariant |nc| == nb.Length && Rehashed(Below(nodes, |cs|, i), nb, nc, ideal, nonideal)
    {
      nonideal, nc := RedistributeOne(nb, ideal, nonideal, bks[i].hhHead, i, nodes, cs, nc);
      i := i + 1;
    }
  }

  /** The least number of chains' worth: q handles in each of b chains hold n handles, and q - 1 do not. */
  ghost predicate CeilOf(q: nat, n: nat, b: nat) {
    q > 0 && (q - 1) * b < n <= q * b
  }

  lemma CeilDiv(n: nat, b: nat)
    requires b > 0 && n > 0
    ensures CeilOf(n / b + (if n % b != 0 then 1 else 0), n, b)
  {
    var q, r := n / b, n % b;
    assert n == b * q + r;
    assert (q + 1) * b == q * b + b && (q - 1) * b == q * b - b;
  }

  /** The shift-and-mask expression is the ceiling of n over the doubled bucket count. */
  lemma CeilIdeal(n: nat, log2: nat)
    requires n > 0
    ensures var b := Pow2(log2 + 1);
      CeilOf(Shr(n, log2 + 1) + (if And(n, b - 1) != 0 then 1 else 0), n, b)
  {
    var b := Pow2(log2 + 1);
    ShrIsDiv(n, log2 + 1);
    AndIsMod(n, log2 + 1);
    CeilDiv(n, b);
  }

  method ZeroBuckets(n: nat) returns (nb: array<Bucket>)
    ensures fresh(nb) && nb.Length == n
    ensures forall b :: 0 <= b < n ==> nb[b] == Bucket(null, 0, 0)
    ensures n > 0 ==> Chained({}, nb, Empties(n)) && InSlots({}, Empties(n))
  {
    nb := new Bucket[n](_ => Bucket(null, 0, 0));
  }

  /** The bucket array, its multipliers, and what the expansions so far have left. */
  ghost function Mults(bks: seq<Bucket>): seq<nat> {
    seq(|bks|, i requires 0 <= i < |bks| => bks[i].expandMult)
  }

  datatype FigureSet = FigureSet(buckets: array<Bucket>, numBuckets: nat, mults: seq<nat>, idealChainMaxlen: nat,
    nonidealItems: nat, ineffExpands: nat, noexpand: nat, history: seq<bool>)

  /** A bucket with this count reaches its threshold, and expansion is allowed. */
  ghost predicate Full(f: FigureSet, b: nat, count: nat) {
    b < |f.mults| && f.noexpand != 1 && count >= (f.mults[b] + 1) * HASH_BKT_CAPACITY_THRESH
  }

  lemma SameMults(s: seq<Bucket>, t: seq<Bucket>)
    requires |s| == |t| && forall i :: 0 <= i < |s| ==> s[i].expandMult == t[i].expandMult
    ensures Mults(s) == Mults(t)
  {
  }

  lemma MultAt(s: seq<Bucket>, b: nat)
    requires b < |s|
    ensures |Mults(s)| == |s| && Mults(s)[b] == s[b].expandMult
  {
  }

  lemma BelowCount(nodes: set<Handle>, cs: seq<seq<Handle>>, b: nat)
    requires Slotted(nodes, cs) && InSlots(nodes, cs) && b < |cs| && Distinct(cs[b])
    ensures |Below(nodes, |cs|, b + 1)| == |Below(nodes, |cs|, b)| + |cs[b]|
  {
    hide And, Below;
    BelowStep(nodes, cs, b);
    CountDistinct(cs[b]);
    assert Below(nodes, |cs|, b) !! Elems(cs[b]);
  }

  class HashTable {
    const hashFcn: Key -> nat  // HASH_FCN, any function of the key bytes
    const bloom: bool
    const bloomNbits: nat

    var head: Handle?
    var buckets: array<Bucket>
    var numBuckets: nat
    var log2NumBuckets: nat
    var numItems: nat
    var tail: Handle?
    var idealChainMaxlen: nat
    var nonidealItems: nat
    var ineffExpands: nat
    var noexpand: nat
    var bloomBv: array<bv8>

    ghost var items: seq<Handle>        // app order
    ghost var nodes: set<Handle>        // the same handles, as a set
    ghost var chains: seq<seq<Handle>>  // bucket chains
    ghost var history: seq<bool>        // one entry per expansion of this table: was it ineffective?

    ghost predicate AppOk()
      reads `items, `nodes, `head, `tail, items`next, items`prev
    {
      && nodes == Elems(items)
      && Distinct(items)
      && AppLinks(items)
      && head == At(items, 0)
      && (items != [] ==> tail == items[|items| - 1])
    }

    ghost predicate SizesOk()
      reads `numItems, `items, `numBuckets, `log2NumBuckets, `buckets
    {
      && numItems == |items|
      && numBuckets == buckets.Length == Pow2(log2NumBuckets)
    }

    /** The given handles carry the hash of their key. */
    ghost predicate Hashed(s: set<Handle>)
      reads s`hashv, s`key
    {
      forall e :: e in s ==> e.hashv == hashFcn(e.key)
    }

    lemma HashedSub(s: set<Handle>, t: set<Handle>)
      requires Hashed(s) && t <= s
      ensures Hashed(t)
    {
    }

    lemma HashedAdd(s: set<Handle>, e: Handle)
      requires Hashed(s) && e.hashv == hashFcn(e.key)
      ensures Hashed(s + {e})
    {
    }

    ghost predicate KeysDistinct()
      reads `items, items`key
    {
      DistinctKeys(items)
    }

    ghost predicate PolicyOk()
      reads `history, `log2NumBuckets, `ineffExpands, `noexpand
    {
      && log2NumBuckets == HASH_INITIAL_NUM_BUCKETS_LOG2 + |history|
      && OnlyLastTwo(history)
      && ineffExpands == Trailing(history) <= 2
      && noexpand == (if ineffExpands > 1 then 1 else 0)
    }

    function BloomIdx(hashv: nat): nat {
      And(hashv, Pow2(bloomNbits) - 1)
    }

    ghost predicate BloomSized()
      reads `bloomBv
    {
      bloom ==> bloomBv.Length == Bloom.ByteLen(bloomNbits)
    }

    /** The filter has the bit of every given handle. */
    ghost predicate BloomKnows(known: set<Handle>)
      reads `bloomBv, known`hashv, bloomBv
    {
      && BloomSized()
      && (bloom ==> forall e :: e in known ==>
            BloomIdx(e.hashv) / 8 < bloomBv.Length && Bloom.BitTest(bloomBv, BloomIdx(e.hashv)))
    }

    ghost predicate BloomOk()
      reads `nodes, `bloomBv, nodes`hashv, bloomBv
    {
      BloomKnows(nodes)
    }

    /** The two arrays are different objects. */
    ghost predicate Separate()
      reads `buckets, `bloomBv
    {
      buckets as object != bloomBv as object
    }

    /** The app list threads the items; the bucket chains thread those in `linked`. */
    ghost predicate Threaded(linked: set<Handle>)
      reads `items, `head, `tail, `numItems, `numBuckets, `log2NumBuckets, `buckets, `chains, `nodes,
            items, nodes, linked, buckets
    {
      && AppOk()
      && SizesOk()
      && Hashed(nodes)
      && KeysDistinct()
      && |chains| == numBuckets
      && InSlots(linked, chains)
      && Chained(linked, buckets, chains)
    }

    ghost predicate Structure()
      reads `items, `head, `tail, `numItems, `numBuckets, `log2NumBuckets, `buckets, `chains, `nodes, items, nodes,
            buckets
    {
      Threaded(nodes)
    }

    lemma Assembled(linked: set<Handle>)
      requires AppOk() && SizesOk() && Hashed(nodes) && KeysDistinct()
      requires |chains| == numBuckets && InSlots(linked, chains) && Chained(linked, buckets, chains)
      ensures Threaded(linked)
    {
    }

    lemma Disassembled(linked: set<Handle>)
      requires Threaded(linked)
      ensures AppOk() && SizesOk() && Hashed(nodes) && KeysDistinct()
      ensures |chains| == numBuckets && InSlots(linked, chains) && Chained(linked, buckets, chains)
    {
    }

    /** Everything but the bloom filter, for a table that has items. */
    ghost predicate Core()
      reads this, items, nodes, buckets
    {
      Structure() && PolicyOk()
    }

    ghost predicate Valid()
      reads this, items, nodes, buckets, bloomBv
    {
      && Separate()
      && (head == null <==> items == [])
      && (head == null ==> nodes == {})
      && (head != null ==> Core() && BloomOk())
    }

    /** What the last expansion must leave in the table. */
    ghost predicate ExpansionFigures()
      reads `numBuckets, `idealChainMaxlen, `numItems, `nonidealItems, `buckets, `chains, buckets
    {
      && numBuckets > 0
      && CeilOf(idealChainMaxlen, numItems, numBuckets)
      && nonidealItems == NonIdeal(chains, idealChainMaxlen)
      && MultsOk(buckets, chains, idealChainMaxlen)
    }

    constructor (hashFcn: Key -> nat, bloom: bool, bloomNbits: nat)
      ensures Valid() && items == []
      ensures this.hashFcn == hashFcn && this.bloom == bloom && this.bloomNbits == bloomNbits
      ensures fresh(buckets) && fresh(bloomBv)
    {
      this.hashFcn, this.bloom, this.bloomNbits := hashFcn, bloom, bloomNbits;
      head, tail := null, null;
      buckets := new Bucket[0];
      bloomBv := new bv8[0];
      numBuckets, log2NumBuckets, numItems, idealChainMaxlen, nonidealItems := 0, 0, 0, 0, 0;
      ineffExpands, noexpand := 0, 0;
      items, nodes, chains, history := [], {}, [], [];
    }

    method FindInBkt(b: nat, keyptr: Key) returns (out: Handle?)
      requires Heads(buckets, chains) && b < |chains| && HhLinks(chains[b])
      ensures out != null ==> out in chains[b] && out.key == keyptr
      ensures out == null ==> forall e :: e in chains[b] ==> e.key != keyptr
    {
      ghost var c := chains[b];
      out := buckets[b].hhHead;
      ghost var j := 0;
      while out != null
        invariant 0 <= j <= |c| && out == At(c, j)
        invariant forall i :: 0 <= i < j ==> c[i].key != keyptr
        decreases |c| - j
      {
        if |out.key| == |keyptr| {
          if out.key == keyptr {
            break;
          }
        }
        out := out.hhNext;
        j := j + 1;
      }
    }

    ghost predicate NewKey(k: Key)
      reads `items, items`key
    {
      forall i :: 0 <= i < |items| ==> items[i].key != k
    }

    static lemma PowBytes(n: nat, idx: nat)
      requires idx <= Pow2(n) - 1
      ensures idx / 8 < Bloom.ByteLen(n)
    {
    }

    /** The chain that a key selects is sound, and holds every handle with this key. */
    lemma SlotHolds(k: Key) returns (b: nat)
      requires Structure()
      ensures numBuckets > 0 && b == And(hashFcn(k), numBuckets - 1) < |chains|
      ensures Heads(buckets, chains) && HhLinks(chains[b]) && forall e :: e in chains[b] ==> e in nodes
      ensures (forall e :: e in chains[b] ==> e.key != k) ==> NewKey(k)
    {
      hide HhLinks;
      b := And(hashFcn(k), numBuckets - 1);
      assert forall i :: 0 <= i < |items| ==> items[i] in nodes;
    }

    /** A key whose bit is not in the filter is not in the table. */
    lemma FilterTells(k: Key)
      requires AppOk() && Hashed(nodes) && BloomOk() && bloom
      ensures BloomIdx(hashFcn(k)) / 8 < bloomBv.Length
      ensures !Bloom.BitTest(bloomBv, BloomIdx(hashFcn(k))) ==> NewKey(k)
    {
      PowBytes(bloomNbits, BloomIdx(hashFcn(k)));
      assert forall i :: 0 <= i < |items| ==> items[i] in nodes;
    }

    method Find(keyptr: Key) returns (out: Handle?)
      requires Valid()
      ensures out != null ==> out in nodes && out.key == keyptr
      ensures out == null ==> NewKey(keyptr)
    {
      hide AppOk, Chained, InSlots, BloomOk, Hashed, PolicyOk, DistinctKeys, And, Pow2;
      out := null;
      if head != null {
        var hashv := hashFcn(keyptr);
        var hit := true;
        if bloom {
          FilterTells(keyptr);
          hit := Bloom.BitTest(bloomBv, BloomIdx(hashv));
        }
        ghost var b := SlotHolds(keyptr);
        if hit {
          out := FindInBkt(And(hashv, numBuckets - 1), keyptr);
        }
      }
    }

    lemma Sizes() returns (n: nat, log2: nat)
      requires SizesOk()
      ensures n == numBuckets == buckets.Length == Pow2(log2) > 0 && log2 == log2NumBuckets && numItems == |items|
    {
      n, log2 := numBuckets, log2NumBuckets;
    }

    lemma SizesDoubled(n: nat, log2: nat)
      requires numItems == |items| && n == Pow2(log2)
      requires numBuckets == 2 * n == buckets.Length && log2NumBuckets == log2 + 1
      ensures SizesOk()
    {
    }

    static lemma RehashedParts(done: set<Handle>, nb: array<Bucket>, nc: seq<seq<Handle>>, ideal: nat, nonideal: nat)
      requires Rehashed(done, nb, nc, ideal, nonideal)
      ensures Chained(done, nb, nc) && InSlots(done, nc) && MultsOk(nb, nc, ideal) && nonideal == NonIdeal(nc, ideal)
    {
    }

    /** Make the new array the table's buckets. */
    method Install(nb: array<Bucket>, ideal: nat, nonideal: nat, ghost cs: seq<seq<Handle>>)
      modifies `buckets, `numBuckets, `log2NumBuckets, `idealChainMaxlen, `nonidealItems, `chains
      ensures buckets == nb && chains == cs && idealChainMaxlen == ideal && nonidealItems == nonideal
      ensures numBuckets == 2 * old(numBuckets) && log2NumBuckets == old(log2NumBuckets) + 1
    {
      idealChainMaxlen, nonidealItems := ideal, nonideal;
      numBuckets := numBuckets * 2;
      log2NumBuckets := log2NumBuckets + 1;
      buckets, chains := nb, cs;
    }

    /** Walk every chain into an array of twice the size. */
    method MoveAll(ideal: nat)
      requires ideal > 0 && numBuckets > 0 && Chained(nodes, buckets, chains) && InSlots(nodes, chains)
      modifies `buckets, `numBuckets, `log2NumBuckets, `idealChainMaxlen, `nonidealItems,
               `chains, nodes`hhNext, nodes`hhPrev
      ensures fresh(buckets) && numBuckets == 2 * old(numBuckets) && log2NumBuckets == old(log2NumBuckets) + 1
      ensures buckets.Length == |chains| == numBuckets && idealChainMaxlen == ideal
      ensures Rehashed(nodes, buckets, chains, ideal, nonidealItems)
    {
      hide InSlots, Chained, MultsOk, NonIdeal, Rehashed;
      var nb := ZeroBuckets(2 * numBuckets);
      var nonideal;
      ghost var cs;
      nonideal, cs := Redistribute(buckets, nb, ideal, nodes, chains);
      Install(nb, ideal, nonideal, cs);
    }

    /** Double the bucket array and redistribute the handles. */
    method Rebucket()
      requires Structure() && items != []
      modifies `buckets, `numBuckets, `log2NumBuckets, `idealChainMaxlen, `nonidealItems,
               `chains, nodes`hhNext, nodes`hhPrev
      ensures Structure() && ExpansionFigures() && fresh(buckets)
      ensures numBuckets == 2 * old(numBuckets) && log2NumBuckets == old(log2NumBuckets) + 1
    {
      hide InSlots, AppOk, Hashed, KeysDistinct, Chained, MultsOk, NonIdeal, CeilOf, And, Shr, Threaded, Rehashed;
      hide SizesOk;
      Disassembled(nodes);
      ghost var n, log2 := Sizes();
      var ideal := Shr(numItems, log2NumBuckets + 1) + (if And(numItems, numBuckets * 2 - 1) != 0 then 1 else 0);
      CeilIdeal(numItems, log2NumBuckets);
      MoveAll(ideal);
      SizesDoubled(n, log2);
      RehashedParts(nodes, buckets, chains, ideal, nonidealItems);
      Assembled(nodes);
    }

    /** Record whether the expansion helped; after two in a row that did not, stop expanding. */
    method NoteExpansion()
      requires noexpand != 1
      requires ineffExpands == Trailing(history) <= 2 && OnlyLastTwo(history)
      requires noexpand == (if ineffExpands > 1 then 1 else 0)
      requires log2NumBuckets == HASH_INITIAL_NUM_BUCKETS_LOG2 + |history| + 1
      modifies `ineffExpands, `noexpand, `history
      ensures PolicyOk()
      ensures history == old(history) + [nonidealItems > numItems / 2]
    {
      var ineff := nonidealItems > Shr(numItems, 1);
      assert Shr(numItems, 1) == Shr(numItems / 2, 0) == numItems / 2;
      ineffExpands := if ineff then ineffExpands + 1 else 0;
      if ineffExpands > 1 {
        noexpand := 1;
      }
      ghost var h := history;
      history := history + [ineff];
      assert history[..|history| - 1] == h;
      assert |h| > 0 ==> (h[|h| - 1] <==> Trailing(h) > 0);
    }

    /** HASH_EXPAND_BUCKETS. */
    method ExpandBuckets()
      requires Core() && items != [] && noexpand != 1
      modifies `buckets, `numBuckets, `log2NumBuckets, `idealChainMaxlen, `nonidealItems, `ineffExpands, `noexpand,
               `chains, `history, nodes`hhNext, nodes`hhPrev
      ensures Core() && ExpansionFigures() && fresh(buckets)
      ensures numBuckets == 2 * old(numBuckets)
      ensures history == old(history) + [nonidealItems > numItems / 2]
    {
      hide Structure, ExpansionFigures;
      Rebucket();
      NoteExpansion();
    }

    // ----- adding -----

    /** The figures that an expansion changes and nothing else does. */
    ghost function Figures(): FigureSet
      reads `buckets, `numBuckets, `idealChainMaxlen, `nonidealItems, `ineffExpands, `noexpand, `history, buckets
    {
      FigureSet(buckets, numBuckets, Mults(buckets[..]), idealChainMaxlen, nonidealItems, ineffExpands, noexpand,
        history)
    }

    /** A table with empty buckets that was never expanded. */
    ghost predicate Blank()
      reads `numBuckets, `log2NumBuckets, `buckets, `noexpand, `ineffExpands, `history, `chains, buckets
    {
      && numBuckets == buckets.Length == |chains| == HASH_INITIAL_NUM_BUCKETS
      && log2NumBuckets == HASH_INITIAL_NUM_BUCKETS_LOG2
      && noexpand == ineffExpands == 0 && history == []
      && forall b :: 0 <= b < buckets.Length ==> buckets[b] == Bucket(null, 0, 0)
    }

    lemma BlankIsOk()
      requires Blank()
      ensures PolicyOk() && numBuckets == buckets.Length == Pow2(log2NumBuckets)
    {
      assert Pow2(5) == 2 * Pow2(4) == 4 * Pow2(3) == 8 * Pow2(2) == 16 * Pow2(1) == 32 * Pow2(0);
    }

    method ZeroFigures()
      modifies this`numBuckets, this`log2NumBuckets, this`numItems,
               this`idealChainMaxlen, this`nonidealItems, this`ineffExpands, this`noexpand, this`history
      ensures numItems == 0 && numBuckets == HASH_INITIAL_NUM_BUCKETS && log2NumBuckets == HASH_INITIAL_NUM_BUCKETS_LOG2
      ensures noexpand == ineffExpands == 0 && history == [] && idealChainMaxlen == nonidealItems == 0
    {
      numBuckets, log2NumBuckets := HASH_INITIAL_NUM_BUCKETS, HASH_INITIAL_NUM_BUCKETS_LOG2;
      numItems, idealChainMaxlen, nonidealItems, ineffExpands, noexpand := 0, 0, 0, 0, 0;
      history := [];
    }

    /** HASH_MAKE_TABLE: an empty bucket array, zeroed figures, and the head as tail. */
    method MakeTable()
      modifies this`tail, this`numBuckets, this`log2NumBuckets, this`numItems, this`buckets, this`bloomBv, this`chains,
               this`idealChainMaxlen, this`nonidealItems, this`ineffExpands, this`noexpand, this`history
      ensures tail == head && numItems == 0 && idealChainMaxlen == nonidealItems == 0
      ensures Blank() && Chained({}, buckets, chains) && InSlots({}, chains)
      ensures fresh(buckets) && fresh(bloomBv) && Separate() && BloomSized()
    {
      hide Chained, InSlots, Bloom.ByteLen;
      var nb := ZeroBuckets(HASH_INITIAL_NUM_BUCKETS);
      var n := if bloom then Bloom.ByteLen(bloomNbits) else 0;
      var bv := new bv8[n](_ => 0);
      tail := head;
      buckets, bloomBv, chains := nb, bv, Empties(HASH_INITIAL_NUM_BUCKETS);
      ZeroFigures();
    }

    /** Put `add` at the end of the app list. */
    method AppendApp(add: Handle)
      requires head != null && AppOk() && add !in nodes && add.next == null
      modifies `tail, `items, `nodes, add`prev, nodes`next
      ensures AppOk() && items == old(items) + [add] && nodes == old(nodes) + {add}
      ensures head == old(head)
    {
      assert tail == items[|items| - 1] && tail in nodes;
      tail.next := add;
      add.prev := tail;
      tail := add;
      items := items + [add];
      nodes := nodes + {add};
    }

    ghost function SlotOf(k: Key): nat
      reads `numBuckets
    {
      if numBuckets > 0 then And(hashFcn(k), numBuckets - 1) else 0
    }

    /** A key's bucket and its bit in the filter are remainders of its hash. */
    lemma SlotsAre(k: Key)
      requires SizesOk()
      ensures SlotOf(k) == hashFcn(k) % numBuckets
      ensures BloomIdx(hashFcn(k)) == hashFcn(k) % Pow2(bloomNbits)
    {
      AndIsMod(hashFcn(k), log2NumBuckets);
      AndIsMod(hashFcn(k), bloomNbits);
    }

    /** How many handles the bucket of a key counts. */
    ghost function CountAt(k: Key): nat
      reads `numBuckets, `buckets, buckets
    {
      if SlotOf(k) < buckets.Length then buckets[SlotOf(k)].count else 0
    }

    /** With one more handle the chain of slot b reaches its threshold, and expansion is allowed. */
    ghost predicate Reaches(b: nat)
      reads `buckets, `numBuckets, `idealChainMaxlen, `nonidealItems, `ineffExpands, `noexpand, `history, buckets
    {
      b < buckets.Length && Full(Figures(), b, buckets[b].count + 1)
    }

    /** Adding this key, or replacing its holder, doubles the bucket array. */
    ghost predicate Due(k: Key)
      reads this, items`key, buckets
    {
      Full(Figures(), SlotOf(k), CountAt(k) + if NewKey(k) then 1 else 0)
    }

    lemma BlankNotFull(b: nat)
      requires Blank()
      ensures !Reaches(b)
    {
    }

    lemma SomeItem(e: Handle)
      requires AppOk() && e in nodes
      ensures e in items && items != [] && head != null
    {
    }

    lemma SlotInRange(h: nat)
      requires SizesOk()
      ensures And(h, numBuckets - 1) < buckets.Length
    {
    }

    lemma SizesAgree()
      requires SizesOk()
      ensures buckets.Length == numBuckets
    {
    }

    /** Link `add` into its chain: the app list already has it. */
    method LinkIntoChain(bkt: nat, add: Handle)
      requires add in nodes && Threaded(nodes - {add}) && bkt == And(add.hashv, numBuckets - 1)
      modifies `chains, buckets, nodes`hhNext, nodes`hhPrev
      ensures Structure() && items != [] && bkt < buckets.Length
      ensures buckets[bkt] == Bucket(add, old(buckets[bkt].count) + 1, old(buckets[bkt].expandMult))
      ensures Figures() == old(Figures())
    {
      hide AppOk, Hashed, KeysDistinct, InSlots, Chained, Mults, SizesOk;
      ghost var linked := nodes - {add};
      ghost var cs := chains;
      SomeItem(add);
      SlotInRange(add.hashv);
      assert buckets.Length == numBuckets by { SizesAgree(); }
      NotChained(linked, buckets, cs, add, bkt);
      assert forall x :: x in cs[bkt] ==> x in nodes;
      PushInSlots(linked, cs, add, bkt);
      PushFront(buckets, bkt, add, buckets[bkt].expandMult, linked, cs);
      chains := cs[bkt := [add] + cs[bkt]];
      assert linked + {add} == nodes;
      SameMults(old(buckets[..]), buckets[..]);
    }

    /** This step doubled the bucket array. */
    twostate predicate Expanded()
      reads this, buckets
    {
      && fresh(buckets)
      && numBuckets == 2 * old(numBuckets)
      && ExpansionFigures()
      && history == old(history) + [nonidealItems > numItems / 2]
    }

    /** HASH_ADD_TO_BKT: link, then expand if the chain reached its threshold and expansion is allowed. */
    method AddToBkt(bkt: nat, add: Handle)
      requires add in nodes && Threaded(nodes - {add}) && PolicyOk() && bkt == And(add.hashv, numBuckets - 1)
      modifies `buckets, `numBuckets, `log2NumBuckets, `idealChainMaxlen, `nonidealItems, `ineffExpands, `noexpand,
               `chains, `history, buckets, nodes`hhNext, nodes`hhPrev
      ensures Core()
      ensures if old(Reaches(bkt)) then Expanded() else Figures() == old(Figures())
    {
      hide Threaded, PolicyOk, ExpansionFigures, Mults;
      LinkIntoChain(bkt, add);
      assert PolicyOk();
      MultAt(buckets[..], bkt);
      if buckets[bkt].count >= (buckets[bkt].expandMult + 1) * HASH_BKT_CAPACITY_THRESH {
        if noexpand != 1 {
          ExpandBuckets();
        }
      }
    }

    lemma FirstThreaded(e: Handle)
      requires items == [e] && nodes == {e} && head == tail == e && e.next == null && e.prev == null
      requires numItems == 1 && e.hashv == hashFcn(e.key)
      requires Blank() && Chained({}, buckets, chains) && InSlots({}, chains)
      ensures Threaded({})
    {
      hide Chained, InSlots;
      BlankIsOk();
    }

    lemma NoneKnown()
      requires BloomSized()
      ensures BloomKnows({})
    {
    }

    /** First element: it becomes the head of a new table. */
    method StartTable(keyptr: Key, add: Handle)
      requires add.key == keyptr && add.next == null
      modifies this, add`prev, add`hashv
      ensures items == [add] && nodes == {add} && head == add && add.hashv == hashFcn(keyptr)
      ensures Threaded({}) && Blank() && BloomKnows({})
      ensures fresh(buckets) && fresh(bloomBv) && Separate()
    {
      hide Chained, InSlots, Threaded, Blank, Separate, BloomSized;
      head := add;
      add.prev := null;
      items, nodes := [add], {add};
      MakeTable();
      numItems := numItems + 1;
      add.hashv := hashFcn(keyptr);
      FirstThreaded(add);
      NoneKnown();
    }

    static lemma KeysAppend(s: seq<Handle>, e: Handle)
      requires DistinctKeys(s) && forall i :: 0 <= i < |s| ==> s[i].key != e.key
      ensures DistinctKeys(s + [e])
    {
    }

    /** A further element goes to the end of the app list. */
    method ExtendTable(keyptr: Key, add: Handle)
      requires Structure() && head != null && add !in nodes && add.key == keyptr && add.next == null && NewKey(keyptr)
      modifies `tail, `items, `nodes, `numItems, add`prev, add`hashv, nodes`next
      ensures items == old(items) + [add] && nodes == old(nodes) + {add} && head != null
      ensures Threaded(old(nodes))
      ensures add.hashv == hashFcn(keyptr)
    {
      hide Chained, InSlots, Pow2, AppOk, Hashed, DistinctKeys;
      ghost var s := items;
      AppendApp(add);
      numItems := numItems + 1;
      add.hashv := hashFcn(keyptr);
      KeysAppend(s, add);
      HashedAdd(nodes - {add}, add);
      assert nodes == nodes - {add} + {add};
      assert nodes - {add} == old(nodes);
    }

    lemma NotListed(e: Handle)
      requires Valid() && e !in nodes
      ensures e !in items
    {
    }

    /** HASH_BLOOM_ADD. */
    method BloomAdd(add: Handle, ghost known: set<Handle>)
      requires BloomKnows(known) && nodes == known + {add}
      modifies bloomBv
      ensures BloomOk()
    {
      if bloom {
        PowBytes(bloomNbits, BloomIdx(add.hashv));
        Bloom.BitSet(bloomBv, BloomIdx(add.hashv));
      }
    }

    lemma ThreadedSome(linked: set<Handle>, h: nat)
      requires Threaded(linked)
      ensures numBuckets > 0 && And(h, numBuckets - 1) < buckets.Length
    {
    }

    /** Set the key, thread the element into the app list, count it and hash its key. */
    method ListAdd(keyptr: Key, add: Handle)
      requires Valid() && add !in nodes && NewKey(keyptr)
      modifies this, nodes`next, add
      ensures Threaded(old(nodes)) && PolicyOk() && BloomKnows(old(nodes)) && Separate() && head != null
      ensures items == old(items) + [add] && nodes == old(nodes) + {add}
      ensures add.key == keyptr && add.hashv == hashFcn(keyptr)
      ensures bloomBv == old(bloomBv) || fresh(bloomBv)
      ensures if old(head) == null then fresh(buckets) && Blank() else Figures() == old(Figures())
      ensures numBuckets > 0 && Reaches(And(add.hashv, numBuckets - 1)) == (old(head) != null && old(Due(keyptr)))
    {
      hide Threaded, PolicyOk, BloomKnows, AppOk, Blank, Mults, Separate, Full, And;
      NotListed(add);
      add.next := null;
      add.key := keyptr;
      if head == null {
        StartTable(keyptr, add);
        BlankIsOk();
        BlankNotFull(And(add.hashv, numBuckets - 1));
      } else {
        ExtendTable(keyptr, add);
        ThreadedSome(old(nodes), add.hashv);
      }
    }

    lemma CoreItems()
      requires Core()
      ensures head == null <==> items == []
    {
    }

    /** HASH_ADD_TO_BKT and HASH_BLOOM_ADD of the element that ListAdd has listed. */
    method HashIn(bkt: nat, add: Handle, ghost known: set<Handle>)
      requires nodes == known + {add} && add !in known && Threaded(known) && PolicyOk() && BloomKnows(known)
      requires Separate()
      requires head != null && bkt == And(add.hashv, numBuckets - 1)
      modifies `buckets, `numBuckets, `log2NumBuckets, `idealChainMaxlen, `nonidealItems, `ineffExpands, `noexpand,
               `chains, `history, buckets, bloomBv, nodes`hhNext, nodes`hhPrev
      ensures Valid()
      ensures buckets == old(buckets) || fresh(buckets)
      ensures if old(Reaches(bkt)) then Expanded() else Figures() == old(Figures())
    {
      hide Threaded, PolicyOk, BloomKnows, AppOk, Mults, ExpansionFigures, Core;
      assert nodes - {add} == known;
      AddToBkt(bkt, add);
      BloomAdd(add, known);
      CoreItems();
    }

    /** This step made a new table and put one element into it. */
    twostate predicate Started()
      reads this
    {
      fresh(buckets) && numBuckets == 32 && noexpand == 0 && history == []
    }

    lemma BlankStarted()
      requires Blank()
      ensures numBuckets == HASH_INITIAL_NUM_BUCKETS && noexpand == 0 && history == []
    {
    }

    /**
     HASH_ADD_KEYPTR. The table does not look for the key itself: its callers look it up first.
     The slot is computed in the table as it is before a possible expansion.
     */
    method AddKeyptr(keyptr: Key, add: Handle)
      requires Valid() && add !in nodes && NewKey(keyptr)
      modifies this, buckets, bloomBv, nodes, add
      ensures Valid() && head != null
      ensures items == old(items) + [add] && nodes == old(nodes) + {add} && add.key == keyptr
      ensures forall e :: e in old(nodes) ==> e.key == old(e.key)
      ensures buckets == old(buckets) || fresh(buckets)
      ensures bloomBv == old(bloomBv) || fresh(bloomBv)
      ensures old(head) == null ==> Started()
      ensures old(head) != null ==> if old(Due(keyptr)) then Expanded() else Figures() == old(Figures())
    {
      hide Threaded, PolicyOk, BloomKnows, Separate, Valid, Blank, Mults, ExpansionFigures, And, Full, Reaches, Due;
      NotListed(add);
      ghost var known := nodes;
      ListAdd(keyptr, add);
      var b := And(add.hashv, numBuckets - 1);
      if old(head) == null {
        BlankStarted();
      }
      HashIn(b, add, known);
    }

    // ----- deleting -----

    /** Head and tail move off the k-th handle. */
    method UnlinkEnds(del: Handle, ghost k: nat)
      requires AppOk() && k < |items| && items[k] == del && |items| > 1
      modifies `tail, `head
      ensures var r := RemoveAt(items, k); r != [] && head == r[0] && tail == r[|r| - 1]
    {
      hide Distinct, Elems;
      if del == tail {
        assert del.next == null ==> k == |items| - 1;
        tail := del.prev;
      }
      if del.prev == null {
        head := del.next;
      }
    }

    /** Patch the app list around its k-th handle. */
    method UnlinkApp(del: Handle, ghost k: nat)
      requires AppOk() && k < |items| && items[k] == del && |items| > 1
      modifies `tail, `head, `items, `nodes, nodes`next, nodes`prev
      ensures AppOk() && items == RemoveAt(old(items), k) && nodes == old(nodes) - {del}
      ensures head != null
    {
      hide AppLinks, RemoveAt;
      ghost var s := items;
      assert forall e :: e in s ==> e in nodes;
      UnlinkEnds(del, k);
      SkipInApp(s, k, del);
      RemoveAtElements(s, k);
      items := RemoveAt(s, k);
      nodes := nodes - {del};
    }

    /** Every handle but the one taken out is still in its slot. */
    static lemma UnslotOne(linked: set<Handle>, cs: seq<seq<Handle>>, b: nat, j: nat)
      requires InSlots(linked, cs) && Slotted(linked, cs) && b < |cs| && j < |cs[b]| && Distinct(cs[b])
      ensures InSlots(linked - {cs[b][j]}, cs[b := RemoveAt(cs[b], j)])
    {
      hide And, Distinct;
      RemoveAtElements(cs[b], j);
    }

    static lemma ChainPlace(linked: set<Handle>, bks: array<Bucket>, cs: seq<seq<Handle>>, e: Handle, b: nat)
      returns (j: nat)
      requires Chained(linked, bks, cs) && InSlots(linked, cs) && e in linked && b == And(e.hashv, |cs| - 1)
      ensures b < |cs| && j < |cs[b]| && cs[b][j] == e && Distinct(cs[b])
      ensures forall x :: x in cs[b] ==> x in linked
    {
      assert e in cs[And(e.hashv, |cs| - 1)];
      j :| 0 <= j < |cs[b]| && cs[b][j] == e;
    }

    /** HASH_DEL_IN_BKT. */
    method DelInBkt(bkt: nat, del: Handle, ghost linked: set<Handle>)
      requires Chained(linked, buckets, chains) && InSlots(linked, chains) && |chains| == buckets.Length
      requires del in linked && bkt == And(del.hashv, |chains| - 1)
      modifies `chains, buckets, linked`hhPrev, linked`hhNext
      ensures Chained(linked - {del}, buckets, chains) && InSlots(linked - {del}, chains) && |chains| == old(|chains|)
      ensures Figures() == old(Figures())
      ensures bkt < buckets.Length && buckets[bkt].count == old(buckets[bkt].count) - 1
    {
      hide And, Mults, HhLinks, Distinct;
      ghost var cs := chains;
      ghost var j := ChainPlace(linked, buckets, cs, del, bkt);
      UnslotOne(linked, cs, bkt, j);
      Unchain(buckets, bkt, del, j, linked, cs);
      chains := cs[bkt := RemoveAt(cs[bkt], j)];
      SameMults(old(buckets[..]), buckets[..]);
    }

    lemma KeysAfterRemove(k: nat)
      requires KeysDistinct() && k < |items|
      ensures DistinctKeys(RemoveAt(items, k))
    {
    }

    lemma HashOf(s: set<Handle>, e: Handle)
      requires Hashed(s) && e in s
      ensures e.hashv == hashFcn(e.key)
    {
    }

    lemma SomeNode(k: nat)
      requires AppOk() && k < |items|
      ensures items[k] in nodes
    {
    }

    /** Take the k-th handle out of the app list and out of its chain. */
    method UnlinkBoth(del: Handle, ghost k: nat)
      requires AppOk() && k < |items| && items[k] == del && |items| > 1
      requires |chains| == numBuckets == buckets.Length > 0 && InSlots(nodes, chains) && Chained(nodes, buckets, chains)
      modifies `tail, `head, `items, `nodes, `chains, buckets, nodes`next, nodes`prev, nodes`hhNext, nodes`hhPrev
      ensures AppOk() && items == RemoveAt(old(items), k) && nodes == old(nodes) - {del} && head != null
      ensures InSlots(nodes, chains) && Chained(nodes, buckets, chains) && |chains| == old(|chains|)
      ensures Figures() == old(Figures())
      ensures var b := And(del.hashv, numBuckets - 1);
        b < buckets.Length && buckets[b].count == old(buckets[b].count) - 1
    {
      hide AppOk, Chained, InSlots, And, Mults, RemoveAt;
      ghost var linked := nodes;
      SomeNode(k);
      UnlinkApp(del, k);
      DelInBkt(And(del.hashv, numBuckets - 1), del, linked);
    }

    /** HASH_DELETE for a table that keeps at least one item. */
    method DeleteSome(del: Handle, ghost k: nat)
      requires Core() && k < |items| && items[k] == del && |items| > 1
      modifies `tail, `head, `items, `nodes, `numItems, `chains, buckets, nodes`next, nodes`prev, nodes`hhNext,
               nodes`hhPrev
      ensures Core() && items == RemoveAt(old(items), k) && nodes == old(nodes) - {del} && head != null
      ensures Figures() == old(Figures()) && CountAt(del.key) == old(CountAt(del.key)) - 1
    {
      hide AppOk, Chained, InSlots, PolicyOk, Pow2, And, DistinctKeys, Hashed, Mults, RemoveAt;
      ghost var was := nodes;
      SomeNode(k);
      HashOf(was, del);
      KeysAfterRemove(k);
      HashedSub(was, was - {del});
      RemoveAtIndex(items, k);
      InSlotsSome(was, chains);
      UnlinkBoth(del, k);
      numItems := numItems - 1;
    }

    lemma BloomSub(known: set<Handle>, fewer: set<Handle>)
      requires BloomKnows(known) && fewer <= known
      ensures BloomKnows(fewer)
    {
    }

    /** Where an item stands, and what its app links say about its neighbours. */
    lemma Place(e: Handle) returns (k: nat)
      requires Valid() && e in nodes
      ensures k < |items| && items[k] == e && Without(items, e) == RemoveAt(items, k)
      ensures e.prev == null && e.next == null <==> |items| == 1
      ensures |items| == 1 ==> nodes == {e}
    {
      k :| 0 <= k < |items| && items[k] == e;
      WithoutIsRemoveAt(items, k);
      assert items[k].prev == At(items, k - 1) && items[k].next == At(items, k + 1);
    }

    /** HASH_DELETE. Removing the last item frees the table. */
    method Delete(del: Handle)
      requires Valid() && del in nodes
      modifies `head, `tail, `items, `nodes, `numItems, `chains, buckets,
               nodes`next, nodes`prev, nodes`hhNext, nodes`hhPrev
      ensures Valid()
      ensures items == Without(old(items), del) && nodes == old(nodes) - {del}
      ensures Figures() == old(Figures())
      ensures if old(|items|) == 1 then head == null else head != null && CountAt(del.key) == old(CountAt(del.key)) - 1
    {
      hide Core, BloomKnows, Mults;
      ghost var known := nodes;
      ghost var k := Place(del);
      if del.prev == null && del.next == null {
        head := null;
        items, nodes := [], {};
      } else {
        DeleteSome(del, k);
        BloomSub(known, nodes);
      }
    }

    lemma KeyGone(e: Handle)
      requires Valid() && e in nodes
      ensures forall i :: 0 <= i < |Without(items, e)| ==>
        Without(items, e)[i] in items && Without(items, e)[i].key != e.key
    {
      var k := Place(e);
    }

    lemma UniqueKey(k: Key, e: Handle, found: Handle?)
      requires Valid() && (e in nodes ==> e.key == k)
      requires if found == null then NewKey(k) else found in nodes && found.key == k
      ensures e in nodes ==> e == found
    {
      if e in nodes {
        var i :| 0 <= i < |items| && items[i] == e;
        assert items[i].key == k;
        if found != null {
          var j :| 0 <= j < |items| && items[j] == found;
        }
      }
    }

    /** HASH_REPLACE of the only item: the table is freed and a new one made. */
    ghost predicate Renews(k: Key)
      reads `items, items`key
    {
      |items| == 1 && items[0].key == k
    }

    lemma RenewsIff(k: Key, found: Handle?)
      requires Valid() && if found == null then NewKey(k) else found in nodes && found.key == k
      ensures Renews(k) <==> found != null && |items| == 1
      ensures head == null ==> found == null
    {
    }

    twostate lemma Holds(e: Handle)
      requires old(Valid()) && e in old(nodes)
      ensures !old(NewKey(e.key))
    {
    }

    /** Delete the holder of a key that is about to be added again. */
    method DeleteHolder(keyptr: Key, del: Handle)
      requires Valid() && del in nodes && del.key == keyptr
      modifies `head, `tail, `items, `nodes, `numItems, `chains, buckets,
               nodes`next, nodes`prev, nodes`hhNext, nodes`hhPrev
      ensures Valid() && NewKey(keyptr)
      ensures items == Without(old(items), del) && nodes == old(nodes) - {del}
      ensures head == null <==> old(|items|) == 1
      ensures Figures() == old(Figures()) && (head != null ==> Due(keyptr) == old(Due(keyptr)))
    {
      hide Valid, Mults, Full;
      KeyGone(del);
      Delete(del);
      assert head != null ==> !old(NewKey(keyptr)) by { Holds(del); }
    }

    /**
     HASH_REPLACE: `add` takes the place of the item with its key, if any, at the end of the app list. A
     table that is not freed on the way grows exactly if the chain, without the replaced item, is due.
     */
    method Replace(keyptr: Key, add: Handle) returns (replaced: Handle?)
      requires Valid() && (add in nodes ==> add.key == keyptr)
      modifies this, buckets, bloomBv, nodes, add
      ensures Valid() && head != null
      ensures replaced == null ==> old(NewKey(keyptr)) && items == old(items) + [add]
      ensures replaced != null ==>
        replaced in old(nodes) && old(replaced.key) == keyptr && items == Without(old(items), replaced) + [add]
      ensures add.key == keyptr && nodes == old(nodes) - (if replaced == null then {} else {replaced}) + {add}
      ensures forall e :: e in old(nodes) ==> e.key == old(e.key)
      ensures buckets == old(buckets) || fresh(buckets)
      ensures bloomBv == old(bloomBv) || fresh(bloomBv)
      ensures old(head == null || Renews(keyptr)) ==> Started()
      ensures !old(head == null || Renews(keyptr)) ==>
        if old(Due(keyptr)) then Expanded() else Figures() == old(Figures())
    {
      hide Valid, Mults, Full, NewKey, Renews, ExpansionFigures;
      replaced := Find(keyptr);
      UniqueKey(keyptr, add, replaced);
      RenewsIff(keyptr, replaced);
      if replaced != null {
        DeleteHolder(keyptr, replaced);
      }
      AddKeyptr(keyptr, add);
    }

    /** HASH_CLEAR: forget the table; the elements themselves are untouched. */
    method Clear()
      requires Valid()
      modifies `head, `items, `nodes
      ensures Valid() && items == [] && nodes == {}
    {
      if head != null {
        head := null;
        items, nodes := [], {};
      }
    }

    // ----- sorting -----

    lemma KeysPermuted(s: seq<Handle>, r: seq<Handle>)
      requires DistinctKeys(s) && Distinct(r) && Elems(r) == Elems(s)
      ensures DistinctKeys(r)
    {
      forall i, j | 0 <= i < j < |r|
        ensures r[i].key != r[j].key
      {
        assert r[i] in Elems(s) && r[j] in Elems(s);
        var x :| 0 <= x < |s| && s[x] == r[i];
        var y :| 0 <= y < |s| && s[y] == r[j];
        assert x != y;
      }
    }

    method SortApp(cmp: (Handle, Handle) -> int)
      requires AppOk() && DistinctKeys(items) && head != null && |items| < UINT_RANGE
      modifies `head, `tail, `items, nodes`next, nodes`prev
      ensures AppOk() && DistinctKeys(items) && head != null && items != []
      ensures items == StableSort.Passes(UthashSort.LeOf(cmp), old(items), 1) && |items| == |old(items)|
    {
      hide StableSort.Passes, AppLinks;
      ghost var s := items;
      head, tail, items := UthashSort.SortList(cmp, head, s);
      KeysPermuted(s, items);
    }

    /**
     HASH_SRT: the app list becomes its stable sort under the comparator; the bucket chains,
     the bloom filter and every figure stay as they are.
     */
    method Sort(cmp: (Handle, Handle) -> int)
      requires Valid() && |items| < UINT_RANGE
      modifies `head, `tail, `items, nodes`next, nodes`prev
      ensures Valid() && nodes == old(nodes)
      ensures items == StableSort.Passes(UthashSort.LeOf(cmp), old(items), 1)
      ensures StableSort.PreorderOn(UthashSort.LeOf(cmp), old(items)) ==>
        StableSort.StableSortOf(UthashSort.LeOf(cmp), old(items), items)
    {
      hide AppOk, Chained, BloomKnows, PolicyOk, DistinctKeys, StableSort.Passes;
      ghost var s := items;
      if head != null {
        SortApp(cmp);
      } else {
        assert StableSort.Passes(UthashSort.LeOf(cmp), s, 1) == [];
      }
      if StableSort.PreorderOn(UthashSort.LeOf(cmp), s) {
        StableSort.SortCorrect(UthashSort.LeOf(cmp), s);
      }
    }

    // ----- what a valid table guarantees -----

    /** Expansion is inhibited exactly when the last two expansions were ineffective; no earlier pair was. */
    lemma NoexpandExactly()
      requires PolicyOk()
      ensures noexpand == 1 <==> |history| >= 2 && history[|history| - 2] && history[|history| - 1]
      ensures forall i :: 0 <= i < |history| - 2 ==> !(history[i] && history[i + 1])
      ensures noexpand == 0 || noexpand == 1
    {
      TrailingTwo(history);
    }

    /** The figure that judges an expansion is the number of handles behind an ideal chain's worth of others. */
    lemma NonidealIs()
      requires Structure() && ExpansionFigures()
      ensures nonidealItems == |Deep(chains, idealChainMaxlen)|
    {
      hide AppOk, And, CeilOf, MultsOk;
      forall b, c | 0 <= c < b < |chains|
        ensures Apart(chains[c], Elems(chains[b]))
      {
        ChainsApart(nodes, chains, b);
      }
      assert forall b :: 0 <= b < |chains| ==> HhLinks(chains[b]);
      NonIdealCounts(chains, idealChainMaxlen);
    }

    /** An expansion is due at ten handles for a multiplier of zero, and at ten more for each unit of it. */
    lemma DueExactly(k: Key)
      requires SizesOk() && noexpand <= 1
      ensures var b := SlotOf(k);
        && b < buckets.Length
        && (Due(k) <==>
             noexpand == 0 && buckets[b].count + (if NewKey(k) then 1 else 0) >= 10 * buckets[b].expandMult + 10)
    {
      hide And, NewKey;
      SlotInRange(hashFcn(k));
      MultAt(buckets[..], SlotOf(k));
    }

    /** After a doubling, the handles of old slot b are in slots b and b + n, for the old size n. */
    lemma SplitsInTwo(k: nat, e: Handle)
      requires Structure() && log2NumBuckets == k + 1 && e in nodes
      ensures var n, b := Pow2(k), And(e.hashv, Pow2(k) - 1);
        |chains| == 2 * n && b < n && (e in chains[b] || e in chains[b + n])
    {
      hide AppOk, KeysDistinct, Chained, Hashed;
      AndDouble(e.hashv, k);
      assert e in chains[And(e.hashv, |chains| - 1)];
    }

    /** HASH_FSCK on one bucket. */
    method FsckBucket(b: nat) returns (ok: bool, bktCount: nat)
      requires Heads(buckets, chains) && b < |chains| && HhLinks(chains[b])
      ensures ok && bktCount == |chains[b]|
    {
      ghost var c := chains[b];
      ok, bktCount := true, 0;
      var thh := buckets[b].hhHead;
      var prev: Handle? := null;
      while thh != null
        invariant ok && bktCount <= |c| && thh == At(c, bktCount) && prev == At(c, bktCount - 1)
        decreases |c| - bktCount
      {
        assert thh.hhPrev == At(c, bktCount - 1) && thh.hhNext == At(c, bktCount + 1);
        if prev != thh.hhPrev {
          ok := false;
        }
        bktCount := bktCount + 1;
        prev := thh;
        thh := thh.hhNext;
      }
      if buckets[b].count != bktCount {
        ok := false;
      }
    }

    /** The app-order half of HASH_FSCK. */
    method FsckApp() returns (ok: bool)
      requires AppOk() && numItems == |items|
      ensures ok
    {
      ok := true;
      var count := 0;
      var thh := head;
      var prev: Handle? := null;
      while thh != null
        invariant ok && count <= |items| && thh == At(items, count) && prev == At(items, count - 1)
        decreases |items| - count
      {
        assert thh.prev == At(items, count - 1) && thh.next == At(items, count + 1);
        count := count + 1;
        if prev != thh.prev {
          ok := false;
        }
        prev := thh;
        thh := thh.next;
      }
      if count != numItems {
        ok := false;
      }
    }

    /** The bucket half of HASH_FSCK: the chains are sound and together hold every item once. */
    method FsckBuckets() returns (ok: bool, count: nat)
      requires Chained(nodes, buckets, chains) && InSlots(nodes, chains) && numBuckets == |chains|
      ensures ok && count == |nodes|
    {
      hide And, Distinct, InSlots, Slotted, Below;
      ok, count := true, 0;
      BelowEnds(nodes, chains);
      for b := 0 to numBuckets
        invariant ok && count == |Below(nodes, |chains|, b)|
      {
        var good, n := FsckBucket(b);
        BelowCount(nodes, chains, b);
        ok := ok && good;
        count := count + n;
      }
    }

    /** HASH_FSCK accepts every valid table. */
    method Fsck() returns (ok: bool)
      requires Valid()
      ensures ok
    {
      hide PolicyOk, BloomKnows, DistinctKeys, Hashed, Chained, InSlots;
      ok := true;
      if head != null {
        var good, count := FsckBuckets();
        CountDistinct(items);
        if count != numItems {
          good := false;
        }
        var app := FsckApp();
        ok := good && app;
      }
    }
  }
}

/** Whole runs of the hash table: it behaves as an insertion-ordered plain map. */
module UthashRun {
  import opened Basics
  import opened UthashNodes
  import opened Uthash
  import opened OrderedMap
  import opened StableSort

  /** The keys and values of the handles, in order. */
  ghost function View(s: seq<Handle>): (r: seq<Entry>)
    reads s`key
    ensures |r| == |s|
  {
    if s == [] then [] else [Entry(s[0].key, s[0].val)] + View(s[1..])
  }

  lemma {:induction false} ViewConcat(a: seq<Handle>, b: seq<Handle>)
    ensures View(a + b) == View(a) + View(b)
  {
    if a == [] {
      assert a + b == b;
    } else {
      assert (a + b)[1..] == a[1..] + b;
      ViewConcat(a[1..], b);
    }
  }

  lemma ViewAppend(s: seq<Handle>, e: Handle)
    ensures View(s + [e]) == View(s) + [Entry(e.key, e.val)]
  {
    ViewConcat(s, [e]);
    assert [e][1..] == [];
  }

  lemma {:induction false} ViewWithout(s: seq<Handle>, e: Handle)
    requires DistinctKeys(s) && e in s
    ensures View(Without(s, e)) == Remove(View(s), e.key)
    ensures Lookup(View(s), e.key) == Some(e.val)
  {
    if s[0] == e {
      assert View(s)[1..] == View(s[1..]);
    } else {
      var i :| 0 < i < |s| && s[i] == e;
      assert s[0].key != e.key;
      ViewWithout(s[1..], e);
      assert View(s)[1..] == View(s[1..]);
      assert ([s[0]] + Without(s[1..], e))[1..] == Without(s[1..], e);
    }
  }

  lemma {:induction false} ViewAbsent(s: seq<Handle>, k: Key)
    requires forall i :: 0 <= i < |s| ==> s[i].key != k
    ensures Lookup(View(s), k) == None && Remove(View(s), k) == View(s)
  {
    if s != [] {
      ViewAbsent(s[1..], k);
      assert View(s)[1..] == View(s[1..]);
    }
  }

  lemma Listed(t: HashTable)
    requires t.Valid()
    ensures DistinctKeys(t.items) && forall e :: e in t.nodes <==> e in t.items
  {
  }

  /** HASH_FIND reports what the ordered list holds for the key. */
  method Look(t: HashTable, k: Key) returns (found: Handle?)
    requires t.Valid()
    ensures found != null ==> found in t.nodes && found.key == k && Lookup(View(t.items), k) == Some(found.val)
    ensures found == null ==> t.NewKey(k) && Lookup(View(t.items), k) == None
    ensures found == null ==> Remove(View(t.items), k) == View(t.items)
    ensures found != null ==> View(Without(t.items, found)) == Remove(View(t.items), k)
  {
    found := t.Find(k);
    Listed(t);
    if found == null {
      ViewAbsent(t.items, k);
    } else {
      ViewWithout(t.items, found);
    }
  }

  lemma {:induction false} WithoutSub(s: seq<Handle>, e: Handle)
    ensures forall x :: x in Without(s, e) ==> x in s
  {
    if s != [] && s[0] != e {
      WithoutSub(s[1..], e);
    }
  }

  /** What removing the holder of a key does to the view, whoever holds it. */
  lemma ReplaceView(t: HashTable, k: Key)
    requires t.Valid()
    ensures t.NewKey(k) ==> Lookup(View(t.items), k) == None && Remove(View(t.items), k) == View(t.items)
    ensures forall e :: e in t.nodes && e.key == k ==>
      && Lookup(View(t.items), k) == Some(e.val)
      && View(Without(t.items, e)) == Remove(View(t.items), k)
      && (forall x :: x in Without(t.items, e) ==> x in t.nodes)
  {
    hide View, Without, DistinctKeys;
    Listed(t);
    if t.NewKey(k) {
      ViewAbsent(t.items, k);
    }
    forall e | e in t.nodes && e.key == k
      ensures Lookup(View(t.items), k) == Some(e.val)
      ensures View(Without(t.items, e)) == Remove(View(t.items), k)
      ensures forall x :: x in Without(t.items, e) ==> x in t.nodes
    {
      ViewWithout(t.items, e);
      WithoutSub(t.items, e);
    }
  }

  // ----- growth -----

  /** The command takes the last element of the list, or all, and the table with it. */
  predicate Frees(s: seq<Entry>, c: Cmd) {
    match c
    case Find(k) => false
    case Put(k, v) => false
    case Replace(k, v) => |s| == 1 && s[0].key == k
    case Delete(k) => |s| == 1 && s[0].key == k
    case Clear => s != []
    case Sort(cmp) => false
  }

  /** There is a table, and no command of the run frees it. */
  predicate Lives(s: seq<Entry>, cs: seq<Cmd>)
    decreases |cs|
  {
    s != [] && (cs == [] || (!Frees(s, cs[0]) && Lives(Step(s, cs[0]).0, cs[1..])))
  }

  lemma {:induction false} LivesSnoc(s: seq<Entry>, cs: seq<Cmd>, c: Cmd)
    requires Lives(s, cs + [c])
    ensures Lives(s, cs) && Run(s, cs).0 != [] && !Frees(Run(s, cs).0, c)
    decreases |cs|
  {
    if cs == [] {
      assert (cs + [c])[0] == c;
    } else {
      assert (cs + [c])[0] == cs[0] && (cs + [c])[1..] == cs[1..] + [c];
      LivesSnoc(Step(s, cs[0]).0, cs[1..], c);
    }
  }

  /** The command adds a handle to a chain that is due to be expanded. */
  ghost predicate Grows(t: HashTable, c: Cmd)
    reads t, t.items`key, t.buckets
  {
    match c
    case Find(k) => false
    case Put(k, v) => t.NewKey(k) && t.Due(k)
    case Replace(k, v) => t.Due(k)
    case Delete(k) => false
    case Clear => false
    case Sort(cmp) => false
  }

  /** The bucket array doubled if the command was due to, and otherwise no figure changed. */
  twostate predicate Growth(t: HashTable, c: Cmd)
    reads t, t.buckets
  {
    if old(Grows(t, c)) then t.Expanded() else t.Figures() == old(t.Figures())
  }

  lemma OneEntry(t: HashTable, k: Key)
    requires t.Valid()
    ensures t.head == null <==> View(t.items) == []
    ensures t.Renews(k) <==> |View(t.items)| == 1 && View(t.items)[0].key == k
  {
  }

  // ----- sorting -----

  /** A comparator of the elements that compares their values. */
  function ByValue(cmp: (int, int) -> int): (Handle, Handle) -> int {
    (a: Handle, b: Handle) => cmp(a.val, b.val)
  }

  lemma ViewSlices(s: seq<Handle>, i: nat)
    requires i <= |s|
    ensures View(s[..i]) == View(s)[..i] && View(s[i..]) == View(s)[i..]
  {
    ViewConcat(s[..i], s[i..]);
    assert s == s[..i] + s[i..];
  }

  lemma {:induction false} ViewMerge(cmp: (int, int) -> int, p: seq<Handle>, q: seq<Handle>)
    ensures View(Merge(UthashSort.LeOf(ByValue(cmp)), p, q)) == Merge(LeOf(cmp), View(p), View(q))
    decreases |p| + |q|
  {
    if p != [] && q != [] {
      assert View(p)[1..] == View(p[1..]) && View(q)[1..] == View(q[1..]);
      var le := UthashSort.LeOf(ByValue(cmp));
      if le(p[0], q[0]) {
        ViewMerge(cmp, p[1..], q);
        ViewConcat([p[0]], Merge(le, p[1..], q));
      } else {
        ViewMerge(cmp, p, q[1..]);
        ViewConcat([q[0]], Merge(le, p, q[1..]));
      }
    }
  }

  lemma {:induction false} ViewPass(cmp: (int, int) -> int, s: seq<Handle>, k: nat)
    requires k >= 1
    ensures View(MergePass(UthashSort.LeOf(ByValue(cmp)), s, k)) == MergePass(LeOf(cmp), View(s), k)
    decreases |s|
  {
    hide View, Merge;
    if s == [] {
      ViewSlices(s, 0);
    } else {
      var le := UthashSort.LeOf(ByValue(cmp));
      var pe, qe := Min(k, |s|), Min(2 * k, |s|);
      ViewSlices(s, qe);
      ViewSlices(s[..qe], pe);
      assert s[..qe][..pe] == s[..pe] && s[..qe][pe..] == s[pe..qe];
      assert View(s)[..qe][..pe] == View(s)[..pe] && View(s)[..qe][pe..] == View(s)[pe..qe];
      ViewMerge(cmp, s[..pe], s[pe..qe]);
      ViewPass(cmp, s[qe..], k);
      ViewConcat(Merge(le, s[..pe], s[pe..qe]), MergePass(le, s[qe..], k));
    }
  }

  /** Sorting the handles sorts their keys and values. */
  lemma {:induction false} ViewPasses(cmp: (int, int) -> int, s: seq<Handle>, k: nat)
    requires k >= 1
    ensures View(Passes(UthashSort.LeOf(ByValue(cmp)), s, k)) == Passes(LeOf(cmp), View(s), k)
    decreases |s| - k
  {
    hide View, MergePass;
    ViewPass(cmp, s, k);
    if |s| > 2 * k {
      ViewPasses(cmp, MergePass(UthashSort.LeOf(ByValue(cmp)), s, k), 2 * k);
    }
  }

  // ----- commands -----

  lemma Holder(t: HashTable, e: Handle)
    requires t.Valid() && e in t.nodes
    ensures !t.NewKey(e.key)
  {
  }

  method Put(t: HashTable, k: Key, v: int) returns (out: Option<int>)
    requires t.Valid()
    modifies t, t.buckets, t.bloomBv, t.nodes
    ensures t.Valid() && (View(t.items), out) == Step(old(View(t.items)), Cmd.Put(k, v))
    ensures t.buckets == old(t.buckets) || fresh(t.buckets)
    ensures t.bloomBv == old(t.bloomBv) || fresh(t.bloomBv)
    ensures fresh(t.nodes - old(t.nodes))
    ensures old(t.head) != null ==> Growth(t, Cmd.Put(k, v))
  {
    hide HashTable.Valid, View, DistinctKeys, HashTable.Figures, HashTable.Due, HashTable.ExpansionFigures;
    ghost var s := t.items;
    Listed(t);
    var f := Look(t, k);
    out := if f == null then None else Some(f.val);
    if f == null {
      var h := new Handle(v);
      t.AddKeyptr(k, h);
      assert View(s) == old(View(t.items));
      ViewAppend(s, h);
    } else {
      Holder(t, f);
    }
  }

  method Replace(t: HashTable, k: Key, v: int) returns (out: Option<int>)
    requires t.Valid()
    modifies t, t.buckets, t.bloomBv, t.nodes
    ensures t.Valid() && (View(t.items), out) == Step(old(View(t.items)), Cmd.Replace(k, v))
    ensures t.buckets == old(t.buckets) || fresh(t.buckets)
    ensures t.bloomBv == old(t.bloomBv) || fresh(t.bloomBv)
    ensures fresh(t.nodes - old(t.nodes))
    ensures !old(t.head == null || t.Renews(k)) ==> Growth(t, Cmd.Replace(k, v))
  {
    hide HashTable.Valid, View, DistinctKeys, Without, HashTable.Figures, HashTable.Due, HashTable.Renews;
    hide HashTable.ExpansionFigures;
    ghost var s := t.items;
    Listed(t);
    ReplaceView(t, k);
    var h := new Handle(v);
    var r := t.Replace(k, h);
    out := if r == null then None else Some(r.val);
    ghost var rest := if r == null then s else Without(s, r);
    assert View(rest) == old(View(rest));
    ViewAppend(rest, h);
  }

  method Delete(t: HashTable, k: Key) returns (out: Option<int>)
    requires t.Valid()
    modifies t, t.buckets, t.nodes
    ensures t.Valid() && (View(t.items), out) == Step(old(View(t.items)), Cmd.Delete(k))
    ensures t.buckets == old(t.buckets) && t.bloomBv == old(t.bloomBv) && t.nodes <= old(t.nodes)
    ensures t.Figures() == old(t.Figures())
  {
    hide HashTable.Valid, View, DistinctKeys, Without, HashTable.Figures;
    Listed(t);
    ReplaceView(t, k);
    var f := Look(t, k);
    out := if f == null then None else Some(f.val);
    if f != null {
      ghost var rest := Without(t.items, f);
      t.Delete(f);
      assert View(rest) == old(View(rest));
    }
  }

  method Sort(t: HashTable, cmp: (int, int) -> int)
    requires t.Valid() && |t.items| < UINT_RANGE
    modifies t, t.nodes
    ensures t.Valid() && View(t.items) == Step(old(View(t.items)), Cmd.Sort(cmp)).0
    ensures t.buckets == old(t.buckets) && t.bloomBv == old(t.bloomBv) && t.nodes == old(t.nodes)
    ensures t.Figures() == old(t.Figures())
  {
    hide HashTable.Valid, View, Passes;
    ghost var s := t.items;
    t.Sort(ByValue(cmp));
    ViewPasses(cmp, s, 1);
    assert View(s) == old(View(s));
  }

  /** Execute one command. A table that is not freed by it grows exactly if the command is due to make it. */
  method Exec(t: HashTable, c: Cmd) returns (out: Option<int>)
    requires t.Valid() && (c.Sort? ==> |View(t.items)| < UINT_RANGE)
    modifies t, t.buckets, t.bloomBv, t.nodes
    ensures t.Valid() && (View(t.items), out) == Step(old(View(t.items)), c)
    ensures t.buckets == old(t.buckets) || fresh(t.buckets)
    ensures t.bloomBv == old(t.bloomBv) || fresh(t.bloomBv)
    ensures fresh(t.nodes - old(t.nodes))
    ensures old(View(t.items)) != [] && !Frees(old(View(t.items)), c) ==> Growth(t, c) && old(t.history) <= t.history
    ensures old(View(t.items)) != [] && !Frees(old(View(t.items)), c) && old(t.noexpand) == 1 ==>
      t.noexpand == 1 && t.Figures() == old(t.Figures())
  {
    hide HashTable.Valid, View, HashTable.Renews, Mults, HashTable.ExpansionFigures, HashTable.NewKey;
    OneEntry(t, if c.Clear? || c.Sort? then [] else c.key);
    match c {
      case Find(k) =>
        var f := Look(t, k);
        out := if f == null then None else Some(f.val);
      case Put(k, v) =>
        out := Put(t, k, v);
      case Replace(k, v) =>
        out := Replace(t, k, v);
      case Delete(k) =>
        out := Delete(t, k);
      case Clear =>
        t.Clear();
        out := None;
      case Sort(cmp) =>
        Sort(t, cmp);
        out := None;
    }
  }

  /** HASH_ITER: the keys and values in app order. */
  method Iterate(t: HashTable) returns (entries: seq<Entry>)
    requires t.Valid()
    ensures entries == View(t.items)
  {
    var el := t.head;
    entries := [];
    ghost var i := 0;
    assert t.items[..0] == [];
    while el != null
      invariant 0 <= i <= |t.items| && el == At(t.items, i) && entries == View(t.items[..i])
      decreases |t.items| - i
    {
      entries := entries + [Entry(el.key, el.val)];
      ViewAppend(t.items[..i], el);
      assert t.items[..i + 1] == t.items[..i] + [el];
      assert el.next == At(t.items, i + 1);
      el := el.next;
      i := i + 1;
    }
    assert t.items[..i] == t.items;
  }

  lemma EmptyView(t: HashTable)
    requires t.Valid() && t.items == []
    ensures View(t.items) == [] && t.nodes == {}
  {
    assert t.head == null;
  }

  /**
   A run on a table in any state. While it is not freed its history of expansions only grows, and once
   expansion is inhibited neither the bucket array nor any figure of it changes again.
   */
  method RunOn(t: HashTable, cs: seq<Cmd>) returns (outs: seq<Option<int>>)
    requires t.Valid() && Sortable(View(t.items), cs)
    modifies t, t.buckets, t.bloomBv, t.nodes
    ensures t.Valid() && (View(t.items), outs) == Run(old(View(t.items)), cs)
    ensures Lives(old(View(t.items)), cs) ==> old(t.history) <= t.history
    ensures Lives(old(View(t.items)), cs) && old(t.noexpand) == 1 ==> t.Figures() == old(t.Figures())
  {
    hide HashTable.Valid, Step, View, HashTable.Figures, Growth, Frees, Lives, Sortable;
    outs := [];
    ghost var s := View(t.items);
    for i := 0 to |cs|
      invariant t.Valid()
      invariant t.buckets == old(t.buckets) || fresh(t.buckets)
      invariant t.bloomBv == old(t.bloomBv) || fresh(t.bloomBv)
      invariant fresh(t.nodes - old(t.nodes))
      invariant (View(t.items), outs) == Run(s, cs[..i])
      invariant Lives(s, cs[..i]) ==> old(t.history) <= t.history
      invariant Lives(s, cs[..i]) && old(t.noexpand) == 1 ==> t.noexpand == 1 && t.Figures() == old(t.Figures())
    {
      assert cs[..i + 1] == cs[..i] + [cs[i]];
      RunSnoc(s, cs[..i], cs[i]);
      if cs[i].Sort? {
        SortableAt(s, cs, i);
      }
      var out := Exec(t, cs[i]);
      if Lives(s, cs[..i + 1]) {
        LivesSnoc(s, cs[..i], cs[i]);
      }
      outs := outs + [out];
    }
    assert cs[..|cs|] == cs;
  }

  /**
   Every run, on any hash function and with or without the bloom filter, reports what a plain
   map reports and leaves the elements in insertion order.
   */
  method RunAll(hashFcn: Key -> nat, bloom: bool, bloomNbits: nat, cs: seq<Cmd>)
    returns (outs: seq<Option<int>>, entries: seq<Entry>)
    requires Sortable([], cs)
    ensures (entries, outs) == Run([], cs)
    ensures (ToMap(entries), outs) == MapRun(map[], cs)
  {
    hide HashTable.Valid, View, Sortable;
    var t := new HashTable(hashFcn, bloom, bloomNbits);
    EmptyView(t);
    outs := RunOn(t, cs);
    entries := Iterate(t);
    RunIsMapRun([], cs);
  }
}

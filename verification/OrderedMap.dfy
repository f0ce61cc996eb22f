/** The specification: an insertion-ordered association list, and the plain map it stands for. */
module OrderedMap {
  import opened Basics
  import opened UthashNodes
  import StableSort

  datatype Entry = Entry(key: Key, val: int)

  datatype Cmd =
    | Find(key: Key)
    | Put(key: Key, val: int)      // find, and add only when the key is absent
    | Replace(key: Key, val: int)
    | Delete(key: Key)             // find, and delete what was found
    | Clear
    | Sort(cmp: (int, int) -> int) // by a comparator of the values

  /** The order of the entries that the comparator's sign gives. */
  function LeOf(cmp: (int, int) -> int): (Entry, Entry) -> bool {
    (a: Entry, b: Entry) => cmp(a.val, b.val) <= 0
  }

  function Lookup(s: seq<Entry>, k: Key): Option<int> {
    if s == [] then None else if s[0].key == k then Some(s[0].val) else Lookup(s[1..], k)
  }

  function Remove(s: seq<Entry>, k: Key): seq<Entry> {
    if s == [] then [] else if s[0].key == k then s[1..] else [s[0]] + Remove(s[1..], k)
  }

  /** One command on the ordered list: the new list and what the command reports. */
  function Step(s: seq<Entry>, c: Cmd): (seq<Entry>, Option<int>) {
    match c
    case Find(k) => (s, Lookup(s, k))
    case Put(k, v) => (if Lookup(s, k).Some? then s else s + [Entry(k, v)], Lookup(s, k))
    case Replace(k, v) => (Remove(s, k) + [Entry(k, v)], Lookup(s, k))
    case Delete(k) => (Remove(s, k), Lookup(s, k))
    case Clear => ([], None)
    case Sort(cmp) => (StableSort.Passes(LeOf(cmp), s, 1), None)
  }

  function Get(m: map<Key, int>, k: Key): Option<int> {
    if k in m then Some(m[k]) else None
  }

  /** The same command on a plain map. */
  function MapStep(m: map<Key, int>, c: Cmd): (map<Key, int>, Option<int>) {
    match c
    case Find(k) => (m, Get(m, k))
    case Put(k, v) => (if k in m then m else m[k := v], Get(m, k))
    case Replace(k, v) => (m[k := v], Get(m, k))
    case Delete(k) => (m - {k}, Get(m, k))
    case Clear => (map[], None)
    case Sort(_) => (m, None)
  }

  /** All commands in order: the final list and every report. */
  function Run(s: seq<Entry>, cs: seq<Cmd>): (r: (seq<Entry>, seq<Option<int>>))
    decreases |cs|
  {
    if cs == [] then (s, [])
    else
      var (s', out) := Step(s, cs[0]);
      var (end, outs) := Run(s', cs[1..]);
      (end, [out] + outs)
  }

  function MapRun(m: map<Key, int>, cs: seq<Cmd>): (map<Key, int>, seq<Option<int>>)
    decreases |cs|
  {
    if cs == [] then (m, [])
    else
      var (m', out) := MapStep(m, cs[0]);
      var (end, outs) := MapRun(m', cs[1..]);
      (end, [out] + outs)
  }

  ghost predicate UniqueKeys(s: seq<Entry>) {
    forall i, j :: 0 <= i < j < |s| ==> s[i].key != s[j].key
  }

  function ToMap(s: seq<Entry>): map<Key, int> {
    if s == [] then map[] else ToMap(s[1..])[s[0].key := s[0].val]
  }

  lemma {:induction false} LookupIsGet(s: seq<Entry>, k: Key)
    ensures Lookup(s, k) == Get(ToMap(s), k)
    ensures k in ToMap(s) <==> exists i :: 0 <= i < |s| && s[i].key == k
  {
    if s != [] {
      LookupIsGet(s[1..], k);
      if k in ToMap(s[1..]) {
        var i :| 0 <= i < |s[1..]| && s[1..][i].key == k;
        assert s[i + 1].key == k;
      } else if k in ToMap(s) {
        assert s[0].key == k;
      }
      if i :| 0 <= i < |s| && s[i].key == k {
        assert i > 0 ==> s[1..][i - 1].key == k;
      }
    }
  }

  lemma {:induction false} ToMapAppend(s: seq<Entry>, e: Entry)
    requires forall i :: 0 <= i < |s| ==> s[i].key != e.key
    ensures ToMap(s + [e]) == ToMap(s)[e.key := e.val]
  {
    if s == [] {
      assert [e][1..] == [];
    } else {
      assert (s + [e])[1..] == s[1..] + [e];
      ToMapAppend(s[1..], e);
    }
  }

  lemma UniqueTail(s: seq<Entry>)
    requires UniqueKeys(s) && s != []
    ensures UniqueKeys(s[1..]) && forall x :: x in s[1..] ==> x in s && x.key != s[0].key
  {
    forall i, j | 0 <= i < j < |s[1..]|
      ensures s[1..][i].key != s[1..][j].key
    {
      assert s[1..][i] == s[i + 1] && s[1..][j] == s[j + 1];
    }
  }

  lemma UniqueCons(e: Entry, r: seq<Entry>)
    requires UniqueKeys(r) && forall x :: x in r ==> x.key != e.key
    ensures UniqueKeys([e] + r)
  {
    assert forall i :: 0 <= i < |r| ==> r[i] in r;
  }

  lemma UniqueSnoc(r: seq<Entry>, e: Entry)
    requires UniqueKeys(r) && forall x :: x in r ==> x.key != e.key
    ensures UniqueKeys(r + [e])
  {
    assert forall i :: 0 <= i < |r| ==> r[i] in r;
  }

  lemma {:induction false} RemoveElements(s: seq<Entry>, k: Key)
    requires UniqueKeys(s)
    ensures forall x :: x in Remove(s, k) ==> x in s && x.key != k
    ensures UniqueKeys(Remove(s, k))
  {
    hide UniqueKeys;
    if s == [] {
    } else {
      UniqueTail(s);
      if s[0].key != k {
        RemoveElements(s[1..], k);
        UniqueCons(s[0], Remove(s[1..], k));
      }
    }
  }

  lemma {:induction false} ToMapRemove(s: seq<Entry>, k: Key)
    requires UniqueKeys(s)
    ensures ToMap(Remove(s, k)) == ToMap(s) - {k}
  {
    if s != [] {
      assert forall i :: 0 <= i < |s[1..]| ==> s[1..][i].key == s[i + 1].key;
      LookupIsGet(s[1..], k);
      if s[0].key != k {
        ToMapRemove(s[1..], k);
        assert Remove(s, k)[1..] == Remove(s[1..], k);
      }
    }
  }

  lemma PutOver(m: map<Key, int>, k: Key, v: int)
    ensures (m - {k})[k := v] == m[k := v]
  {
  }

  lemma ReplaceMap(s: seq<Entry>, k: Key, v: int)
    requires UniqueKeys(s)
    ensures ToMap(Remove(s, k) + [Entry(k, v)]) == ToMap(s)[k := v]
    ensures UniqueKeys(Remove(s, k) + [Entry(k, v)])
  {
    hide ToMap, Remove, UniqueKeys;
    var r := Remove(s, k);
    RemoveElements(s, k);
    ToMapRemove(s, k);
    assert forall i :: 0 <= i < |r| ==> r[i] in r;
    UniqueSnoc(r, Entry(k, v));
    ToMapAppend(r, Entry(k, v));
    PutOver(ToMap(s), k, v);
  }

  lemma {:induction false} AtMostOnce(s: seq<Entry>, e: Entry)
    requires UniqueKeys(s)
    ensures multiset(s)[e] <= 1
  {
    if s != [] {
      UniqueTail(s);
      AtMostOnce(s[1..], e);
      assert s == [s[0]] + s[1..];
      if s[0] == e {
        assert e !in s[1..];
      }
    }
  }

  lemma Twice(s: seq<Entry>, i: nat, j: nat)
    requires i < j < |s| && s[i] == s[j]
    ensures multiset(s)[s[i]] >= 2
  {
    assert s == s[..j] + [s[j]] + s[j + 1..];
    assert s[..j][i] in multiset(s[..j]);
  }

  lemma {:induction false} ToMapHas(s: seq<Entry>, k: Key, v: int)
    requires UniqueKeys(s)
    ensures Get(ToMap(s), k) == Some(v) <==> Entry(k, v) in s
  {
    hide UniqueKeys;
    if s != [] {
      UniqueTail(s);
      ToMapHas(s[1..], k, v);
      assert s == [s[0]] + s[1..];
    }
  }

  lemma SameElements(s: seq<Entry>, r: seq<Entry>)
    requires multiset(r) == multiset(s)
    ensures forall e :: e in s <==> e in r
  {
    assert forall e :: e in s <==> e in multiset(s);
    assert forall e :: e in r <==> e in multiset(r);
  }

  lemma PermUnique(s: seq<Entry>, r: seq<Entry>)
    requires UniqueKeys(s) && multiset(r) == multiset(s)
    ensures UniqueKeys(r)
  {
    SameElements(s, r);
    forall i, j | 0 <= i < j < |r|
      ensures r[i].key != r[j].key
    {
      if r[i] == r[j] {
        Twice(r, i, j);
        AtMostOnce(s, r[i]);
      } else {
        assert r[i] in s && r[j] in s;
      }
    }
  }

  /** Entries in another order stand for the same map. */
  lemma PermMap(s: seq<Entry>, r: seq<Entry>)
    requires UniqueKeys(s) && multiset(r) == multiset(s)
    ensures UniqueKeys(r) && ToMap(r) == ToMap(s)
  {
    hide UniqueKeys, ToMap;
    PermUnique(s, r);
    SameElements(s, r);
    var a, b := ToMap(s), ToMap(r);
    forall k | k in a || k in b
      ensures Get(a, k) == Get(b, k)
    {
      ToMapHas(s, k, if k in a then a[k] else b[k]);
      ToMapHas(r, k, if k in a then a[k] else b[k]);
    }
    assert forall k :: k in a || k in b ==> Get(a, k) == Get(b, k);
  }

  /** Sorting is a stable sort of the entries, whenever the comparator orders their values. */
  lemma SortIsStable(s: seq<Entry>, cmp: (int, int) -> int)
    requires StableSort.PreorderOn(LeOf(cmp), s)
    ensures StableSort.StableSortOf(LeOf(cmp), s, Step(s, Sort(cmp)).0)
  {
    StableSort.SortCorrect(LeOf(cmp), s);
  }

  /** One command does to the list what it does to the map, reports the same, and keeps keys unique. */
  lemma StepIsMapStep(s: seq<Entry>, c: Cmd)
    requires UniqueKeys(s)
    ensures var (s', out) := Step(s, c);
      UniqueKeys(s') && (ToMap(s'), out) == MapStep(ToMap(s), c)
  {
    match c {
      case Find(k) =>
        LookupIsGet(s, k);
      case Put(k, v) =>
        LookupIsGet(s, k);
        if k !in ToMap(s) {
          ToMapAppend(s, Entry(k, v));
        }
      case Replace(k, v) =>
        LookupIsGet(s, k);
        ReplaceMap(s, k, v);
      case Delete(k) =>
        LookupIsGet(s, k);
        RemoveElements(s, k);
        ToMapRemove(s, k);
      case Clear =>
      case Sort(cmp) =>
        StableSort.PassesPerm(LeOf(cmp), s, 1);
        PermMap(s, StableSort.Passes(LeOf(cmp), s, 1));
    }
  }

  /** Over every run the list reports exactly what a plain map reports. */
  lemma {:induction false} RunIsMapRun(s: seq<Entry>, cs: seq<Cmd>)
    requires UniqueKeys(s)
    ensures var (end, outs) := Run(s, cs);
      UniqueKeys(end) && (ToMap(end), outs) == MapRun(ToMap(s), cs)
    decreases |cs|
  {
    if cs != [] {
      StepIsMapStep(s, cs[0]);
      RunIsMapRun(Step(s, cs[0]).0, cs[1..]);
    }
  }

  /** No sort of the run meets a list too long for its 32-bit run lengths. */
  predicate Sortable(s: seq<Entry>, cs: seq<Cmd>)
    decreases |cs|
  {
    cs == [] || ((cs[0].Sort? ==> |s| < UINT_RANGE) && Sortable(Step(s, cs[0]).0, cs[1..]))
  }

  lemma {:induction false} SortableAt(s: seq<Entry>, cs: seq<Cmd>, i: nat)
    requires Sortable(s, cs) && i < |cs| && cs[i].Sort?
    ensures |Run(s, cs[..i]).0| < UINT_RANGE
    decreases i
  {
    if i > 0 {
      assert cs[..i][1..] == cs[1..][..i - 1];
      SortableAt(Step(s, cs[0]).0, cs[1..], i - 1);
    }
  }

  lemma {:induction false} RemoveShortens(s: seq<Entry>, k: Key)
    ensures |Remove(s, k)| <= |s|
  {
    if s != [] {
      RemoveShortens(s[1..], k);
    }
  }

  /** A run that begins with a short list and is short itself can sort at any time. */
  lemma {:induction false} ShortIsSortable(s: seq<Entry>, cs: seq<Cmd>)
    requires |s| + |cs| <= UINT_RANGE
    ensures Sortable(s, cs)
    decreases |cs|
  {
    if cs != [] {
      if cs[0].Replace? || cs[0].Delete? {
        RemoveShortens(s, cs[0].key);
      }
      ShortIsSortable(Step(s, cs[0]).0, cs[1..]);
    }
  }

  lemma {:induction false} RunSnoc(s: seq<Entry>, cs: seq<Cmd>, c: Cmd)
    ensures var (s', outs) := Run(s, cs);
      Run(s, cs + [c]) == (Step(s', c).0, outs + [Step(s', c).1])
    decreases |cs|
  {
    if cs == [] {
      assert cs + [c] == [c] && [c][1..] == [];
      var (t, out) := Step(s, c);
      assert Run(t, []) == (t, []);
      assert [out] + Run(t, []).1 == Run(s, []).1 + [out];
    } else {
      assert (cs + [c])[1..] == cs[1..] + [c] && (cs + [c])[0] == cs[0];
      var (t, out) := Step(s, cs[0]);
      RunSnoc(t, cs[1..], c);
      var (s', outs) := Run(t, cs[1..]);
      var x := Step(s', c).1;
      assert [out] + (outs + [x]) == ([out] + outs) + [x];
    }
  }
}

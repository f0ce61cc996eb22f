/**
 A conforming server: a table in handle order that answers a request for a range with a page, that
 is, with any nonempty run of the first matches whose elements have one length.
 */
module GattServer {
  import opened Basics
  import opened Bytes
  import opened AttCodes
  import opened Att

  /** The entries of the table whose handles lie in [lo, hi], in table order. */
  function Between<T>(t: seq<T>, key: T -> nat, lo: nat, hi: int): (r: seq<T>)
    ensures |r| <= |t| && forall x :: x in r ==> x in t && lo <= key(x) <= hi
  {
    if t == [] then []
    else (if lo <= key(t[0]) <= hi then [t[0]] else []) + Between(t[1..], key, lo, hi)
  }

  ghost predicate Ascending<T>(t: seq<T>, key: T -> nat) {
    forall i, j :: 0 <= i < j < |t| ==> key(t[i]) < key(t[j])
  }

  lemma {:induction false} NoneBetween<T>(t: seq<T>, key: T -> nat, lo: nat, hi: int)
    requires forall x :: x in t ==> !(lo <= key(x) <= hi)
    ensures Between(t, key, lo, hi) == []
  {
    if t != [] {
      assert t[0] in t;
      NoneBetween(t[1..], key, lo, hi);
    }
  }

  lemma {:induction false} SameBetween<T>(t: seq<T>, key: T -> nat, lo: nat, lo': nat, hi: nat)
    requires forall x :: x in t ==> (lo <= key(x) <= hi <==> lo' <= key(x) <= hi)
    ensures Between(t, key, lo, hi) == Between(t, key, lo', hi)
  {
    if t != [] {
      assert t[0] in t;
      SameBetween(t[1..], key, lo, lo', hi);
    }
  }

  lemma AboveFirst<T>(t: seq<T>, key: T -> nat)
    requires Ascending(t, key) && t != []
    ensures Ascending(t[1..], key) && (forall x :: x in t[1..] ==> x in t && key(t[0]) < key(x))
    ensures forall x :: x in t ==> x == t[0] || x in t[1..]
  {
    var u := t[1..];
    assert forall i :: 0 <= i < |u| ==> u[i] == t[i + 1];
    forall x | x in t
      ensures x == t[0] || x in u
    {
      var i :| 0 <= i < |t| && t[i] == x;
      if i > 0 {
        assert u[i - 1] == x;
      }
    }
  }

  /** After the first j matches, the others are what a request from just behind them matches. */
  lemma {:induction false} BetweenRest<T>(t: seq<T>, key: T -> nat, lo: nat, hi: nat, j: nat, cut: nat)
    requires Ascending(t, key) && 1 <= j <= |Between(t, key, lo, hi)| && lo <= cut
    requires var m := Between(t, key, lo, hi); key(m[j - 1]) < cut
    requires var m := Between(t, key, lo, hi); forall x :: x in t && key(x) > key(m[j - 1]) ==> key(x) >= cut
    ensures Between(t, key, lo, hi)[j..] == Between(t, key, cut, hi)
  {
    hide Ascending;
    var m := Between(t, key, lo, hi);
    var u := t[1..];
    AboveFirst(t, key);
    if !(lo <= key(t[0]) <= hi) {
      assert m == Between(u, key, lo, hi);
      BetweenRest(u, key, lo, hi, j, cut);
    } else if j == 1 {
      assert m[0] == t[0] && m[1..] == Between(u, key, lo, hi);
      SameBetween(u, key, lo, cut, hi);
    } else {
      assert m[1..] == Between(u, key, lo, hi) && m[1..][j - 1..] == m[j..] && m[j - 1] == m[1..][j - 2];
      BetweenRest(u, key, lo, hi, j - 1, cut);
    }
  }

  lemma BetweenFirst<T>(t: seq<T>, key: T -> nat, lo: nat, hi: int)
    requires t != []
    ensures lo <= key(t[0]) <= hi ==> Between(t, key, lo, hi) == [t[0]] + Between(t[1..], key, lo, hi)
    ensures !(lo <= key(t[0]) <= hi) ==> Between(t, key, lo, hi) == Between(t[1..], key, lo, hi)
  {
  }

  lemma NoneBelow<T>(t: seq<T>, key: T -> nat, lo: nat, cut: nat)
    requires Ascending(t, key) && t != []
    ensures Ascending(t[1..], key)
    ensures cut <= key(t[0]) ==> Between(t, key, lo, cut - 1) == Between(t[1..], key, lo, cut - 1) == []
  {
    hide Ascending, Between;
    AboveFirst(t, key);
    if cut <= key(t[0]) {
      NoneBetween(t, key, lo, cut - 1);
      NoneBetween(t[1..], key, lo, cut - 1);
    }
  }

  lemma OneMore<T>(x: T, whole: seq<T>, low: seq<T>, high: seq<T>)
    requires whole == low + high
    ensures [x] + whole == ([x] + low) + high
    ensures low == [] ==> [x] + whole == [] + ([x] + high)
  {
  }

  /** The entries of a range are those below a handle in it, and then those from this handle on. */
  lemma {:induction false} BetweenSplit<T>(t: seq<T>, key: T -> nat, lo: nat, hi: nat, cut: nat)
    requires Ascending(t, key) && lo <= cut <= hi + 1
    ensures Between(t, key, lo, hi) == Between(t, key, lo, cut - 1) + Between(t, key, cut, hi)
  {
    if t != [] {
      hide Ascending, Between;
      var u := t[1..];
      NoneBelow(t, key, lo, cut);
      BetweenSplit(u, key, lo, hi, cut);
      OneMore(t[0], Between(u, key, lo, hi), Between(u, key, lo, cut - 1), Between(u, key, cut, hi));
      BetweenFirst(t, key, lo, hi);
      if key(t[0]) < cut {
        BetweenFirst(t, key, lo, cut - 1);
        BetweenFirst(t, key, cut, hi);
      } else {
        BetweenFirst(t, key, cut, hi);
      }
    }
  }

  /** Every entry owns the handles from its key to its end, and they do not overlap. */
  ghost predicate Spaced<T>(t: seq<T>, key: T -> nat, end: T -> nat) {
    && (forall x :: x in t ==> key(x) <= end(x))
    && (forall i, j :: 0 <= i < j < |t| ==> end(t[i]) < key(t[j]))
  }

  lemma SpacedAscends<T>(t: seq<T>, key: T -> nat, end: T -> nat)
    requires Spaced(t, key, end)
    ensures Ascending(t, key)
    ensures forall x, y :: x in t && y in t && key(y) > key(x) ==> key(y) > end(x)
  {
    assert forall i :: 0 <= i < |t| ==> t[i] in t && key(t[i]) <= end(t[i]);
    forall x, y | x in t && y in t && key(y) > key(x)
      ensures key(y) > end(x)
    {
      var a, b :| 0 <= a < |t| && 0 <= b < |t| && t[a] == x && t[b] == y;
      assert a < b;
    }
  }

  lemma OwnsKey<T>(t: seq<T>, key: T -> nat, end: T -> nat, x: T)
    requires Spaced(t, key, end) && x in t
    ensures key(x) <= end(x)
  {
  }

  /** After the first j matches the rest are asked for from behind the last of them, or from behind what it owns. */
  lemma CutHere<T>(t: seq<T>, key: T -> nat, end: T -> nat, lo: nat, hi: nat, j: nat)
    requires Spaced(t, key, end) && 1 <= j <= |Between(t, key, lo, hi)|
    ensures var m := Between(t, key, lo, hi); var last := m[j - 1];
      && last in t && lo <= key(last) <= hi
      && m[j..] == Between(t, key, key(last) + 1, hi) == Between(t, key, end(last) + 1, hi)
      && (end(last) >= hi ==> m[j..] == [])
  {
    hide Spaced, Between;
    var m := Between(t, key, lo, hi);
    var last := m[j - 1];
    assert last in m;
    SpacedAscends(t, key, end);
    OwnsKey(t, key, end, last);
    BetweenRest(t, key, lo, hi, j, key(last) + 1);
    BetweenRest(t, key, lo, hi, j, end(last) + 1);
    if end(last) >= hi {
      NoneBetween(t, key, end(last) + 1, hi);
    }
  }

  /** The matches up to a handle behind the first j of them: these j, and then the ones in between. */
  lemma UpTo<T>(t: seq<T>, key: T -> nat, end: T -> nat, lo: nat, hi: nat, j: nat, to: nat)
    requires Spaced(t, key, end) && 1 <= j <= |Between(t, key, lo, hi)|
    requires end(Between(t, key, lo, hi)[j - 1]) <= to <= hi
    ensures var m, low := Between(t, key, lo, hi), Between(t, key, lo, to);
      j <= |low| && low[..j] == m[..j] && low[j..] == Between(t, key, end(m[j - 1]) + 1, to)
  {
    hide Spaced, Between;
    var next := end(Between(t, key, lo, hi)[j - 1]) + 1;
    CutHere(t, key, end, lo, hi, j);
    OwnsKey(t, key, end, Between(t, key, lo, hi)[j - 1]);
    SpacedAscends(t, key, end);
    BetweenSplit(t, key, lo, hi, next);
    BetweenSplit(t, key, lo, to, next);
  }

  // ----- failing requests -----

  /**
   Which request of a discovery fails, if one does before it ends, and the handle that this request asks from:
   faults(i) is the status of the i-th request, and next(from, i) where an answered one is followed up.
   */
  ghost function Failing(next: (U16, nat) -> Option<U16>, faults: Faults, start: U16, i: nat, n: nat):
      Option<(nat, U16)>
    decreases n
  {
    if n == 0 then None
    else if faults(i) != 0 then Some((i, start))
    else
      match next(start, i)
      case None => None
      case Some(from) => Failing(next, faults, from, i + 1, n - 1)
  }

  /** The last handle that the requests answered before the failing one have covered. */
  function Covered(failing: Option<(nat, U16)>, end: nat): int {
    if failing.Some? then failing.value.1 - 1 else end
  }

  lemma {:induction false} FailingIs(next: (U16, nat) -> Option<U16>, faults: Faults, start: U16, i: nat, n: nat)
    ensures var r := Failing(next, faults, start, i, n);
      r.Some? ==> i <= r.value.0 < i + n && faults(r.value.0) != 0 && forall j :: i <= j < r.value.0 ==> faults(j) == 0
    decreases n
  {
    if n != 0 && faults(i) == 0 && next(start, i).Some? {
      FailingIs(next, faults, next(start, i).value, i + 1, n - 1);
    }
  }

  lemma NeverFails(next: (U16, nat) -> Option<U16>, start: U16, n: nat)
    ensures Failing(next, NEVER, start, 0, n) == None
  {
    FailingIs(next, NEVER, start, 0, n);
  }

  // ----- pages -----

  function Encoded<T>(m: seq<T>, enc: T -> seq<Byte>): (r: seq<seq<Byte>>)
    ensures |r| == |m| && forall i :: 0 <= i < |m| ==> r[i] == enc(m[i])
  {
    seq(|m|, i requires 0 <= i < |m| => enc(m[i]))
  }

  /** How many of the first matches are encoded in the length of the very first. */
  function Lead<T>(m: seq<T>, enc: T -> seq<Byte>, k: nat): (n: nat)
    ensures n <= |m| && forall i :: 0 <= i < n ==> |enc(m[i])| == k
    ensures m != [] && |enc(m[0])| == k ==> n >= 1
  {
    if m == [] || |enc(m[0])| != k then 0 else 1 + Lead(m[1..], enc, k)
  }

  /** The server may send fewer, but at least one. */
  function Chosen<T>(m: seq<T>, enc: T -> seq<Byte>, want: nat): (n: nat)
    requires m != []
    ensures 1 <= n <= |m| && forall i :: 0 <= i < n ==> |enc(m[i])| == |enc(m[0])|
  {
    var n := Lead(m, enc, |enc(m[0])|);
    if want == 0 then 1 else Min(want, n)
  }

  function PageList<T>(m: seq<T>, enc: T -> seq<Byte>, want: nat): (l: DataList)
    requires m != [] && (forall x :: x in m ==> |enc(x)| < 256) && |m| < 0x1_0000
    ensures l.Valid() && l.len == |enc(m[0])|
  {
    var p := m[..Chosen(m, enc, want)];
    DataList(|enc(m[0])|, Encoded(p, enc))
  }

  lemma CutStep(e: seq<Byte>, f: seq<Byte>, k: nat, n: nat)
    requires 0 < k == |e| <= n <= |e| + |f|
    ensures Pieces((e + f)[..n], k) == [e] + Pieces(f[..n - k], k)
  {
    var b := (e + f)[..n];
    assert b[..k] == e && b[k..] == f[..n - k];
  }

  /** A byte string cut anywhere still holds its leading whole pieces. */
  lemma {:induction false} PiecesOfCut(es: seq<seq<Byte>>, k: nat, n: nat)
    requires k > 0 && AllLen(es, k) && n <= |Flat(es)|
    ensures Pieces(Flat(es)[..n], k) == Fitting(es, n, k)
    decreases |es|
  {
    if es != [] {
      assert es[0] in es;
      if n >= k {
        PiecesOfCut(es[1..], k, n - k);
        CutStep(es[0], Flat(es[1..]), k, n);
      }
    }
  }

  lemma {:induction false} FittingTwice(es: seq<seq<Byte>>, k: nat, n: nat, room: nat)
    requires AllLen(es, k)
    ensures Fitting(Fitting(es, room, k), n, k) <= es
    decreases |es|
  {
    if es != [] && room >= k && n >= k {
      FittingTwice(es[1..], k, n - k, room - k);
    }
  }

  /** In a buffer that takes a whole element, none is cut. */
  lemma WholeElements(list: DataList, mtu: nat)
    requires list.Valid() && mtu >= 2 + list.len
    ensures ReadByTypeResp(list, mtu) == EncList(ATT_OP_READ_BY_TYPE_RESP, list.len, list, mtu)
  {
    CutWhole(list.data, list.len);
  }

  lemma FirstIn(data: seq<seq<Byte>>, k: nat, room: nat, n: nat)
    requires data != [] && AllLen(data, k) && room >= k && n == Min(|Flat(Fitting(data, room, k))|, RX_BUFFER - 2)
    requires 1 <= k <= 21
    ensures Fitting(Fitting(data, room, k), n, k) != []
  {
    assert data[0] in data;
  }

  /**
   However the page is cut, by the server's buffer or the client's, it carries a nonempty run of the first
   matches.
   */
  lemma ClippedPage(opcode: Byte, list: DataList, mtu: nat)
    requires list.Valid() && list.data != [] && 1 <= list.len <= 21 && mtu >= 23
    ensures var pdu := Clip(EncList(opcode, list.len, list, mtu));
      && |pdu| >= 2 && pdu[0] == opcode && pdu[1] == list.len
      && Pieces(pdu[2..], list.len) != [] && Pieces(pdu[2..], list.len) <= list.data
  {
    hide Flat, Fitting, Pieces;
    var k, es := list.len, Fitting(list.data, mtu - 2, list.len);
    var f := Flat(es);
    var n := Min(|f|, RX_BUFFER - 2);
    assert Clip(EncList(opcode, k, list, mtu))[2..] == f[..n];
    PrefixLen(list.data, es, k);
    PiecesOfCut(es, k, n);
    FittingTwice(list.data, k, n, mtu - 2);
    FirstIn(list.data, k, mtu - 2, n);
  }

  /** A page of matches, as the client receives it, holds the encodings of the first j matches for some j >= 1. */
  lemma PageCarries<T>(m: seq<T>, enc: T -> seq<Byte>, want: nat, opcode: Byte, mtu: nat) returns (j: nat)
    requires m != [] && (forall x :: x in m ==> 1 <= |enc(x)| <= 21) && |m| < 0x1_0000 && mtu >= 23
    ensures 1 <= j <= |m|
    ensures var list := PageList(m, enc, want);
      var pdu := Clip(EncList(opcode, list.len, list, mtu));
      && |pdu| >= 2 && pdu[0] == opcode && pdu[1] == list.len == |enc(m[0])|
      && Pieces(pdu[2..], list.len) == Encoded(m[..j], enc)
  {
    hide Lead, Clip, EncList, Pieces;
    var list := PageList(m, enc, want);
    ClippedPage(opcode, list, mtu);
    var es := Pieces(Clip(EncList(opcode, list.len, list, mtu))[2..], list.len);
    j := |es|;
    assert es == list.data[..j];
    assert Encoded(m[..j], enc) == es;
  }
}

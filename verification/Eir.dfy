/** Advertising packets as sequences of records, and the parser that splits them. */
module Eir {
  import opened Basics
  import opened Bytes

  const ADV_TYPE_INVALID: Byte := 0
  const RECORD_DATA := 30

  /** A record as it is sent: a type that is not zero, and at most 254 bytes. */
  datatype Record = Record(kind: Byte, data: seq<Byte>) {
    predicate Valid() {
      kind != ADV_TYPE_INVALID && |data| <= 254
    }
  }

  function Put(r: Record): (b: seq<Byte>)
    requires r.Valid()
    ensures |b| == 2 + |r.data|
  {
    [|r.data| + 1, r.kind] + r.data
  }

  ghost predicate AllValid(rs: seq<Record>) {
    forall r :: r in rs ==> r.Valid()
  }

  function Serialize(rs: seq<Record>): seq<Byte>
    requires forall r :: r in rs ==> r.Valid()
  {
    if rs == [] then []
    else
      assert rs[0] in rs;
      Put(rs[0]) + Serialize(rs[1..])
  }

  /** Nothing, or a zero length byte and anything behind it. */
  predicate Padding(p: seq<Byte>) {
    p == [] || p[0] == 0
  }

  /** Every record that a parser will look at has its type; the last one may be cut. The original does not check. */
  predicate Typed(data: seq<Byte>)
    decreases |data|
  {
    data == [] || data[0] == 0 ||
    (|data| > 1 && (data[1] == ADV_TYPE_INVALID || 1 + data[0] >= |data| || Typed(data[1 + data[0]..])))
  }

  /** Every record that a parser will look at lies within the packet. */
  predicate Complete(data: seq<Byte>): (c: bool)
    ensures c ==> Typed(data)
    decreases |data|
  {
    data == [] || data[0] == 0 ||
    (|data| > 1 && (data[1] == ADV_TYPE_INVALID || (1 + data[0] <= |data| && Complete(data[1 + data[0]..]))))
  }

  /** The records of a packet, up to a zero length or a zero type. */
  function Scan(data: seq<Byte>): (rs: seq<Record>)
    requires Typed(data)
    ensures AllValid(rs)
    decreases |data|
  {
    if data == [] || data[0] == 0 || data[1] == ADV_TYPE_INVALID then []
    else
      var end := Min(data[0] as nat + 1, |data|);
      [Record(data[1], data[2..end])] + Scan(data[end..])
  }

  lemma ScanFirst(b: seq<Byte>)
    requires |b| > 1 && b[0] != 0 && b[1] != ADV_TYPE_INVALID && 1 + b[0] <= |b|
    ensures Complete(b) <==> Complete(b[1 + b[0]..])
    ensures Complete(b) ==> Scan(b) == [Record(b[1], b[2..1 + b[0]])] + Scan(b[1 + b[0]..])
  {
  }

  lemma ScanOne(r: Record, tail: seq<Byte>)
    requires r.Valid() && Complete(tail)
    ensures Complete(Put(r) + tail) && Scan(Put(r) + tail) == [r] + Scan(tail)
  {
    var b := Put(r) + tail;
    hide Scan, Complete, Typed;
    ScanFirst(b);
    assert b[0] == |r.data| + 1 && b[1] == r.kind && b[2..1 + b[0]] == r.data && b[1 + b[0]..] == tail;
  }

  lemma PaddingEnds(pad: seq<Byte>)
    requires Padding(pad)
    ensures Complete(pad) && Scan(pad) == []
  {
  }

  /** Parsing inverts serializing, whatever padding follows. */
  lemma {:induction false} ScanInverts(rs: seq<Record>, pad: seq<Byte>)
    requires AllValid(rs) && Padding(pad)
    ensures Complete(Serialize(rs) + pad) && Scan(Serialize(rs) + pad) == rs
    decreases |rs|
  {
    hide Put, Scan, Complete;
    if rs == [] {
      assert Serialize(rs) + pad == pad;
      PaddingEnds(pad);
    } else {
      assert rs[0] in rs && forall x :: x in rs[1..] ==> x in rs;
      ScanInverts(rs[1..], pad);
      var tail := Serialize(rs[1..]) + pad;
      ScanOne(rs[0], tail);
      assert Serialize(rs) + pad == Put(rs[0]) + tail;
    }
  }

  /** Where the record at a position ends, or the packet if that comes first. */
  function EndOf(data: seq<Byte>, at: nat): nat
    requires at < |data|
  {
    Min(at + 1 + data[at], |data|)
  }

  lemma Shifted(data: seq<Byte>, at: nat, end: nat)
    requires at + 2 <= at + end <= |data|
    ensures data[at..][2..end] == data[at + 2..at + end] && data[at..][end..] == data[at + end..]
  {
  }

  /** The parser at a position that is not the end: a record, or nothing more. */
  lemma NextRecord(data: seq<Byte>, at: nat, rs: seq<Record>, n: nat)
    requires at < |data| && Typed(data[at..]) && n <= |rs| && rs[n..] == Scan(data[at..])
    ensures data[at] == 0 ==> n == |rs|
    ensures data[at] != 0 ==> at + 1 < |data| && (data[at + 1] == ADV_TYPE_INVALID ==> n == |rs|)
    ensures data[at] != 0 && data[at + 1] != ADV_TYPE_INVALID ==>
      && n < |rs| && rs[n].kind == data[at + 1]
      && Typed(data[EndOf(data, at)..]) && rs[n + 1..] == Scan(data[EndOf(data, at)..])
    ensures data[at] != 0 && data[at + 1] != ADV_TYPE_INVALID && at + 1 + data[at] <= |data| ==>
      rs[n] == Record(data[at + 1], data[at + 2..at + 1 + data[at]])
    ensures data[at] != 0 && data[at + 1] != ADV_TYPE_INVALID && Complete(data[at..]) ==>
      at + 1 + data[at] <= |data| && Complete(data[EndOf(data, at)..])
  {
    var b := data[at..];
    if data[at] != 0 && data[at + 1] != ADV_TYPE_INVALID {
      var end := Min(b[0] as nat + 1, |b|);
      Shifted(data, at, end);
      assert rs[n..][0] == rs[n] && rs[n..][1..] == rs[n + 1..];
    }
  }

  /** One element of the caller's array. */
  datatype Slot = Slot(kind: Byte, length: Byte, data: seq<Byte>)

  predicate Holds(s: Slot, r: Record) {
    s.kind == r.kind && s.length == |r.data| <= |s.data| && s.data[..s.length] == r.data
  }

  /** A record copied into a slot; bytes behind it stay. */
  function Fill(s: Slot, r: Record): (t: Slot)
    requires r.Valid() && |r.data| <= |s.data|
    ensures Holds(t, r) && |t.data| == |s.data|
  {
    Slot(r.kind, |r.data|, r.data + s.data[|r.data|..])
  }

  /** Every slot has room for 30 bytes. */
  ghost predicate Slots(records: array?<Slot>)
    reads records
  {
    records != null ==> forall k :: 0 <= k < records.Length ==> |records[k].data| == RECORD_DATA
  }

  /** What the caller's array must offer for these records; without an array nothing is needed. */
  ghost predicate Fits(records: array?<Slot>, rs: seq<Record>)
    reads records
  {
    Slots(records)
    && (records != null ==> Min(|rs|, 256) <= records.Length && forall r :: r in rs ==> |r.data| <= RECORD_DATA)
  }

  /** The first n slots hold the first n records, and the others are as they were. */
  ghost predicate Stored(was: seq<Slot>, now: seq<Slot>, rs: seq<Record>, n: nat) {
    && n <= |rs| && n <= |now| == |was|
    && (forall k :: 0 <= k < n ==> Holds(now[k], rs[k]))
    && now[n..] == was[n..]
  }

  lemma NothingLeft()
    ensures Scan([]) == []
  {
  }

  lemma StoredNext(was: seq<Slot>, mid: seq<Slot>, rs: seq<Record>, n: nat)
    requires Stored(was, mid, rs, n) && n < |rs| && n < |mid| && rs[n].Valid() && |rs[n].data| <= |mid[n].data|
    ensures Stored(was, mid[n := Fill(mid[n], rs[n])], rs, n + 1)
  {
    hide Holds;
    var now := mid[n := Fill(mid[n], rs[n])];
    assert now[n + 1..] == mid[n..][1..] && was[n + 1..] == was[n..][1..];
  }

  /** The n-th record goes to the slot its 8-bit index names. */
  method Store(records: array<Slot>, index: Byte, r: Record, ghost was: seq<Slot>, ghost rs: seq<Record>, ghost n: nat)
    requires index < records.Length && Slots(records) && r.Valid() && |r.data| <= RECORD_DATA
    requires |rs| < 256 ==> index == n < |rs| && rs[n] == r && Stored(was, records[..], rs, n)
    modifies records
    ensures Slots(records) && (|rs| < 256 ==> Stored(was, records[..], rs, n + 1))
  {
    hide Holds;
    ghost var mid := records[..];
    records[index] := Fill(records[index], r);
    if |rs| < 256 {
      StoredNext(was, mid, rs, n);
      assert records[..] == mid[n := Fill(mid[n], rs[n])];
    }
  }

  lemma Bump(n: nat)
    ensures (n % 256 + 1) % 256 == (n + 1) % 256 && (n < 256 ==> n % 256 == n)
  {
  }

  lemma IndexInArray(n: nat, count: nat, length: nat)
    requires n < count && Min(count, 256) <= length
    ensures n % 256 < length
  {
  }

  lemma NoneStored(was: seq<Slot>, rs: seq<Record>)
    ensures Stored(was, was, rs, 0)
  {
  }

  /** ble_adv_parse_scan: the record index has eight bits. */
  method BleAdvParseScan(data: seq<Byte>, records: array?<Slot>) returns (count: nat)
    requires |data| < 0x8000_0000 && Typed(data) && (records != null ==> Complete(data)) && Fits(records, Scan(data))
    modifies if records != null then {records} else {}
    ensures count == |Scan(data)| % 256
    ensures records != null && |Scan(data)| < 256 ==> Stored(old(records[..]), records[..], Scan(data), count)
  {
    hide Scan, Complete, Typed, Stored, Slots, Holds;
    ghost var rs := Scan(data);
    ghost var was := if records != null then records[..] else [];
    ghost var n := 0;
    var index: Byte := 0;
    var i := 0;
    assert data[0..] == data && data[|data|..] == [] && rs[0..] == rs;
    NothingLeft();
    NoneStored(was, rs);
    while i < |data|
      invariant 0 <= i && Typed(data[Min(i, |data|)..]) && (records != null ==> Complete(data[Min(i, |data|)..]))
      invariant n <= |rs| && rs[n..] == Scan(data[Min(i, |data|)..]) && index == n % 256
      invariant Slots(records) && (records != null && |rs| < 256 ==> Stored(was, records[..], rs, n))
    {
      NextRecord(data, i, rs, n);
      var len := data[i];
      i := i + 1;
      if len == 0 {
        break;
      }
      var kind := data[i];
      if kind == ADV_TYPE_INVALID {
        break;
      }
      if records != null {
        assert rs[n] in rs;
        IndexInArray(n, |rs|, records.Length);
        Store(records, index, Record(kind, data[i + 1..i + len]), was, rs, n);
      }
      Bump(n);
      index := (index + 1) % 256;
      n := n + 1;
      i := i + len;
    }
    count := index;
    Bump(n);
  }
}

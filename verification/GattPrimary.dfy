/**
 Discovery of primary services, all of them or those with one UUID: the callbacks, and why the
 whole exchange reports exactly the matching services of the server, however it is paged.
 */
module GattPrimary {
  import opened Basics
  import opened Bytes
  import opened BtUuid
  import opened AttCodes
  import opened Att
  import opened GattServer

  const GATT_PRIM_SVC_UUID: Uuid := Uuid16(0x2800)

  /** A service on the server. */
  datatype Service = Service(range: Range, uuid: Uuid) {
    predicate Valid() {
      uuid.Valid() && !uuid.Uuid32?
    }
  }

  /** What discovery of all services reports: struct gatt_primary. */
  datatype Primary = Primary(range: Range, uuid: string)

  datatype Next = Ask(start: U16) | Report(err: nat)

  function StartOf(s: Service): nat { s.range.start }

  /** Services in handle order that do not overlap. */
  ghost predicate ServiceTable(t: seq<Service>) {
    && |t| < 0x1_0000 && Ascending(t, StartOf)
    && (forall s :: s in t ==> s.Valid() && 1 <= s.range.start <= s.range.end)
    && (forall i, j :: 0 <= i < j < |t| ==> t[i].range.end < t[j].range.start)
  }

  function ErrOf(status: nat): nat {
    if status == ATT_ECODE_ATTR_NOT_FOUND then 0 else status
  }

  // ----- the callbacks -----

  /** primary_by_uuid_cb: the ranges collected so far and what follows. */
  function OnPrimaryByUuid(primaries: seq<Range>, status: nat, pdu: seq<Byte>): (seq<Range>, Next) {
    if status != 0 then (primaries, Report(ErrOf(status)))
    else
      var ranges := DecodeFindByType(pdu);
      if ranges == [] then (primaries, Report(0))
      else
        var all, last := primaries + ranges, ranges[|ranges| - 1];
        if last.end == 0xFFFF then (all, Report(0)) else (all, Ask(last.end + 1))
  }

  /** The callback can read this response: its elements have a length that is not zero, and hold two handles. */
  predicate Sound(pdu: seq<Byte>) {
    |pdu| >= 2 && (pdu[0] == ATT_OP_READ_BY_GROUP_RESP ==>
      pdu[1] != 0 && (Pieces(pdu[2..], pdu[1]) == [] || pdu[1] >= 4))
  }

  /** One element of a page; elements of any length but 6 and 20 are skipped. */
  function PrimaryOf(e: seq<Byte>): seq<Primary>
    requires |e| >= 4
  {
    if |e| == 6 then [Primary(GetRange(e), ToString(To128(Uuid16(Get16(e[4..])))))]
    else if |e| == 20 then [Primary(GetRange(e), ToString(Uuid128(e[4..])))]
    else []
  }

  function PrimariesOf(es: seq<seq<Byte>>): seq<Primary>
    requires forall e :: e in es ==> |e| >= 4
  {
    if es == [] then []
    else
      assert es[0] in es;
      PrimaryOf(es[0]) + PrimariesOf(es[1..])
  }

  /** primary_all_cb. */
  function OnPrimaryAll(primaries: seq<Primary>, status: nat, pdu: seq<Byte>): (seq<Primary>, Next)
    requires status == 0 ==> Sound(pdu)
  {
    if status != 0 then (primaries, Report(ErrOf(status)))
    else
      match DecodeReadByGrp(pdu)
      case None => (primaries, Report(ATT_ECODE_IO))
      case Some(list) =>
        var end := if list.data == [] then 0 else GetRange(list.data[|list.data| - 1]).end;
        (primaries + PrimariesOf(list.data), if end != 0xFFFF then Ask(end + 1) else Report(0))
  }

  /**
   A response of another kind ends the discovery of all services with an I/O error, and the discovery by UUID
   without one; a response whose elements are neither of the two kinds of services adds none.
   */
  lemma OtherKindTold(ranges: seq<Range>, primaries: seq<Primary>, pdu: seq<Byte>)
    requires Sound(pdu)
    ensures pdu[0] != 0x11 ==> OnPrimaryAll(primaries, 0, pdu) == (primaries, Report(0x80))
    ensures pdu[0] != 0x07 || |pdu| < 5 ==> OnPrimaryByUuid(ranges, 0, pdu) == (ranges, Report(0))
    ensures pdu[0] == 0x11 && pdu[1] != 6 && pdu[1] != 20 ==> OnPrimaryAll(primaries, 0, pdu).0 == primaries
  {
    DecodersRefuse(pdu);
    if pdu[0] == 0x11 && pdu[1] != 6 && pdu[1] != 20 {
      NoneOf(Pieces(pdu[2..], pdu[1]));
      assert primaries + [] == primaries;
    }
  }

  lemma {:induction false} NoneOf(es: seq<seq<Byte>>)
    requires forall e :: e in es ==> |e| >= 4 && |e| != 6 && |e| != 20
    ensures PrimariesOf(es) == []
  {
    if es != [] {
      assert es[0] in es;
      NoneOf(es[1..]);
    }
  }

  lemma PrimariesSnoc(es: seq<seq<Byte>>, i: nat, done: seq<Primary>)
    requires i < |es| && forall e :: e in es ==> |e| >= 4
    ensures |es[i]| >= 4
    ensures done + PrimariesOf(es[i..]) == (done + PrimaryOf(es[i])) + PrimariesOf(es[i + 1..])
  {
    hide PrimaryOf;
    assert es[i] in es && es[i..][0] == es[i] && es[i..][1..] == es[i + 1..];
  }

  lemma NoPrimariesLeft(es: seq<seq<Byte>>, done: seq<Primary>)
    requires forall e :: e in es ==> |e| >= 4
    ensures es[0..] == es && done + PrimariesOf(es[|es|..]) == done && done + [] == done
  {
  }

  /** struct discover_primary, as the callbacks update it: one list for each kind of discovery. */
  class DiscoverPrimary {
    var ranges: seq<Range>
    var primaries: seq<Primary>

    constructor ()
      ensures ranges == [] && primaries == []
    {
      ranges, primaries := [], [];
    }

    method PrimaryByUuidCb(status: nat, pdu: seq<Byte>) returns (next: Next)
      modifies this`ranges
      ensures (ranges, next) == OnPrimaryByUuid(old(ranges), status, pdu)
    {
      if status != 0 {
        return Report(if status == ATT_ECODE_ATTR_NOT_FOUND then 0 else status);
      }
      var found := DecodeFindByType(pdu);
      if found == [] {
        return Report(0);
      }
      ranges := ranges + found;
      var range := found[|found| - 1];
      if range.end == 0xFFFF {
        return Report(0);
      }
      return Ask(range.end + 1);
    }

    method PrimaryAllCb(status: nat, pdu: seq<Byte>) returns (next: Next)
      requires status == 0 ==> Sound(pdu)
      modifies this`primaries
      ensures (primaries, next) == OnPrimaryAll(old(primaries), status, pdu)
    {
      hide Pieces, ToString, To128, PrimariesOf, GetRange;
      if status != 0 {
        return Report(if status == ATT_ECODE_ATTR_NOT_FOUND then 0 else status);
      }
      var list := DecodeReadByGrp(pdu);
      if list.None? {
        return Report(ATT_ECODE_IO);
      }
      var es := list.value.data;
      var end: U16 := 0;
      var i := 0;
      NoPrimariesLeft(es, primaries);
      while i < |es|
        invariant i <= |es| && end == if i == 0 then 0 else GetRange(es[i - 1]).end
        invariant primaries + PrimariesOf(es[i..]) == old(primaries) + PrimariesOf(es)
      {
        var data := es[i];
        PrimariesSnoc(es, i, primaries);
        NoPrimariesLeft(es, primaries);
        end := GetRange(data).end;
        i := i + 1;
        if |data| == 6 {
          primaries := primaries + [Primary(GetRange(data), ToString(To128(Uuid16(Get16(data[4..])))))];
        } else if |data| == 20 {
          primaries := primaries + [Primary(GetRange(data), ToString(Uuid128(data[4..])))];
        }
      }
      NoPrimariesLeft(es, primaries);
      if end != 0xFFFF {
        return Ask(end + 1);
      }
      return Report(0);
    }
  }

  // ----- what both discoveries share -----

  function EndOf(s: Service): nat { s.range.end }

  lemma ServicesSpaced(t: seq<Service>)
    requires ServiceTable(t)
    ensures Spaced(t, StartOf, EndOf) && forall s :: s in t ==> StartOf(s) <= EndOf(s) <= 0xFFFF
  {
  }

  // ----- services with one UUID -----

  predicate Holds(s: Service, value: seq<Byte>) {
    s.Valid() && PutUuid(s.uuid) == value
  }

  /** The services whose UUID is encoded by these bytes. */
  function Holders(t: seq<Service>, value: seq<Byte>): (r: seq<Service>)
    ensures |r| <= |t| && forall s :: s in r <==> s in t && Holds(s, value)
  {
    if t == [] then [] else (if Holds(t[0], value) then [t[0]] else []) + Holders(t[1..], value)
  }

  function Ranges(m: seq<Service>): (r: seq<Range>)
    ensures |r| == |m| && forall i :: 0 <= i < |m| ==> r[i] == m[i].range
  {
    seq(|m|, i requires 0 <= i < |m| => m[i].range)
  }

  lemma BelowAscends(s: Service, h: seq<Service>)
    requires Ascending(h, StartOf) && forall x :: x in h ==> s.range.start < x.range.start
    ensures Ascending([s] + h, StartOf)
  {
    var r := [s] + h;
    assert forall i :: 0 < i < |r| ==> r[i] == h[i - 1] && h[i - 1] in h;
  }

  lemma BelowTable(s: Service, h: seq<Service>)
    requires s.Valid() && 1 <= s.range.start <= s.range.end && ServiceTable(h) && |h| + 1 < 0x1_0000
    requires forall x :: x in h ==> s.range.end < x.range.start
    ensures ServiceTable([s] + h)
  {
    hide Ascending;
    var r := [s] + h;
    assert forall i :: 0 < i < |r| ==> r[i] == h[i - 1] && h[i - 1] in h;
    assert forall x :: x in r ==> x == s || x in h;
    BelowAscends(s, h);
  }

  lemma HeadTable(t: seq<Service>, h: seq<Service>)
    requires ServiceTable(t) && t != [] && ServiceTable(h) && |h| < |t| && forall s :: s in h ==> s in t[1..]
    ensures ServiceTable([t[0]] + h)
  {
    assert t[0] in t;
    forall s | s in h
      ensures t[0].range.end < s.range.start
    {
      var k :| 0 <= k < |t| - 1 && t[1..][k] == s;
      assert t[k + 1] == s;
    }
    BelowTable(t[0], h);
  }

  lemma TailTable(t: seq<Service>)
    requires ServiceTable(t) && t != []
    ensures ServiceTable(t[1..])
  {
    assert forall i :: 0 <= i < |t| - 1 ==> t[1..][i] == t[i + 1];
  }

  lemma {:induction false} HoldersTable(t: seq<Service>, value: seq<Byte>)
    requires ServiceTable(t)
    ensures ServiceTable(Holders(t, value))
  {
    if t != [] {
      TailTable(t);
      HoldersTable(t[1..], value);
      var h := Holders(t[1..], value);
      HeadTable(t, h);
      assert t[0] in t;
    }
  }

  /** The server's answer; `want` is how many matches it would like to send. */
  ghost function ServeByUuid(t: seq<Service>, mtu: nat, request: seq<Byte>, want: nat): (nat, seq<Byte>)
    requires ServiceTable(t) && mtu >= 23
  {
    match DecodeFindByTypeReq(request)
    case None => (ATT_ECODE_IO, [])
    case Some((start, end, u, value)) =>
      var m := if Same(u, Uuid16(0x2800)) then Between(Holders(t, value), StartOf, start, end) else [];
      if m == [] then (0x0A, [])
      else (0, Clip(FindByTypeResp(Ranges(m[..if want == 0 then 1 else Min(want, |m|)]), mtu)))
  }

  ghost function ExchangeByUuid(t: seq<Service>, start: U16, u: Uuid, mtu: nat, want: nat): (nat, seq<Byte>)
    requires ServiceTable(t) && mtu >= 23 && u.Valid() && !u.Uuid32?
  {
    ServeByUuid(t, mtu, FindByTypeReq(start, 0xFFFF, GATT_PRIM_SVC_UUID, PutUuid(u), mtu), want)
  }

  /**
   gatt_discover_primary for a UUID, from `start`, for at most n requests; wants(i) chooses the i-th page and
   faults(i) is the status with which the i-th request fails, zero if it is answered.
   */
  ghost function DiscoverByUuid(t: seq<Service>, start: U16, u: Uuid, mtu: nat, wants: nat -> nat, faults: Faults,
                                primaries: seq<Range>, i: nat, n: nat): Option<(seq<Range>, nat)>
    requires ServiceTable(t) && mtu >= 23 && u.Valid() && !u.Uuid32?
    decreases n
  {
    if n == 0 then None
    else
      var (status, pdu) := if faults(i) != 0 then (faults(i), []) else ExchangeByUuid(t, start, u, mtu, wants(i));
      var (all, next) := OnPrimaryByUuid(primaries, status, pdu);
      match next
      case Ask(from) => DiscoverByUuid(t, from, u, mtu, wants, faults, all, i + 1, n - 1)
      case Report(err) => Some((all, err))
  }

  function Onward(next: Next): Option<U16> {
    if next.Ask? then Some(next.start) else None
  }

  /** Where an answered request of this discovery is followed up. */
  ghost function FollowByUuid(t: seq<Service>, u: Uuid, mtu: nat, wants: nat -> nat): (U16, nat) -> Option<U16>
    requires ServiceTable(t) && mtu >= 23 && u.Valid() && !u.Uuid32?
  {
    (start: U16, i: nat) =>
      var (status, pdu) := ExchangeByUuid(t, start, u, mtu, wants(i));
      Onward(OnPrimaryByUuid([], status, pdu).1)
  }

  lemma ExchangeByUuidIs(t: seq<Service>, start: U16, u: Uuid, mtu: nat, want: nat)
    requires ServiceTable(t) && mtu >= 23 && u.Valid() && !u.Uuid32?
    ensures var m := Between(Holders(t, PutUuid(u)), StartOf, start, 0xFFFF);
      ExchangeByUuid(t, start, u, mtu, want) ==
        if m == [] then (ATT_ECODE_ATTR_NOT_FOUND, [])
        else (0, Clip(FindByTypeResp(Ranges(m[..if want == 0 then 1 else Min(want, |m|)]), mtu)))
  {
    FindByTypeReqRoundTrip(start, 0xFFFF, GATT_PRIM_SVC_UUID, PutUuid(u), mtu);
    assert PutUuid(u)[..|PutUuid(u)|] == PutUuid(u);
  }

  lemma FirstRangeIn(bs: seq<seq<Byte>>, room: nat)
    requires bs != [] && AllLen(bs, 4) && room >= 4
    ensures var f := Flat(Fitting(bs, room, 4));
      |f| >= 4 && Fitting(Fitting(bs, room, 4), Min(|f|, RX_BUFFER - 1), 4) != []
  {
    assert bs[0] in bs;
  }

  /** The receive buffer keeps the opcode and the front of what follows. */
  lemma CutBehind(opcode: Byte, f: seq<Byte>)
    ensures Clip([opcode] + f) == [opcode] + f[..Min(|f|, RX_BUFFER - 1)]
    ensures Clip([opcode] + f)[1..] == f[..Min(|f|, RX_BUFFER - 1)]
  {
  }

  /** A page reaches the client as the first j ranges. */
  lemma RangesDecode(rs: seq<Range>, mtu: nat) returns (j: nat)
    requires rs != [] && mtu >= 23
    ensures 1 <= j <= |rs| && DecodeFindByType(Clip(FindByTypeResp(rs, mtu))) == rs[..j]
  {
    hide Flat, Fitting, Pieces, PutRange, GetRange;
    var bs := PutRanges(rs);
    var es := Fitting(bs, mtu - 1, 4);
    var f := Flat(es);
    var n := Min(|f|, RX_BUFFER - 1);
    var pdu := Clip(FindByTypeResp(rs, mtu));
    CutBehind(ATT_OP_FIND_BY_TYPE_RESP, f);
    assert pdu[1..] == f[..n] && pdu[0] == ATT_OP_FIND_BY_TYPE_RESP;
    hide Clip, FindByTypeResp;
    PrefixLen(bs, es, 4);
    PiecesOfCut(es, 4, n);
    FittingTwice(bs, 4, n, mtu - 1);
    FirstRangeIn(bs, mtu - 1);
    var ps := Pieces(pdu[1..], 4);
    j := |ps|;
    assert ps == bs[..j];
    forall i | 0 <= i < j
      ensures GetRange(ps[i]) == rs[i]
    {
      assert ps[i] == bs[i];
      GetPutRange(rs[i]);
    }
  }

  lemma RangesConcat(a: seq<Service>, b: seq<Service>)
    ensures Ranges(a + b) == Ranges(a) + Ranges(b)
  {
  }

  lemma RangesSplit(m: seq<Service>, j: nat, done: seq<Range>)
    requires j <= |m|
    ensures (done + Ranges(m[..j])) + Ranges(m[j..]) == done + Ranges(m)
    ensures m[j..] == [] ==> done + Ranges(m[..j]) == done + Ranges(m)
  {
    hide Ranges;
    RangesConcat(m[..j], m[j..]);
    assert m == m[..j] + m[j..];
    if m[j..] == [] {
      assert m[..j] == m;
    }
  }

  lemma PageByUuid(t: seq<Service>, start: U16, u: Uuid, mtu: nat, want: nat, primaries: seq<Range>) returns (j: nat)
    requires ServiceTable(t) && mtu >= 23 && u.Valid() && !u.Uuid32?
    requires Between(Holders(t, PutUuid(u)), StartOf, start, 0xFFFF) != []
    ensures var m := Between(Holders(t, PutUuid(u)), StartOf, start, 0xFFFF);
      var (status, pdu) := ExchangeByUuid(t, start, u, mtu, want);
      && 1 <= j <= |m| && status == 0
      && OnPrimaryByUuid(primaries, 0, pdu) == (primaries + Ranges(m[..j]),
          if m[j - 1].range.end == 0xFFFF then Report(0) else Ask(m[j - 1].range.end + 1))
  {
    hide ExchangeByUuid, DecodeFindByType, FindByTypeResp, Clip, Between, Holders;
    var m := Between(Holders(t, PutUuid(u)), StartOf, start, 0xFFFF);
    ExchangeByUuidIs(t, start, u, mtu, want);
    var k := if want == 0 then 1 else Min(want, |m|);
    j := RangesDecode(Ranges(m[..k]), mtu);
    assert Ranges(m[..k])[..j] == Ranges(m[..j]);
  }

  lemma NoneByUuid(t: seq<Service>, start: U16, u: Uuid, mtu: nat, want: nat, primaries: seq<Range>)
    requires ServiceTable(t) && mtu >= 23 && u.Valid() && !u.Uuid32?
    requires Between(Holders(t, PutUuid(u)), StartOf, start, 0xFFFF) == []
    ensures var (status, pdu) := ExchangeByUuid(t, start, u, mtu, want);
      OnPrimaryByUuid(primaries, status, pdu) == (primaries, Report(0))
    ensures primaries + Ranges([]) == primaries
  {
    ExchangeByUuidIs(t, start, u, mtu, want);
  }

  lemma RangesUpTo(t: seq<Service>, start: U16, j: nat, to: nat, done: seq<Range>)
    requires ServiceTable(t) && 1 <= j <= |Between(t, StartOf, start, 0xFFFF)|
    requires Between(t, StartOf, start, 0xFFFF)[j - 1].range.end <= to <= 0xFFFF
    ensures var m := Between(t, StartOf, start, 0xFFFF);
      (done + Ranges(m[..j])) + Ranges(Between(t, StartOf, m[j - 1].range.end + 1, to))
        == done + Ranges(Between(t, StartOf, start, to))
  {
    hide ServiceTable, Between, Ranges, Spaced;
    ServicesSpaced(t);
    UpTo(t, StartOf, EndOf, start, 0xFFFF, j, to);
    RangesSplit(Between(t, StartOf, start, to), j, done);
  }

  /** A service that ends with the last handle is the last one. */
  lemma RangesEnd(t: seq<Service>, start: U16, j: nat, done: seq<Range>)
    requires ServiceTable(t) && 1 <= j <= |Between(t, StartOf, start, 0xFFFF)|
    ensures var m := Between(t, StartOf, start, 0xFFFF); var end := m[j - 1].range.end;
      start <= end && (end == 0xFFFF ==> done + Ranges(m[..j]) == done + Ranges(m))
  {
    hide ServiceTable, Between, Ranges, Spaced;
    ServicesSpaced(t);
    CutHere(t, StartOf, EndOf, start, 0xFFFF, j);
    RangesSplit(Between(t, StartOf, start, 0xFFFF), j, done);
  }

  lemma FollowByUuidIs(t: seq<Service>, start: U16, u: Uuid, mtu: nat, wants: nat -> nat, i: nat, primaries: seq<Range>)
    requires ServiceTable(t) && mtu >= 23 && u.Valid() && !u.Uuid32?
    ensures var (status, pdu) := ExchangeByUuid(t, start, u, mtu, wants(i));
      FollowByUuid(t, u, mtu, wants)(start, i) == Onward(OnPrimaryByUuid(primaries, status, pdu).1)
  {
    hide ExchangeByUuid, DecodeFindByType, ServiceTable;
  }

  lemma FailsByUuid(t: seq<Service>, start: U16, status: nat, primaries: seq<Range>)
    requires status != 0
    ensures OnPrimaryByUuid(primaries, status, []) == (primaries, Report(ErrOf(status)))
    ensures Between(t, StartOf, start, start - 1) == [] && primaries + Ranges([]) == primaries
  {
    NoneBetween(t, StartOf, start, start - 1);
  }

  /**
   Discovery by UUID, with faults on any requests, ends and reports the range of every service with this UUID
   that starts below the handle the first failing request asks from, or of all without a fault, once and in
   handle order. It tells a fault whether anything was found or not.
   */
  lemma {:induction false} DiscoverByUuidTells(t: seq<Service>, start: U16, u: Uuid, mtu: nat, wants: nat -> nat,
                                               faults: Faults, primaries: seq<Range>, i: nat, n: nat)
    requires ServiceTable(t) && mtu >= 23 && u.Valid() && !u.Uuid32? && n > 0xFFFF - start
    ensures var failing := Failing(FollowByUuid(t, u, mtu, wants), faults, start, i, n);
      && (failing.Some? ==> start <= failing.value.1)
      && var m := Between(Holders(t, PutUuid(u)), StartOf, start, Covered(failing, 0xFFFF));
      DiscoverByUuid(t, start, u, mtu, wants, faults, primaries, i, n)
        == Some((primaries + Ranges(m), if failing.Some? then ErrOf(faults(failing.value.0)) else 0))
    decreases n
  {
    hide ExchangeByUuid, OnPrimaryByUuid, ServiceTable, Between, Holders, FollowByUuid, ErrOf, PutUuid, Ranges;
    var h := Holders(t, PutUuid(u));
    var m := Between(h, StartOf, start, 0xFFFF);
    HoldersTable(t, PutUuid(u));
    FollowByUuidIs(t, start, u, mtu, wants, i, primaries);
    if faults(i) != 0 {
      FailsByUuid(h, start, faults(i), primaries);
    } else if m == [] {
      NoneByUuid(t, start, u, mtu, wants(i), primaries);
    } else {
      var j := PageByUuid(t, start, u, mtu, wants(i), primaries);
      RangesEnd(h, start, j, primaries);
      var end := m[j - 1].range.end;
      if end != 0xFFFF {
        DiscoverByUuidTells(t, end + 1, u, mtu, wants, faults, primaries + Ranges(m[..j]), i + 1, n - 1);
        var to := Covered(Failing(FollowByUuid(t, u, mtu, wants), faults, end + 1, i + 1, n - 1), 0xFFFF);
        RangesUpTo(h, start, j, to, primaries);
      }
    }
  }

  // ----- all services -----

  function PutService(s: Service): seq<Byte> {
    if s.Valid() then PutRange(s.range) + PutUuid(s.uuid) else []
  }

  function Reported(s: Service): Primary {
    Primary(s.range, if s.Valid() then ToString(To128(s.uuid)) else "")
  }

  function AllReported(m: seq<Service>): (r: seq<Primary>)
    ensures |r| == |m| && forall i :: 0 <= i < |m| ==> r[i] == Reported(m[i])
  {
    seq(|m|, i requires 0 <= i < |m| => Reported(m[i]))
  }

  lemma Small(m: seq<Service>)
    ensures forall s :: s in m ==> |PutService(s)| <= 20
  {
  }

  ghost function ServeAll(t: seq<Service>, mtu: nat, request: seq<Byte>, want: nat): (nat, seq<Byte>)
    requires ServiceTable(t) && request != [] && (7 < |request| ==> |request| >= 21) && mtu >= 23
  {
    match DecodeRangeReq(0x10, request)
    case None => (ATT_ECODE_IO, [])
    case Some((start, end, u)) =>
      var m := if Same(u, Uuid16(0x2800)) then Between(t, StartOf, start, end) else [];
      if m == [] then (0x0A, [])
      else
        Small(m);
        (0, Clip(ReadByGrpResp(PageList(m, PutService, want), mtu)))
  }

  ghost function ExchangeAll(t: seq<Service>, start: U16, mtu: nat, want: nat): (nat, seq<Byte>)
    requires ServiceTable(t) && mtu >= 23
  {
    RangeReqRoundTrip(ATT_OP_READ_BY_GROUP_REQ, start, 0xFFFF, GATT_PRIM_SVC_UUID, mtu);
    ServeAll(t, mtu, RangeReq(ATT_OP_READ_BY_GROUP_REQ, start, 0xFFFF, GATT_PRIM_SVC_UUID, mtu), want)
  }

  /** gatt_discover_primary without a UUID, from `start`, for at most n requests. */
  ghost function DiscoverAll(t: seq<Service>, start: U16, mtu: nat, wants: nat -> nat, faults: Faults,
                             primaries: seq<Primary>, i: nat, n: nat): Option<(seq<Primary>, nat)>
    requires ServiceTable(t) && mtu >= 23
    decreases n
  {
    if n == 0 then None
    else
      var (status, pdu) := if faults(i) != 0 then (faults(i), []) else ExchangeAll(t, start, mtu, wants(i));
      if status == 0 && !Sound(pdu) then None
      else
        var (all, next) := OnPrimaryAll(primaries, status, pdu);
        match next
        case Ask(from) => DiscoverAll(t, from, mtu, wants, faults, all, i + 1, n - 1)
        case Report(err) => Some((all, err))
  }

  ghost function FollowAll(t: seq<Service>, mtu: nat, wants: nat -> nat): (U16, nat) -> Option<U16>
    requires ServiceTable(t) && mtu >= 23
  {
    (start: U16, i: nat) =>
      var (status, pdu) := ExchangeAll(t, start, mtu, wants(i));
      if status == 0 && !Sound(pdu) then None else Onward(OnPrimaryAll([], status, pdu).1)
  }

  lemma ReadService(s: Service)
    requires s.Valid()
    ensures var e := PutService(s);
      (|e| == 6 || |e| == 20) && GetRange(e) == s.range && PrimaryOf(e) == [Reported(s)]
  {
    var e, u := PutService(s), PutUuid(s.uuid);
    GetPutRange(s.range);
    assert e[2..] == PutRange(s.range)[2..] + u && e[4..] == u;
    assert GetRange(e) == GetRange(PutRange(s.range));
    if s.uuid.Uuid16? {
      Get16OfPut16(s.uuid.v, []);
      assert u == Put16(s.uuid.v) + [];
    }
  }

  lemma ReportedConcat(a: seq<Service>, b: seq<Service>)
    ensures AllReported(a + b) == AllReported(a) + AllReported(b)
  {
    hide Reported;
  }

  /** From the bytes of a page the callback collects what a reader of the table would. */
  lemma {:induction false} PrimariesAre(m: seq<Service>)
    requires forall s :: s in m ==> s.Valid()
    ensures forall e :: e in Encoded(m, PutService) ==> |e| == 6 || |e| == 20
    ensures PrimariesOf(Encoded(m, PutService)) == AllReported(m)
  {
    hide PutService, PrimaryOf, Reported;
    var es := Encoded(m, PutService);
    if m != [] {
      assert m[0] in m;
      ReadService(m[0]);
      PrimariesAre(m[1..]);
      assert es[1..] == Encoded(m[1..], PutService);
      assert es == [PutService(m[0])] + es[1..];
      ReportedConcat([m[0]], m[1..]);
      assert m == [m[0]] + m[1..];
      assert AllReported([m[0]]) == [Reported(m[0])];
    }
  }

  lemma ExchangeAllIs(t: seq<Service>, start: U16, mtu: nat, want: nat)
    requires ServiceTable(t) && mtu >= 23
    ensures var m := Between(t, StartOf, start, 0xFFFF);
      if m == [] then ExchangeAll(t, start, mtu, want) == (ATT_ECODE_ATTR_NOT_FOUND, [])
      else
        && |m| < 0x1_0000 && (forall s :: s in m ==> s.Valid() && |PutService(s)| < 256)
        && ExchangeAll(t, start, mtu, want) == (0, Clip(ReadByGrpResp(PageList(m, PutService, want), mtu)))
  {
    hide ReadByGrpResp, PageList, PutService;
    RangeReqRoundTrip(ATT_OP_READ_BY_GROUP_REQ, start, 0xFFFF, GATT_PRIM_SVC_UUID, mtu);
    Small(Between(t, StartOf, start, 0xFFFF));
  }

  /** A page reaches the client as the encodings of the first j matches. */
  lemma PageDecodes(m: seq<Service>, want: nat, mtu: nat) returns (j: nat)
    requires m != [] && |m| < 0x1_0000 && mtu >= 23 && forall s :: s in m ==> s.Valid() && |PutService(s)| < 256
    ensures 1 <= j <= |m|
    ensures var pdu := Clip(ReadByGrpResp(PageList(m, PutService, want), mtu));
      && Sound(pdu) && DecodeReadByGrp(pdu) == Some(DataList(pdu[1], Encoded(m[..j], PutService)))
  {
    hide Lead, Encoded, Pieces, Flat, Fitting, PutService, Clip, EncList;
    forall s | s in m
      ensures |PutService(s)| == 6 || |PutService(s)| == 20
    {
      ReadService(s);
    }
    assert m[0] in m;
    j := PageCarries(m, PutService, want, ATT_OP_READ_BY_GROUP_RESP, mtu);
  }

  /** What the callback should make of a page of these services. */
  function AfterPage(p: seq<Service>, primaries: seq<Primary>): (seq<Primary>, Next)
    requires p != []
  {
    var end := p[|p| - 1].range.end;
    (primaries + AllReported(p), if end != 0xFFFF then Ask(end + 1) else Report(0))
  }

  lemma OnList(pdu: seq<Byte>, es: seq<seq<Byte>>, primaries: seq<Primary>)
    requires Sound(pdu) && DecodeReadByGrp(pdu) == Some(DataList(pdu[1], es)) && es != []
    ensures (forall e :: e in es ==> |e| >= 4) && |es[|es| - 1]| >= 4
    ensures var end := GetRange(es[|es| - 1]).end;
      OnPrimaryAll(primaries, 0, pdu)
        == (primaries + PrimariesOf(es), if end != 0xFFFF then Ask(end + 1) else Report(0))
  {
    hide PrimariesOf, GetRange;
    assert es[|es| - 1] in es;
  }

  lemma OnPage(p: seq<Service>, pdu: seq<Byte>, primaries: seq<Primary>)
    requires p != [] && (forall s :: s in p ==> s.Valid())
    requires Sound(pdu) && DecodeReadByGrp(pdu) == Some(DataList(pdu[1], Encoded(p, PutService)))
    ensures OnPrimaryAll(primaries, 0, pdu) == AfterPage(p, primaries)
  {
    hide PutService, PrimariesOf, AllReported, Sound, DecodeReadByGrp, GetRange, OnPrimaryAll, Reported, PrimaryOf;
    PrimariesAre(p);
    assert p[|p| - 1] in p;
    ReadService(p[|p| - 1]);
    OnList(pdu, Encoded(p, PutService), primaries);
  }

  lemma PageAll(t: seq<Service>, start: U16, mtu: nat, want: nat, primaries: seq<Primary>) returns (j: nat)
    requires ServiceTable(t) && mtu >= 23 && Between(t, StartOf, start, 0xFFFF) != []
    ensures var m := Between(t, StartOf, start, 0xFFFF);
      var (status, pdu) := ExchangeAll(t, start, mtu, want);
      1 <= j <= |m| && status == 0 && Sound(pdu) && OnPrimaryAll(primaries, 0, pdu) == AfterPage(m[..j], primaries)
  {
    hide ExchangeAll, OnPrimaryAll, Sound, PageList, ReadByGrpResp, Encoded, PutService, AfterPage, DecodeReadByGrp;
    hide Between, Clip, ServiceTable;
    var m := Between(t, StartOf, start, 0xFFFF);
    ExchangeAllIs(t, start, mtu, want);
    j := PageDecodes(m, want, mtu);
    var p := m[..j];
    assert forall s :: s in p ==> s in m;
    OnPage(p, ExchangeAll(t, start, mtu, want).1, primaries);
  }

  lemma ReportedSplit(m: seq<Service>, j: nat, done: seq<Primary>)
    requires j <= |m|
    ensures (done + AllReported(m[..j])) + AllReported(m[j..]) == done + AllReported(m)
    ensures m[j..] == [] ==> done + AllReported(m[..j]) == done + AllReported(m)
  {
    hide AllReported;
    ReportedConcat(m[..j], m[j..]);
    assert m == m[..j] + m[j..];
    if m[j..] == [] {
      assert m[..j] == m;
    }
  }

  lemma NoneAtAll(t: seq<Service>, start: U16, mtu: nat, want: nat, primaries: seq<Primary>)
    requires ServiceTable(t) && mtu >= 23 && Between(t, StartOf, start, 0xFFFF) == []
    ensures var (status, pdu) := ExchangeAll(t, start, mtu, want);
      status != 0 && OnPrimaryAll(primaries, status, pdu) == (primaries, Report(0))
    ensures primaries + AllReported([]) == primaries
  {
    ExchangeAllIs(t, start, mtu, want);
  }

  lemma ReportedUpTo(t: seq<Service>, start: U16, j: nat, to: nat, done: seq<Primary>)
    requires ServiceTable(t) && 1 <= j <= |Between(t, StartOf, start, 0xFFFF)|
    requires Between(t, StartOf, start, 0xFFFF)[j - 1].range.end <= to <= 0xFFFF
    ensures var m := Between(t, StartOf, start, 0xFFFF);
      (done + AllReported(m[..j])) + AllReported(Between(t, StartOf, m[j - 1].range.end + 1, to))
        == done + AllReported(Between(t, StartOf, start, to))
  {
    hide ServiceTable, Between, AllReported, Spaced;
    ServicesSpaced(t);
    UpTo(t, StartOf, EndOf, start, 0xFFFF, j, to);
    ReportedSplit(Between(t, StartOf, start, to), j, done);
  }

  /** A service that ends with the last handle is the last one. */
  lemma ReportedEnd(t: seq<Service>, start: U16, j: nat, done: seq<Primary>)
    requires ServiceTable(t) && 1 <= j <= |Between(t, StartOf, start, 0xFFFF)|
    ensures var m := Between(t, StartOf, start, 0xFFFF); var end := m[j - 1].range.end;
      start <= end && (end == 0xFFFF ==> done + AllReported(m[..j]) == done + AllReported(m))
  {
    hide ServiceTable, Between, AllReported, Spaced;
    ServicesSpaced(t);
    CutHere(t, StartOf, EndOf, start, 0xFFFF, j);
    ReportedSplit(Between(t, StartOf, start, 0xFFFF), j, done);
  }

  lemma FollowAllIs(t: seq<Service>, start: U16, mtu: nat, wants: nat -> nat, i: nat, primaries: seq<Primary>)
    requires ServiceTable(t) && mtu >= 23
    ensures var (status, pdu) := ExchangeAll(t, start, mtu, wants(i));
      status != 0 || Sound(pdu) ==> FollowAll(t, mtu, wants)(start, i) == Onward(OnPrimaryAll(primaries, status, pdu).1)
  {
    hide ExchangeAll, PrimariesOf, DecodeReadByGrp, Sound, ServiceTable, GetRange;
  }

  lemma FailsAll(t: seq<Service>, start: U16, status: nat, primaries: seq<Primary>)
    requires status != 0
    ensures OnPrimaryAll(primaries, status, []) == (primaries, Report(ErrOf(status)))
    ensures Between(t, StartOf, start, start - 1) == [] && primaries + AllReported([]) == primaries
  {
    NoneBetween(t, StartOf, start, start - 1);
  }

  /**
   Discovery of all services, with faults on any requests, ends and reports every service that starts below the
   handle the first failing request asks from, or every service without a fault, once and in handle order. It
   tells a fault whether anything was found or not.
   */
  lemma {:induction false} DiscoverAllTells(t: seq<Service>, start: U16, mtu: nat, wants: nat -> nat, faults: Faults,
                                            primaries: seq<Primary>, i: nat, n: nat)
    requires ServiceTable(t) && mtu >= 23 && n > 0xFFFF - start
    ensures var failing := Failing(FollowAll(t, mtu, wants), faults, start, i, n);
      && (failing.Some? ==> start <= failing.value.1)
      && var m := Between(t, StartOf, start, Covered(failing, 0xFFFF));
      DiscoverAll(t, start, mtu, wants, faults, primaries, i, n)
        == Some((primaries + AllReported(m), if failing.Some? then ErrOf(faults(failing.value.0)) else 0))
    decreases n
  {
    hide ExchangeAll, OnPrimaryAll, Sound, ServiceTable, Between, AllReported, FollowAll, ErrOf;
    var m := Between(t, StartOf, start, 0xFFFF);
    FollowAllIs(t, start, mtu, wants, i, primaries);
    if faults(i) != 0 {
      FailsAll(t, start, faults(i), primaries);
    } else if m == [] {
      NoneAtAll(t, start, mtu, wants(i), primaries);
    } else {
      var j := PageAll(t, start, mtu, wants(i), primaries);
      ReportedEnd(t, start, j, primaries);
      var end := m[j - 1].range.end;
      if end != 0xFFFF {
        DiscoverAllTells(t, end + 1, mtu, wants, faults, primaries + AllReported(m[..j]), i + 1, n - 1);
        var to := Covered(Failing(FollowAll(t, mtu, wants), faults, end + 1, i + 1, n - 1), 0xFFFF);
        ReportedUpTo(t, start, j, to, primaries);
      }
    }
  }

  // ----- what the caller is told -----

  /** Without faults, discovery by UUID reports every service with this UUID, and no error. */
  lemma DiscoverByUuidFinds(t: seq<Service>, u: Uuid, mtu: nat, wants: nat -> nat, n: nat)
    requires ServiceTable(t) && mtu >= 23 && u.Valid() && !u.Uuid32? && n >= 0xFFFF
    ensures DiscoverByUuid(t, 1, u, mtu, wants, NEVER, [], 0, n)
      == Some((Ranges(Between(Holders(t, PutUuid(u)), StartOf, 1, 0xFFFF)), 0))
  {
    hide DiscoverByUuid, ServiceTable, Between, Holders, FollowByUuid, Ranges, Failing;
    NeverFails(FollowByUuid(t, u, mtu, wants), 1, n);
    DiscoverByUuidTells(t, 1, u, mtu, wants, NEVER, [], 0, n);
    var m := Between(Holders(t, PutUuid(u)), StartOf, 1, 0xFFFF);
    assert [] + Ranges(m) == Ranges(m);
  }

  /** Without faults, discovery of all services reports every service, and no error. */
  lemma DiscoverAllFinds(t: seq<Service>, mtu: nat, wants: nat -> nat, n: nat)
    requires ServiceTable(t) && mtu >= 23 && n >= 0xFFFF
    ensures DiscoverAll(t, 1, mtu, wants, NEVER, [], 0, n) == Some((AllReported(Between(t, StartOf, 1, 0xFFFF)), 0))
  {
    hide DiscoverAll, ServiceTable, Between, FollowAll, AllReported, Failing;
    NeverFails(FollowAll(t, mtu, wants), 1, n);
    DiscoverAllTells(t, 1, mtu, wants, NEVER, [], 0, n);
    var m := Between(t, StartOf, 1, 0xFFFF);
    assert [] + AllReported(m) == AllReported(m);
  }

  /**
   Neither discovery hides a fault: it tells an error exactly if a request failed before its end with another
   status than the one that ends a discovery, and then this status, whatever was found before.
   */
  lemma FaultsAreTold(t: seq<Service>, u: Uuid, mtu: nat, wants: nat -> nat, faults: Faults, n: nat)
    requires ServiceTable(t) && mtu >= 23 && u.Valid() && !u.Uuid32? && n >= 0xFFFF
    ensures var r := DiscoverByUuid(t, 1, u, mtu, wants, faults, [], 0, n);
      var failing := Failing(FollowByUuid(t, u, mtu, wants), faults, 1, 0, n);
      && r.Some? && (r.value.1 != 0 <==> failing.Some? && faults(failing.value.0) != 0x0A)
      && (r.value.1 != 0 ==> r.value.1 == faults(failing.value.0))
    ensures var r := DiscoverAll(t, 1, mtu, wants, faults, [], 0, n);
      var failing := Failing(FollowAll(t, mtu, wants), faults, 1, 0, n);
      && r.Some? && (r.value.1 != 0 <==> failing.Some? && faults(failing.value.0) != 0x0A)
      && (r.value.1 != 0 ==> r.value.1 == faults(failing.value.0))
  {
    hide DiscoverByUuid, DiscoverAll, ServiceTable, Between, Holders, FollowByUuid, FollowAll, Ranges, AllReported;
    hide Failing;
    FailingIs(FollowByUuid(t, u, mtu, wants), faults, 1, 0, n);
    DiscoverByUuidTells(t, 1, u, mtu, wants, faults, [], 0, n);
    FailingIs(FollowAll(t, mtu, wants), faults, 1, 0, n);
    DiscoverAllTells(t, 1, mtu, wants, faults, [], 0, n);
  }
}

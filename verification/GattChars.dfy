/**
 Characteristic discovery: the client's callback page by page, and why the whole exchange finds
 exactly the wanted declarations of the server's table, however the server pages it.
 */
module GattChars {
  import opened Basics
  import opened Bytes
  import opened BtUuid
  import opened AttCodes
  import opened Att
  import opened GattServer

  const GATT_CHARAC_UUID: Uuid := Uuid16(0x2803)

  /** A characteristic declaration on the server. */
  datatype Decl = Decl(handle: U16, properties: Byte, valueHandle: U16, uuid: Uuid) {
    predicate Valid() {
      uuid.Valid() && !uuid.Uuid32?
    }
  }

  /** What is found: struct gatt_char. */
  datatype GattChar = GattChar(handle: U16, properties: Byte, valueHandle: U16, uuid: string)

  function PutDecl(d: Decl): seq<Byte> {
    if d.Valid() then Put16(d.handle) + [d.properties] + Put16(d.valueHandle) + PutUuid(d.uuid) else []
  }

  /** What the client should find for a declaration. */
  function CharOf(d: Decl): GattChar
    requires d.Valid()
  {
    GattChar(d.handle, d.properties, d.valueHandle, ToString(To128(d.uuid)))
  }

  predicate Wants(filter: Option<Uuid>, u: Uuid)
    requires u.Valid() && (filter.Some? ==> filter.value.Valid())
  {
    filter.None? || Same(filter.value, u)
  }

  // ----- one callback -----

  /** Elements of 7 bytes have a 16-bit UUID; the 128-bit UUID of any other is read at position 5. */
  predicate Readable(k: nat) {
    k == 7 || k >= 21
  }

  function UuidAt(e: seq<Byte>): (u: Uuid)
    requires Readable(|e|)
    ensures u.Uuid128? && u.Valid()
  {
    if |e| == 7 then To128(Uuid16(Get16(e[5..]))) else Uuid128(e[5..21])
  }

  /** One element of a page: nothing, if the caller asked for another UUID. */
  function FoundOne(e: seq<Byte>, filter: Option<Uuid>): seq<GattChar>
    requires Readable(|e|) && (filter.Some? ==> filter.value.Valid())
  {
    if Wants(filter, UuidAt(e)) then [GattChar(Get16(e), e[2], Get16(e[3..]), ToString(UuidAt(e)))] else []
  }

  function Found(es: seq<seq<Byte>>, filter: Option<Uuid>): seq<GattChar>
    requires (forall e :: e in es ==> Readable(|e|)) && (filter.Some? ==> filter.value.Valid())
  {
    if es == [] then []
    else
      assert es[0] in es;
      FoundOne(es[0], filter) + Found(es[1..], filter)
  }

  datatype Next = Ask(start: U16) | Report(err: nat)

  /** The callback can read this response: its elements are long enough and their length is not zero. */
  predicate Sound(pdu: seq<Byte>) {
    |pdu| >= 2 && (pdu[0] == ATT_OP_READ_BY_TYPE_RESP ==>
      pdu[1] != 0 && (Pieces(pdu[2..], pdu[1]) == [] || Readable(pdu[1])))
  }

  function ErrOr(chars: seq<GattChar>, err: nat): nat {
    if chars != [] then 0 else err
  }

  /** char_discovered_cb: the characteristics collected so far and what follows. */
  function OnChars(chars: seq<GattChar>, end: U16, filter: Option<Uuid>, status: nat, pdu: seq<Byte>):
      (seq<GattChar>, Next)
    requires (status == 0 ==> Sound(pdu)) && (filter.Some? ==> filter.value.Valid())
  {
    if status != 0 then (chars, Report(ErrOr(chars, status)))
    else
      match DecodeReadByType(pdu)
      case None => (chars, Report(ErrOr(chars, ATT_ECODE_IO)))
      case Some(list) =>
        var all := chars + Found(list.data, filter);
        var last := if list.data == [] then 0 else Get16(list.data[|list.data| - 1]);
        if last != 0 && last + 1 < end then (all, Ask(last + 1))
        else (all, Report(ErrOr(all, ATT_ECODE_ATTR_NOT_FOUND)))
  }

  /** A response of another kind ends the discovery, with an I/O error unless something was found before. */
  lemma OtherKindTold(chars: seq<GattChar>, end: U16, filter: Option<Uuid>, pdu: seq<Byte>)
    requires Sound(pdu) && pdu[0] != 0x09 && (filter.Some? ==> filter.value.Valid())
    ensures OnChars(chars, end, filter, 0, pdu) == (chars, Report(if chars == [] then 0x80 else 0))
  {
    DecodersRefuse(pdu);
  }

  lemma {:induction false} FoundSnoc(es: seq<seq<Byte>>, i: nat, filter: Option<Uuid>, chars: seq<GattChar>)
    requires i < |es| && (forall e :: e in es ==> Readable(|e|)) && (filter.Some? ==> filter.value.Valid())
    ensures Readable(|es[i]|)
    ensures chars + Found(es[i..], filter) == (chars + FoundOne(es[i], filter)) + Found(es[i + 1..], filter)
  {
    hide FoundOne;
    assert es[i] in es && es[i..][0] == es[i] && es[i..][1..] == es[i + 1..];
  }

  lemma NoneLeft(es: seq<seq<Byte>>, filter: Option<Uuid>, chars: seq<GattChar>)
    requires (forall e :: e in es ==> Readable(|e|)) && (filter.Some? ==> filter.value.Valid())
    ensures es[0..] == es && chars + Found(es[|es|..], filter) == chars
  {
  }

  /** struct discover_char, as the callback updates it. */
  class DiscoverChar {
    const uuid: Option<Uuid>
    const end: U16
    var characteristics: seq<GattChar>

    constructor (end: U16, uuid: Option<Uuid>)
      ensures this.end == end && this.uuid == uuid && characteristics == []
    {
      this.end, this.uuid, characteristics := end, uuid, [];
    }

    method CharDiscoveredCb(status: nat, pdu: seq<Byte>) returns (next: Next)
      requires (status == 0 ==> Sound(pdu)) && (uuid.Some? ==> uuid.value.Valid())
      modifies this
      ensures (characteristics, next) == OnChars(old(characteristics), end, uuid, status, pdu)
    {
      hide Pieces, UuidAt, ToString, Same, To128, Found;
      if status != 0 {
        return Report(if characteristics != [] then 0 else status);
      }
      var list := DecodeReadByType(pdu);
      if list.None? {
        return Report(if characteristics != [] then 0 else ATT_ECODE_IO);
      }
      var es := list.value.data;
      var last: U16 := 0;
      var i := 0;
      NoneLeft(es, uuid, characteristics);
      while i < |es|
        invariant i <= |es| && last == if i == 0 then 0 else Get16(es[i - 1])
        invariant characteristics + Found(es[i..], uuid) == old(characteristics) + Found(es, uuid)
      {
        var value := es[i];
        last := Get16(value);
        FoundSnoc(es, i, uuid, characteristics);
        var u := UuidAt(value);
        if Wants(uuid, u) {
          characteristics := characteristics + [GattChar(last, value[2], Get16(value[3..]), ToString(u))];
        } else {
          assert characteristics + [] == characteristics;
        }
        i := i + 1;
      }
      NoneLeft(es, uuid, characteristics);
      if last != 0 && last + 1 < end {
        return Ask(last + 1);
      }
      return Report(if characteristics != [] then 0 else ATT_ECODE_ATTR_NOT_FOUND);
    }
  }

  // ----- the whole discovery -----

  function HandleOf(d: Decl): nat { d.handle }

  /** Ascending handles, each declaration followed by its value handle. */
  ghost predicate CharTable(t: seq<Decl>) {
    && |t| < 0x1_0000
    && Ascending(t, HandleOf)
    && (forall i, j :: 0 <= i < j < |t| ==> t[i].valueHandle < t[j].handle)
    && (forall d :: d in t ==> d.Valid() && d.handle != 0 && d.valueHandle == d.handle + 1)
  }

  lemma Small(m: seq<Decl>)
    ensures forall d :: d in m ==> |PutDecl(d)| <= 21
  {
  }

  /**
   The server's answer to a request PDU, by the numbers of sections 3.4.4.1 of Volume 3 Part F and 3.3.1 of Part G;
   `want` is how many matches it would like to send.
   */
  ghost function Serve(t: seq<Decl>, mtu: nat, request: seq<Byte>, want: nat): (nat, seq<Byte>)
    requires CharTable(t) && request != [] && (7 < |request| ==> |request| >= 21) && mtu >= 23
  {
    match DecodeRangeReq(0x08, request)
    case None => (ATT_ECODE_IO, [])
    case Some((start, end, u)) =>
      var m := if Same(u, Uuid16(0x2803)) then Between(t, HandleOf, start, end) else [];
      if m == [] then (0x0A, [])
      else
        Small(m);
        (0, Clip(ReadByTypeResp(PageList(m, PutDecl, want), mtu)))
  }

  /** One request for the declarations in [start, end], and its answer. */
  ghost function Exchange(t: seq<Decl>, start: U16, end: U16, mtu: nat, want: nat): (nat, seq<Byte>)
    requires CharTable(t) && mtu >= 23
  {
    RangeReqRoundTrip(ATT_OP_READ_BY_TYPE_REQ, start, end, GATT_CHARAC_UUID, mtu);
    Serve(t, mtu, RangeReq(ATT_OP_READ_BY_TYPE_REQ, start, end, GATT_CHARAC_UUID, mtu), want)
  }

  /**
   gatt_discover_char from `start`, for at most n requests; wants(i) chooses the i-th page and faults(i) is
   the status with which the i-th request fails, zero if it is answered.
   */
  ghost function Discover(t: seq<Decl>, start: U16, end: U16, filter: Option<Uuid>, mtu: nat, wants: nat -> nat,
                          faults: Faults, chars: seq<GattChar>, i: nat, n: nat): Option<(seq<GattChar>, nat)>
    requires CharTable(t) && mtu >= 23 && (filter.Some? ==> filter.value.Valid())
    decreases n
  {
    if n == 0 then None
    else
      var (status, pdu) := if faults(i) != 0 then (faults(i), []) else Exchange(t, start, end, mtu, wants(i));
      if status == 0 && !Sound(pdu) then None
      else
        var (all, next) := OnChars(chars, end, filter, status, pdu);
        match next
        case Ask(from) => Discover(t, from, end, filter, mtu, wants, faults, all, i + 1, n - 1)
        case Report(err) => Some((all, err))
  }

  /** Where the next request after an answered one starts. */
  ghost function NextFrom(t: seq<Decl>, start: U16, end: U16, mtu: nat, want: nat): Option<U16>
    requires CharTable(t) && mtu >= 23
  {
    var (status, pdu) := Exchange(t, start, end, mtu, want);
    if status == 0 && !Sound(pdu) then None
    else
      match OnChars([], end, None, status, pdu).1
      case Ask(from) => Some(from)
      case Report(_) => None
  }

  ghost function Follow(t: seq<Decl>, end: U16, mtu: nat, wants: nat -> nat): (U16, nat) -> Option<U16>
    requires CharTable(t) && mtu >= 23
  {
    (from, i) => NextFrom(t, from, end, mtu, wants(i))
  }

  function WantedOne(d: Decl, filter: Option<Uuid>): seq<GattChar>
    requires d.Valid() && (filter.Some? ==> filter.value.Valid())
  {
    if filter.None? || To128(filter.value) == To128(d.uuid) then [CharOf(d)] else []
  }

  /** The declarations of a part of the table that the caller wants, as the client reports them. */
  function Wanted(m: seq<Decl>, filter: Option<Uuid>): seq<GattChar>
    requires (forall d :: d in m ==> d.Valid()) && (filter.Some? ==> filter.value.Valid())
  {
    if m == [] then []
    else
      assert m[0] in m;
      WantedOne(m[0], filter) + Wanted(m[1..], filter)
  }

  lemma ReadDecl(d: Decl)
    requires d.Valid()
    ensures var e := PutDecl(d);
      && Readable(|e|) && |e| <= 21 && UuidAt(e) == To128(d.uuid)
      && Get16(e) == d.handle && e[2] == d.properties && Get16(e[3..]) == d.valueHandle
  {
    var e := PutDecl(d);
    var u := PutUuid(d.uuid);
    assert e == Put16(d.handle) + ([d.properties] + Put16(d.valueHandle) + u);
    Get16OfPut16(d.handle, [d.properties] + Put16(d.valueHandle) + u);
    assert e[3..] == Put16(d.valueHandle) + u && e[5..] == u;
    Get16OfPut16(d.valueHandle, u);
    if d.uuid.Uuid16? {
      Get16OfPut16(d.uuid.v, []);
      assert u == Put16(d.uuid.v) + [];
    } else {
      assert e[5..21] == u;
    }
  }

  lemma WantedAs128(filter: Option<Uuid>, u: Uuid)
    requires u.Valid() && (filter.Some? ==> filter.value.Valid())
    ensures Wants(filter, To128(u)) <==> filter.None? || To128(filter.value) == To128(u)
  {
  }

  lemma OneIsWanted(d: Decl, filter: Option<Uuid>)
    requires d.Valid() && (filter.Some? ==> filter.value.Valid())
    ensures Readable(|PutDecl(d)|) && FoundOne(PutDecl(d), filter) == WantedOne(d, filter)
  {
    hide PutDecl, UuidAt, ToString, To128, Wants;
    ReadDecl(d);
    WantedAs128(filter, d.uuid);
  }

  /** From the bytes of a page the callback finds what a reader of the table would. */
  lemma {:induction false} FoundIsWanted(m: seq<Decl>, filter: Option<Uuid>)
    requires (forall d :: d in m ==> d.Valid()) && (filter.Some? ==> filter.value.Valid())
    ensures forall e :: e in Encoded(m, PutDecl) ==> Readable(|e|)
    ensures Found(Encoded(m, PutDecl), filter) == Wanted(m, filter)
  {
    hide PutDecl, FoundOne, WantedOne;
    var es := Encoded(m, PutDecl);
    if m != [] {
      assert m[0] in m;
      OneIsWanted(m[0], filter);
      FoundIsWanted(m[1..], filter);
      assert es[1..] == Encoded(m[1..], PutDecl);
      assert es[0] == PutDecl(m[0]);
      assert forall e :: e in es ==> e == es[0] || e in es[1..];
    }
  }

  lemma WantedFirst(m: seq<Decl>, filter: Option<Uuid>)
    requires m != [] && (forall d :: d in m ==> d.Valid()) && (filter.Some? ==> filter.value.Valid())
    ensures m[0].Valid() && (forall d :: d in m[1..] ==> d.Valid())
    ensures Wanted(m, filter) == WantedOne(m[0], filter) + Wanted(m[1..], filter)
  {
    hide WantedOne;
    assert m[0] in m && forall d :: d in m[1..] ==> d in m;
  }

  lemma {:induction false} WantedConcat(a: seq<Decl>, b: seq<Decl>, filter: Option<Uuid>)
    requires (forall d :: d in a + b ==> d.Valid()) && (filter.Some? ==> filter.value.Valid())
    ensures (forall d :: d in a || d in b ==> d.Valid())
    ensures Wanted(a + b, filter) == Wanted(a, filter) + Wanted(b, filter)
  {
    hide WantedOne;
    assert forall d :: d in a + b <==> d in a || d in b;
    if a == [] {
      assert a + b == b;
    } else {
      hide Wanted;
      assert (a + b)[0] == a[0] && (a + b)[1..] == a[1..] + b;
      WantedConcat(a[1..], b, filter);
      WantedFirst(a, filter);
      WantedFirst(a + b, filter);
    }
  }

  lemma WantedSplit(m: seq<Decl>, j: nat, filter: Option<Uuid>, chars: seq<GattChar>)
    requires j <= |m| && (forall d :: d in m ==> d.Valid()) && (filter.Some? ==> filter.value.Valid())
    ensures (forall d :: d in m[..j] ==> d.Valid()) && (forall d :: d in m[j..] ==> d.Valid())
    ensures (chars + Wanted(m[..j], filter)) + Wanted(m[j..], filter) == chars + Wanted(m, filter)
    ensures m[j..] == [] ==> chars + Wanted(m[..j], filter) == chars + Wanted(m, filter)
  {
    hide Wanted;
    assert m == m[..j] + m[j..];
    WantedConcat(m[..j], m[j..], filter);
    if m[j..] == [] {
      assert m[..j] == m;
    }
  }

  function ValueOf(d: Decl): nat { d.valueHandle }

  /** The next request starts behind the last declaration; none is left if its value handle is the last one. */
  lemma CutBehind(t: seq<Decl>, lo: nat, hi: U16, j: nat)
    requires CharTable(t) && 1 <= j <= |Between(t, HandleOf, lo, hi)|
    ensures var m := Between(t, HandleOf, lo, hi); var last := m[j - 1].handle;
      && lo <= last && last != 0
      && m[j..] == Between(t, HandleOf, last + 1, hi)
      && (last + 1 >= hi ==> m[j..] == [])
  {
    hide Between;
    assert Spaced(t, HandleOf, ValueOf);
    CutHere(t, HandleOf, ValueOf, lo, hi, j);
  }

  lemma ExchangeIs(t: seq<Decl>, start: U16, end: U16, mtu: nat, want: nat)
    requires CharTable(t) && mtu >= 23
    ensures var m := Between(t, HandleOf, start, end);
      if m == [] then Exchange(t, start, end, mtu, want) == (ATT_ECODE_ATTR_NOT_FOUND, [])
      else
        && |m| < 0x1_0000 && (forall d :: d in m ==> d.Valid() && |PutDecl(d)| < 256)
        && Exchange(t, start, end, mtu, want) == (0, Clip(ReadByTypeResp(PageList(m, PutDecl, want), mtu)))
  {
    hide ReadByTypeResp, PageList, PutDecl;
    var m := Between(t, HandleOf, start, end);
    RangeReqRoundTrip(ATT_OP_READ_BY_TYPE_REQ, start, end, GATT_CHARAC_UUID, mtu);
    Small(m);
  }

  lemma Lengths(m: seq<Decl>)
    requires forall d :: d in m ==> d.Valid()
    ensures forall d :: d in m ==> |PutDecl(d)| == 7 || |PutDecl(d)| == 21
  {
  }

  /** A page reaches the client as the encodings of the first j matches. */
  lemma PageDecodes(m: seq<Decl>, want: nat, mtu: nat) returns (j: nat)
    requires m != [] && |m| < 0x1_0000 && mtu >= 23 && forall d :: d in m ==> d.Valid() && |PutDecl(d)| < 256
    ensures 1 <= j <= |m|
    ensures var pdu := Clip(ReadByTypeResp(PageList(m, PutDecl, want), mtu));
      && Sound(pdu) && DecodeReadByType(pdu) == Some(DataList(pdu[1], Encoded(m[..j], PutDecl)))
  {
    hide Lead, Encoded, Pieces, Flat, Fitting, PutDecl, Clip, EncList, ReadByTypeResp;
    Lengths(m);
    assert m[0] in m;
    j := PageCarries(m, PutDecl, want, ATT_OP_READ_BY_TYPE_RESP, mtu);
    WholeElements(PageList(m, PutDecl, want), mtu);
  }

  lemma LastHandle(p: seq<Decl>)
    requires p != [] && forall d :: d in p ==> d.Valid()
    ensures var es := Encoded(p, PutDecl);
      es != [] && |es[|es| - 1]| >= 2 && Get16(es[|es| - 1]) == p[|p| - 1].handle
  {
    hide PutDecl;
    assert p[|p| - 1] in p;
    ReadDecl(p[|p| - 1]);
  }

  /** What the callback makes of a page of the first j matches. */
  lemma OnPage(p: seq<Decl>, pdu: seq<Byte>, end: U16, filter: Option<Uuid>, chars: seq<GattChar>)
    requires p != [] && (forall d :: d in p ==> d.Valid() && d.handle != 0) && (filter.Some? ==> filter.value.Valid())
    requires Sound(pdu) && DecodeReadByType(pdu) == Some(DataList(pdu[1], Encoded(p, PutDecl)))
    ensures OnChars(chars, end, filter, 0, pdu) ==
      var all := chars + Wanted(p, filter);
      (all, if p[|p| - 1].handle + 1 < end then Ask(p[|p| - 1].handle + 1)
        else Report(ErrOr(all, ATT_ECODE_ATTR_NOT_FOUND)))
  {
    hide PutDecl, Found, Wanted, Sound, DecodeReadByType, ErrOr;
    FoundIsWanted(p, filter);
    LastHandle(p);
    assert p[|p| - 1] in p;
  }

  /** The client's view of one page. */
  lemma PageFound(t: seq<Decl>, start: U16, end: U16, filter: Option<Uuid>, mtu: nat, want: nat, chars: seq<GattChar>)
    returns (j: nat)
    requires CharTable(t) && mtu >= 23 && (filter.Some? ==> filter.value.Valid())
    requires Between(t, HandleOf, start, end) != []
    ensures var m := Between(t, HandleOf, start, end);
      && 1 <= j <= |m| && (forall d :: d in m ==> d.Valid())
      && var (status, pdu) := Exchange(t, start, end, mtu, want);
      && status == 0 && Sound(pdu)
      && OnChars(chars, end, filter, 0, pdu) ==
        var all := chars + Wanted(m[..j], filter);
        (all, if m[j - 1].handle + 1 < end then Ask(m[j - 1].handle + 1)
          else Report(ErrOr(all, ATT_ECODE_ATTR_NOT_FOUND)))
  {
    hide Exchange, OnChars, Sound, PageList, ReadByTypeResp, Encoded, PutDecl, Wanted, ErrOr, DecodeReadByType, Between;
    hide Clip;
    var m := Between(t, HandleOf, start, end);
    ExchangeIs(t, start, end, mtu, want);
    j := PageDecodes(m, want, mtu);
    var p := m[..j];
    assert forall d :: d in p ==> d in m;
    OnPage(p, Exchange(t, start, end, mtu, want).1, end, filter, chars);
  }

  lemma NothingThere(t: seq<Decl>, start: U16, end: U16, filter: Option<Uuid>, mtu: nat, want: nat,
                     chars: seq<GattChar>)
    requires CharTable(t) && mtu >= 23 && (filter.Some? ==> filter.value.Valid())
    requires Between(t, HandleOf, start, end) == []
    ensures var (status, pdu) := Exchange(t, start, end, mtu, want);
      status != 0 && OnChars(chars, end, filter, status, pdu) == (chars, Report(ErrOr(chars, ATT_ECODE_ATTR_NOT_FOUND)))
    ensures chars + Wanted([], filter) == chars
  {
    ExchangeIs(t, start, end, mtu, want);
  }

  /** Whether more is asked for, and from where, depends neither on what is wanted nor on what was collected before. */
  lemma SameNext(t: seq<Decl>, start: U16, end: U16, filter: Option<Uuid>, mtu: nat, want: nat, chars: seq<GattChar>)
    requires CharTable(t) && mtu >= 23 && (filter.Some? ==> filter.value.Valid())
    ensures var (status, pdu) := Exchange(t, start, end, mtu, want);
      status != 0 || Sound(pdu) ==>
      var next := OnChars(chars, end, filter, status, pdu).1;
      NextFrom(t, start, end, mtu, want) == if next.Ask? then Some(next.start) else None
  {
    hide Found, Sound, Exchange, CharTable;
  }

  lemma CharsAscend(t: seq<Decl>)
    requires CharTable(t)
    ensures Ascending(t, HandleOf) && Spaced(t, HandleOf, HandleOf) && forall d :: d in t ==> d.Valid()
  {
  }

  lemma WantedUpTo(t: seq<Decl>, start: U16, end: U16, filter: Option<Uuid>, j: nat, to: nat, chars: seq<GattChar>)
    requires CharTable(t) && (filter.Some? ==> filter.value.Valid()) && 1 <= j <= |Between(t, HandleOf, start, end)|
    requires Between(t, HandleOf, start, end)[j - 1].handle <= to <= end
    ensures var m, low := Between(t, HandleOf, start, end), Between(t, HandleOf, start, to);
      var rest := Between(t, HandleOf, m[j - 1].handle + 1, to);
      && (forall d :: d in m || d in low || d in rest || d in m[..j] ==> d.Valid())
      && (chars + Wanted(m[..j], filter)) + Wanted(rest, filter) == chars + Wanted(low, filter)
  {
    hide CharTable, Between, Wanted, Spaced, Ascending;
    CharsAscend(t);
    UpTo(t, HandleOf, HandleOf, start, end, j, to);
    WantedSplit(Between(t, HandleOf, start, to), j, filter, chars);
  }

  lemma FollowIs(t: seq<Decl>, start: U16, end: U16, mtu: nat, wants: nat -> nat, i: nat)
    requires CharTable(t) && mtu >= 23
    ensures Follow(t, end, mtu, wants)(start, i) == NextFrom(t, start, end, mtu, wants(i))
  {
  }

  lemma FailsAtOnce(t: seq<Decl>, start: U16, end: U16, filter: Option<Uuid>, status: nat, chars: seq<GattChar>)
    requires CharTable(t) && status != 0 && (filter.Some? ==> filter.value.Valid())
    ensures OnChars(chars, end, filter, status, []) == (chars, Report(ErrOr(chars, status)))
    ensures Between(t, HandleOf, start, start - 1) == [] && chars + Wanted([], filter) == chars
  {
    NoneBetween(t, HandleOf, start, start - 1);
  }

  /**
   Characteristic discovery, with faults on any requests. Without a fault before its end, it reports every wanted
   declaration of the range exactly once, in handle order, however the pages are cut. Otherwise it reports
   exactly the wanted declarations below the handle that the first failing request asks from. Either way the
   error it tells is zero if anything was found.
   */
  lemma {:induction false} DiscoverTells(t: seq<Decl>, start: U16, end: U16, filter: Option<Uuid>, mtu: nat,
                                         wants: nat -> nat, faults: Faults, chars: seq<GattChar>, i: nat, n: nat)
    requires CharTable(t) && mtu >= 23 && (filter.Some? ==> filter.value.Valid())
    requires n >= 1 && n > end - start
    ensures var failing := Failing(Follow(t, end, mtu, wants), faults, start, i, n);
      var m := Between(t, HandleOf, start, Covered(failing, end));
      && (failing.Some? ==> start <= failing.value.1 && (failing.value.1 == start || failing.value.1 <= end))
      && (forall d :: d in m ==> d.Valid())
      && var all := chars + Wanted(m, filter);
      var err := if all != [] then 0 else if failing.Some? then faults(failing.value.0) else 0x0A;
      Discover(t, start, end, filter, mtu, wants, faults, chars, i, n) == Some((all, err))
    decreases n
  {
    hide CharTable, OnChars, Sound, Exchange, Wanted, NextFrom, Between, Follow, Spaced, Ascending;
    var m := Between(t, HandleOf, start, end);
    FollowIs(t, start, end, mtu, wants, i);
    if faults(i) != 0 {
      FailsAtOnce(t, start, end, filter, faults(i), chars);
    } else if m == [] {
      NothingThere(t, start, end, filter, mtu, wants(i), chars);
      SameNext(t, start, end, filter, mtu, wants(i), chars);
    } else {
      var j := PageFound(t, start, end, filter, mtu, wants(i), chars);
      SameNext(t, start, end, filter, mtu, wants(i), chars);
      CutBehind(t, start, end, j);
      WantedSplit(m, j, filter, chars);
      var from := m[j - 1].handle + 1;
      if from < end {
        DiscoverTells(t, from, end, filter, mtu, wants, faults, chars + Wanted(m[..j], filter), i + 1, n - 1);
        var to := Covered(Failing(Follow(t, end, mtu, wants), faults, from, i + 1, n - 1), end);
        WantedUpTo(t, start, end, filter, j, to, chars);
      }
    }
  }

  /** Without faults: every wanted declaration of the range. */
  lemma DiscoverFinds(t: seq<Decl>, start: U16, end: U16, filter: Option<Uuid>, mtu: nat, wants: nat -> nat, n: nat)
    requires CharTable(t) && mtu >= 23 && (filter.Some? ==> filter.value.Valid())
    requires n >= 1 && n > end - start
    ensures var m := Between(t, HandleOf, start, end);
      && (forall d :: d in m ==> d.Valid())
      && var all := Wanted(m, filter);
      Discover(t, start, end, filter, mtu, wants, NEVER, [], 0, n) == Some((all, if all != [] then 0 else 0x0A))
  {
    hide CharTable, Discover, Wanted, Failing, Between;
    NeverFails(Follow(t, end, mtu, wants), start, n);
    DiscoverTells(t, start, end, filter, mtu, wants, NEVER, [], 0, n);
    var m := Between(t, HandleOf, start, end);
    assert [] + Wanted(m, filter) == Wanted(m, filter);
  }

  /** What is wanted in a range lies below or behind a handle in it. */
  lemma WantedBelowAndBehind(t: seq<Decl>, start: U16, end: U16, filter: Option<Uuid>, from: nat)
    requires CharTable(t) && (filter.Some? ==> filter.value.Valid()) && start <= from
    requires from == start || from <= end + 1
    ensures var m, before, behind :=
        Between(t, HandleOf, start, end), Between(t, HandleOf, start, from - 1), Between(t, HandleOf, from, end);
      && (forall d :: d in m || d in before || d in behind ==> d.Valid())
      && Wanted(m, filter) == Wanted(before, filter) + Wanted(behind, filter)
  {
    hide CharTable, Wanted, Between;
    CharsAscend(t);
    if from <= end + 1 {
      BetweenSplit(t, HandleOf, start, end, from);
    } else {
      NoneBetween(t, HandleOf, start, end);
      NoneBetween(t, HandleOf, start, from - 1);
      assert [] + Between(t, HandleOf, from, end) == [];
    }
    WantedConcat(Between(t, HandleOf, start, from - 1), Between(t, HandleOf, from, end), filter);
  }

  /**
   A failed request goes untold exactly if something wanted was found before it. What is then taken for the
   whole range is part of it exactly if something wanted also lies at or behind the handle it asked from.
   */
  lemma PartTakenForAll(t: seq<Decl>, start: U16, end: U16, filter: Option<Uuid>, mtu: nat, wants: nat -> nat,
                        faults: Faults, n: nat)
    requires CharTable(t) && mtu >= 23 && (filter.Some? ==> filter.value.Valid())
    requires n >= 1 && n > end - start
    requires Failing(Follow(t, end, mtu, wants), faults, start, 0, n).Some?
    ensures var (k, from) := Failing(Follow(t, end, mtu, wants), faults, start, 0, n).value;
      var m, before, behind :=
        Between(t, HandleOf, start, end), Between(t, HandleOf, start, from - 1), Between(t, HandleOf, from, end);
      var r := Discover(t, start, end, filter, mtu, wants, faults, [], 0, n);
      && faults(k) != 0 && (forall d :: d in m || d in before || d in behind ==> d.Valid())
      && r.Some? && r.value.0 == Wanted(before, filter)
      && r.value.1 == (if Wanted(before, filter) == [] then faults(k) else 0)
      && (r.value.1 == 0 && r.value.0 != Wanted(m, filter) <==>
         Wanted(before, filter) != [] && Wanted(behind, filter) != [])
  {
    hide CharTable, Discover, Wanted, Failing, Between;
    FailingIs(Follow(t, end, mtu, wants), faults, start, 0, n);
    DiscoverTells(t, start, end, filter, mtu, wants, faults, [], 0, n);
    var from: int := Failing(Follow(t, end, mtu, wants), faults, start, 0, n).value.1;
    WantedBelowAndBehind(t, start, end, filter, from);
    assert [] + Wanted(Between(t, HandleOf, start, from - 1), filter)
      == Wanted(Between(t, HandleOf, start, from - 1), filter);
  }
}

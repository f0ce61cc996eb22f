/**
 Discovery of included services: page requests and UUID lookups in flight together, counted by
 references; the user is told once, after the last of them.
 */
module GattIncluded {
  import opened Basics
  import opened Bytes
  import opened BtUuid
  import opened AttCodes
  import opened Att
  import opened GattServer

  const GATT_INCLUDE_UUID: Uuid := Uuid16(0x2802)

  /** struct gatt_included; the UUID of a 128-bit service is not known at first. */
  datatype Incl = Incl(handle: U16, range: Range, uuid: string)

  /** A command of the discovery on the transport's queue. */
  datatype Pending = Find(start: U16) | Resolve(incl: Incl)

  datatype Report = Failed(err: nat) | Found(includes: seq<Incl>)

  /** struct included_discovery, its commands in queue order, and what the user was told. */
  datatype State = State(refs: int, err: nat, includes: seq<Incl>, pending: seq<Pending>, reports: seq<Report>)

  function ReportOf(err: nat, includes: seq<Incl>): Report {
    if err != 0 then Failed(err) else Found(includes)
  }

  /** isd_unref. */
  function Unref(s: State): State {
    var t := s.(refs := s.refs - 1);
    if t.refs > 0 then t else t.(reports := t.reports + [ReportOf(t.err, t.includes)])
  }

  /** A command with its reference goes to the end of the queue. */
  function Issue(s: State, p: Pending): State {
    s.(refs := s.refs + 1, pending := s.pending + [p])
  }

  function NoteError(s: State, err: nat): State {
    if s.err == 0 then s.(err := err) else s
  }

  /** included_from_buf. */
  function InclOf(e: seq<Byte>): Incl
    requires |e| == 6 || |e| == 8
  {
    Incl(Get16(e), GetRange(e[2..]), if |e| == 8 then ToString(To128(Uuid16(Get16(e[6..])))) else "")
  }

  /** One element of a page: without a UUID it needs resolving. */
  function Take(s: State, e: seq<Byte>): State
    requires |e| == 6 || |e| == 8
  {
    if |e| == 6 then Issue(s, Resolve(InclOf(e))) else s.(includes := s.includes + [InclOf(e)])
  }

  function TakeAll(s: State, es: seq<seq<Byte>>): State
    requires forall e :: e in es ==> |e| == 6 || |e| == 8
    decreases |es|
  {
    if es == [] then s
    else
      assert es[0] in es;
      TakeAll(Take(s, es[0]), es[1..])
  }

  /** The callback can read this response: its elements have a length that is not zero. */
  predicate Sound(pdu: seq<Byte>) {
    |pdu| >= 2 && (pdu[0] == ATT_OP_READ_BY_TYPE_RESP ==> pdu[1] != 0)
  }

  /** The list of a page, if the response has one of elements of 6 or 8 bytes. */
  function PageOf(pdu: seq<Byte>): (r: Option<DataList>)
    requires |pdu| >= 2
    ensures r.Some? ==> forall e :: e in r.value.data ==> |e| == 6 || |e| == 8
  {
    var list := DecodeReadByType(pdu);
    if list.None? || (list.value.len != 6 && list.value.len != 8) then None else list
  }

  /** find_included_cb. */
  function OnFind(s: State, end: U16, status: nat, pdu: seq<Byte>): State
    requires status == 0 ==> Sound(pdu)
  {
    if status != 0 then NoteError(s, if status == ATT_ECODE_ATTR_NOT_FOUND then 0 else status)
    else if PageOf(pdu).None? then NoteError(s, ATT_ECODE_IO)
    else
      var es := PageOf(pdu).value.data;
      var t := TakeAll(s, es);
      var last := if es == [] then end else Get16(es[|es| - 1]);
      if last < end then Issue(t, Find(last + 1)) else t
  }

  function ErrorOfResolve(status: nat, pdu: seq<Byte>, buflen: nat): nat
    requires status == 0 ==> pdu != []
  {
    if status != 0 then status
    else
      var r := DecodeReadResp(pdu, buflen);
      if r.Read? && |r.value| == 16 then 0 else ATT_ECODE_IO
  }

  /** resolve_included_uuid_cb. */
  function OnResolve(s: State, incl: Incl, status: nat, pdu: seq<Byte>, buflen: nat): State
    requires status == 0 ==> pdu != []
  {
    var err := ErrorOfResolve(status, pdu, buflen);
    var t := if err != 0 then s else s.(includes := s.includes + [incl.(uuid := ToString(Uuid128(pdu[1..])))]);
    Unref(NoteError(t, err))
  }

  /** The PDU fits the command it answers. */
  predicate Fits(p: Pending, status: nat, pdu: seq<Byte>) {
    status == 0 ==> if p.Find? then Sound(pdu) else pdu != []
  }

  /** An answer, an error or a timeout ends the first command; a find gives its reference back when it is destroyed. */
  function Answer(s: State, end: U16, buflen: nat, status: nat, pdu: seq<Byte>): State
    requires s.pending != [] && Fits(s.pending[0], status, pdu)
  {
    var t := s.(pending := s.pending[1..]);
    match s.pending[0]
    case Find(_) => Unref(OnFind(t, end, status, pdu))
    case Resolve(incl) => OnResolve(t, incl, status, pdu, buflen)
  }

  /** gatt_find_included, all sends accepted. */
  function Begin(start: U16): State {
    Issue(State(0, 0, [], [], []), Find(start))
  }

  // ----- the objects -----

  lemma InclHandle(e: seq<Byte>)
    requires |e| == 6 || |e| == 8
    ensures InclOf(e).handle == Get16(e)
  {
  }

  lemma TakeNone(s: State, es: seq<seq<Byte>>)
    requires es == []
    ensures TakeAll(s, es) == s
  {
  }

  lemma TakeStep(s: State, es: seq<seq<Byte>>, i: nat)
    requires i < |es| && forall e :: e in es ==> |e| == 6 || |e| == 8
    ensures |es[i]| == 6 || |es[i]| == 8
    ensures TakeAll(s, es[i..]) == TakeAll(Take(s, es[i]), es[i + 1..])
  {
    assert es[i] in es && es[i..][0] == es[i] && es[i..][1..] == es[i + 1..];
  }

  class IncludedDiscovery {
    const end: U16
    var refs: int
    var err: nat
    var includes: seq<Incl>
    var pending: seq<Pending>
    var reports: seq<Report>

    constructor (start: U16, end: U16)
      ensures Val() == Begin(start) && this.end == end
    {
      this.end := end;
      refs, err, includes, pending, reports := 0, 0, [], [], [];
      new;
      FindIncluded(start);
    }

    ghost function Val(): State
      reads this
    {
      State(refs, err, includes, pending, reports)
    }

    method FindIncluded(start: U16)
      modifies this
      ensures Val() == Issue(old(Val()), Find(start))
    {
      refs := refs + 1;
      pending := pending + [Find(start)];
    }

    method ResolveIncludedUuid(incl: Incl)
      modifies this
      ensures Val() == Issue(old(Val()), Resolve(incl))
    {
      refs := refs + 1;
      pending := pending + [Resolve(incl)];
    }

    method IsdUnref()
      modifies this
      ensures Val() == Unref(old(Val()))
    {
      refs := refs - 1;
      if refs > 0 {
        return;
      }
      reports := reports + [if err != 0 then Failed(err) else Found(includes)];
    }

    method FindIncludedCb(status: nat, pdu: seq<Byte>)
      requires status == 0 ==> Sound(pdu)
      modifies this
      ensures Val() == OnFind(old(Val()), end, status, pdu)
    {
      hide TakeAll, InclOf, DecodeReadByType;
      if status != 0 {
        if err == 0 {
          err := if status == ATT_ECODE_ATTR_NOT_FOUND then 0 else status;
        }
        return;
      }
      var list := PageOf(pdu);
      if list.None? {
        if err == 0 {
          err := ATT_ECODE_IO;
        }
        return;
      }
      var es := list.value.data;
      var last := end;
      var i := 0;
      ghost var goal := TakeAll(Val(), es);
      assert es[0..] == es;
      while i < |es|
        invariant i <= |es| && last == if i == 0 then end else Get16(es[i - 1])
        invariant TakeAll(Val(), es[i..]) == goal
      {
        TakeStep(Val(), es, i);
        var incl := InclOf(es[i]);
        last := incl.handle;
        InclHandle(es[i]);
        if |es[i]| == 6 {
          ResolveIncludedUuid(incl);
        } else {
          includes := includes + [incl];
        }
        i := i + 1;
      }
      TakeNone(Val(), es[i..]);
      if last < end {
        FindIncluded(last + 1);
      }
    }

    method ResolveIncludedUuidCb(incl: Incl, status: nat, pdu: seq<Byte>, buflen: nat)
      requires status == 0 ==> pdu != []
      modifies this
      ensures Val() == OnResolve(old(Val()), incl, status, pdu, buflen)
    {
      var e := status;
      if e == 0 {
        var r := DecodeReadResp(pdu, buflen);
        if r.Read? && |r.value| == 16 {
          includes := includes + [incl.(uuid := ToString(Uuid128(r.value)))];
        } else {
          e := ATT_ECODE_IO;
        }
      }
      if err == 0 {
        err := e;
      }
      IsdUnref();
    }

    /** The transport finishes the first command. */
    method Finish(status: nat, pdu: seq<Byte>, buflen: nat)
      requires pending != [] && Fits(pending[0], status, pdu)
      modifies this
      ensures Val() == Answer(old(Val()), end, buflen, status, pdu)
    {
      var p := pending[0];
      pending := pending[1..];
      match p {
        case Find(_) =>
          FindIncludedCb(status, pdu);
          IsdUnref();
        case Resolve(incl) =>
          ResolveIncludedUuidCb(incl, status, pdu, buflen);
      }
    }
  }

  // ----- any run: references, the one report, the first error -----

  /** References are the commands in flight, and the user is told when there are none left, once. */
  predicate Inv(s: State) {
    && s.refs == |s.pending|
    && s.reports == if s.pending == [] then [ReportOf(s.err, s.includes)] else []
  }

  lemma {:induction false} TakeAllCounts(s: State, es: seq<seq<Byte>>)
    requires forall e :: e in es ==> |e| == 6 || |e| == 8
    ensures var t := TakeAll(s, es);
      && t.refs - |t.pending| == s.refs - |s.pending| && |t.pending| >= |s.pending|
      && t.reports == s.reports && t.err == s.err
    decreases |es|
  {
    if es != [] {
      assert es[0] in es;
      TakeAllCounts(Take(s, es[0]), es[1..]);
    }
  }

  /** What an answer adds to the discovery's error. */
  function ErrorOf(p: Pending, status: nat, pdu: seq<Byte>, buflen: nat): nat
    requires Fits(p, status, pdu)
  {
    if p.Resolve? then ErrorOfResolve(status, pdu, buflen)
    else if status != 0 then (if status == ATT_ECODE_ATTR_NOT_FOUND then 0 else status)
    else if PageOf(pdu).None? then ATT_ECODE_IO
    else 0
  }

  /**
   A lookup is answered well by a Read Response of sixteen bytes and nothing else, and a find by a Read By Type
   Response with elements of six or eight bytes, or by the error that there is no more; any other error is told as
   it is, and any other response as an I/O error.
   */
  lemma ErrorsAre(p: Pending, status: nat, pdu: seq<Byte>, buflen: nat)
    requires Fits(p, status, pdu) && buflen >= 23
    ensures var e := ErrorOf(p, status, pdu, buflen);
      var well :=
        if p.Resolve? then |pdu| == 17 && pdu[0] == 0x0B else |pdu| >= 2 && pdu[0] == 0x09 && pdu[1] in [6, 8];
      && (status == 0 ==> e == if well then 0 else 0x80)
      && (status != 0 ==> e == if p.Find? && status == 0x0A then 0 else status)
  {
    if status == 0 && p.Find? {
      DecodersRefuse(pdu);
    }
  }

  /** A find whose page carries no whole element is not followed by another. */
  lemma EmptyPageEnds(s: State, end: U16, pdu: seq<Byte>)
    requires Sound(pdu) && PageOf(pdu).Some? && PageOf(pdu).value.data == []
    ensures OnFind(s, end, 0, pdu) == s
  {
  }

  lemma AnswerKeeps(s: State, end: U16, buflen: nat, status: nat, pdu: seq<Byte>)
    requires Inv(s) && s.pending != [] && Fits(s.pending[0], status, pdu)
    ensures Inv(Answer(s, end, buflen, status, pdu))
    ensures Answer(s, end, buflen, status, pdu).err == if s.err != 0 then s.err
      else ErrorOf(s.pending[0], status, pdu, buflen)
  {
    hide TakeAll, PageOf;
    var t := s.(pending := s.pending[1..]);
    if s.pending[0].Find? && status == 0 && PageOf(pdu).Some? {
      TakeAllCounts(t, PageOf(pdu).value.data);
    }
  }

  datatype Reply = Reply(status: nat, pdu: seq<Byte>)

  /** The replies answer the commands in queue order. */
  ghost predicate AllFit(s: State, end: U16, buflen: nat, replies: seq<Reply>)
    decreases |replies|
  {
    replies != [] && s.pending != [] ==>
      && Fits(s.pending[0], replies[0].status, replies[0].pdu)
      && AllFit(Answer(s, end, buflen, replies[0].status, replies[0].pdu), end, buflen, replies[1..])
  }

  ghost function Run(s: State, end: U16, buflen: nat, replies: seq<Reply>): State
    requires AllFit(s, end, buflen, replies)
    decreases |replies|
  {
    if replies == [] || s.pending == [] then s
    else Run(Answer(s, end, buflen, replies[0].status, replies[0].pdu), end, buflen, replies[1..])
  }

  /** The first error among the replies, in the order of the commands; zero if there is none. */
  ghost function FirstError(s: State, end: U16, buflen: nat, replies: seq<Reply>): nat
    requires AllFit(s, end, buflen, replies)
    decreases |replies|
  {
    if replies == [] || s.pending == [] then 0
    else
      var e := ErrorOf(s.pending[0], replies[0].status, replies[0].pdu, buflen);
      if e != 0 then e
      else FirstError(Answer(s, end, buflen, replies[0].status, replies[0].pdu), end, buflen, replies[1..])
  }

  lemma {:induction false} RunKeeps(s: State, end: U16, buflen: nat, replies: seq<Reply>)
    requires Inv(s) && AllFit(s, end, buflen, replies)
    ensures var t := Run(s, end, buflen, replies);
      Inv(t) && t.err == if s.err != 0 then s.err else FirstError(s, end, buflen, replies)
    decreases |replies|
  {
    hide Inv, Answer, ErrorOf, Fits;
    if replies != [] && s.pending != [] {
      AnswerKeeps(s, end, buflen, replies[0].status, replies[0].pdu);
      RunKeeps(Answer(s, end, buflen, replies[0].status, replies[0].pdu), end, buflen, replies[1..]);
    }
  }

  /**
   Whatever the replies are: the user is told exactly once, after the last command, and then with the
   first error if there was one, and otherwise with the includes.
   */
  lemma ReportsOnce(start: U16, end: U16, buflen: nat, replies: seq<Reply>)
    requires AllFit(Begin(start), end, buflen, replies)
    ensures var s := Run(Begin(start), end, buflen, replies);
      var err := FirstError(Begin(start), end, buflen, replies);
      && s.refs == |s.pending|
      && s.reports == (if s.pending != [] then [] else if err != 0 then [Failed(err)] else [Found(s.includes)])
  {
    RunKeeps(Begin(start), end, buflen, replies);
  }

  // ----- a conforming server -----

  /** An include declaration on the server, with the UUID of the included service. */
  datatype Include = Include(handle: U16, range: Range, uuid: Uuid) {
    predicate Valid() {
      uuid.Valid() && !uuid.Uuid32?
    }
  }

  function HandleOf(d: Include): nat { d.handle }

  /** Only 16-bit UUIDs are part of the declaration. */
  function PutInclude(d: Include): seq<Byte> {
    if d.Valid() then Put16(d.handle) + PutRange(d.range) + (if d.uuid.Uuid16? then PutUuid(d.uuid) else []) else []
  }

  /** What the user should be told of an include. */
  function Told(d: Include): Incl {
    Incl(d.handle, d.range, if d.Valid() then ToString(To128(d.uuid)) else "")
  }

  function AllTold(m: seq<Include>): (r: seq<Incl>)
    ensures |r| == |m| && forall i :: 0 <= i < |m| ==> r[i] == Told(m[i])
  {
    seq(|m|, i requires 0 <= i < |m| => Told(m[i]))
  }

  /** Ascending handles; reading the start of a service with a 128-bit UUID gives that UUID. */
  ghost predicate IncludeTable(t: seq<Include>, uuidAt: U16 -> seq<Byte>) {
    && |t| < 0x1_0000 && Ascending(t, HandleOf)
    && (forall d :: d in t ==> d.Valid() && d.handle != 0 && (d.uuid.Uuid128? ==> uuidAt(d.range.start) == d.uuid.data))
  }

  lemma Small(m: seq<Include>)
    ensures forall d :: d in m ==> |PutInclude(d)| <= 8
  {
  }

  /** The bytes of a command: find_included and resolve_included_uuid. */
  function RequestOf(p: Pending, end: U16, room: nat): seq<Byte> {
    match p
    case Find(start) => RangeReq(ATT_OP_READ_BY_TYPE_REQ, start, end, GATT_INCLUDE_UUID, room)
    case Resolve(incl) => ReadReq(incl.range.start, room)
  }

  /** The server's answer to a request PDU; `want` is how many matches it would like to send. */
  ghost function ServePdu(t: seq<Include>, uuidAt: U16 -> seq<Byte>, mtu: nat, request: seq<Byte>, want: nat): Reply
    requires IncludeTable(t, uuidAt) && mtu >= 23 && request != [] && (7 < |request| ==> |request| >= 21)
  {
    var read := DecodeReadReq(request);
    if read.Some? then Reply(0, Clip(ReadResp(uuidAt(read.value), mtu)))
    else
      match DecodeRangeReq(0x08, request)
      case None => Reply(ATT_ECODE_IO, [])
      case Some((start, end, u)) =>
        var m := if Same(u, Uuid16(0x2802)) then Between(t, HandleOf, start, end) else [];
        if m == [] then Reply(0x0A, [])
        else
          Small(m);
          Reply(0, Clip(ReadByTypeResp(PageList(m, PutInclude, want), mtu)))
  }

  lemma RequestSound(p: Pending, end: U16, room: nat)
    requires room >= 23
    ensures var request := RequestOf(p, end, room);
      request != [] && (7 < |request| ==> |request| >= 21)
  {
    if p.Find? {
      RangeReqRoundTrip(ATT_OP_READ_BY_TYPE_REQ, p.start, end, GATT_INCLUDE_UUID, room);
    }
  }

  /** The server's answer to a command, from its bytes. */
  ghost function Serve(t: seq<Include>, uuidAt: U16 -> seq<Byte>, end: U16, mtu: nat, p: Pending, want: nat): Reply
    requires IncludeTable(t, uuidAt) && mtu >= 23
  {
    RequestSound(p, end, mtu);
    ServePdu(t, uuidAt, mtu, RequestOf(p, end, mtu), want)
  }

  lemma ServedRead(t: seq<Include>, uuidAt: U16 -> seq<Byte>, end: U16, mtu: nat, incl: Incl, want: nat)
    requires IncludeTable(t, uuidAt) && mtu >= 23
    ensures Serve(t, uuidAt, end, mtu, Resolve(incl), want) == Reply(0, Clip(ReadResp(uuidAt(incl.range.start), mtu)))
  {
    ReadReqRoundTrip(incl.range.start, mtu);
  }

  /** One answer from the server. */
  ghost function Next(s: State, t: seq<Include>, uuidAt: U16 -> seq<Byte>, end: U16, mtu: nat, want: nat): Option<State>
    requires IncludeTable(t, uuidAt) && mtu >= 23 && s.pending != []
  {
    var r := Serve(t, uuidAt, end, mtu, s.pending[0], want);
    if Fits(s.pending[0], r.status, r.pdu) then Some(Answer(s, end, mtu, r.status, r.pdu)) else None
  }

  /** Every command is answered by the server, until n answers or the end. */
  ghost function Served(s: State, t: seq<Include>, uuidAt: U16 -> seq<Byte>, end: U16, mtu: nat, wants: nat -> nat,
                        n: nat): Option<State>
    requires IncludeTable(t, uuidAt) && mtu >= 23
    decreases n
  {
    if s.pending == [] then Some(s)
    else if n == 0 then None
    else
      var u := Next(s, t, uuidAt, end, mtu, wants(n));
      if u.None? then None else Served(u.value, t, uuidAt, end, mtu, wants, n - 1)
  }

  /** An include whose UUID is still to be read. */
  function Unresolved(d: Include): Pending {
    Resolve(Incl(d.handle, d.range, ""))
  }

  function Lookups(q: seq<Include>): (r: seq<Pending>)
    ensures |r| == |q| && forall i :: 0 <= i < |q| ==> r[i] == Unresolved(q[i])
  {
    seq(|q|, i requires 0 <= i < |q| => Unresolved(q[i]))
  }

  function FindFrom(next: Option<U16>): seq<Pending> {
    if next.Some? then [Find(next.value)] else []
  }

  /** The includes still to be found by a request from `next` on. */
  function Rest(t: seq<Include>, next: Option<U16>, end: U16): seq<Include> {
    if next.Some? then Between(t, HandleOf, next.value, end) else []
  }

  /** In flight: the lookups of some 128-bit includes, then perhaps one more find; no error so far. */
  ghost predicate InFlight(s: State, q: seq<Include>, next: Option<U16>) {
    && Inv(s) && s.err == 0
    && s.pending == Lookups(q) + FindFrom(next)
    && (forall d :: d in q ==> d.Valid() && d.uuid.Uuid128?)
  }

  lemma AllToldConcat(a: seq<Include>, b: seq<Include>)
    ensures AllTold(a + b) == AllTold(a) + AllTold(b)
  {
    hide Told;
  }

  lemma LookupsConcat(a: seq<Include>, b: seq<Include>)
    ensures Lookups(a + b) == Lookups(a) + Lookups(b)
  {
    hide Unresolved;
  }

  lemma RangeBefore(r: Range, u: seq<Byte>)
    ensures GetRange(PutRange(r) + u) == r
  {
    GetPutRange(r);
    assert (PutRange(r) + u)[2..] == PutRange(r)[2..] + u;
  }

  lemma ReadInclude(d: Include)
    requires d.Valid()
    ensures var e := PutInclude(d);
      && |e| == (if d.uuid.Uuid16? then 8 else 6)
      && Get16(e) == d.handle
      && InclOf(e) == if d.uuid.Uuid16? then Told(d) else Incl(d.handle, d.range, "")
  {
    hide ToString, To128;
    var e := PutInclude(d);
    var u := if d.uuid.Uuid16? then PutUuid(d.uuid) else [];
    assert e == Put16(d.handle) + (PutRange(d.range) + u);
    Get16OfPut16(d.handle, PutRange(d.range) + u);
    assert e[2..] == PutRange(d.range) + u;
    RangeBefore(d.range, u);
    if d.uuid.Uuid16? {
      assert e[6..] == u;
      Get16OfPut16(d.uuid.v, []);
      assert u == Put16(d.uuid.v) + [];
    }
  }

  lemma IncludeLens(p: seq<Include>)
    requires forall d :: d in p ==> d.Valid()
    ensures forall e :: e in Encoded(p, PutInclude) ==> |e| == 6 || |e| == 8
    ensures p != [] ==> Encoded(p, PutInclude) == [PutInclude(p[0])] + Encoded(p[1..], PutInclude)
  {
    hide PutInclude;
    forall i | 0 <= i < |p|
      ensures |PutInclude(p[i])| == 6 || |PutInclude(p[i])| == 8
    {
      assert p[i] in p;
      ReadInclude(p[i]);
    }
  }

  lemma TakeFirst(s: State, e: seq<Byte>, es: seq<seq<Byte>>)
    requires forall x :: x in [e] + es ==> |x| == 6 || |x| == 8
    ensures e in [e] + es && (forall x :: x in es ==> x in [e] + es)
    ensures TakeAll(s, [e] + es) == TakeAll(Take(s, e), es)
  {
    hide Take;
    var r := [e] + es;
    assert r[0] == e && r[1..] == es;
  }

  lemma ToldSnoc(done: seq<Incl>, d: Include, p: seq<Include>)
    ensures (done + [Told(d)]) + AllTold(p) == done + AllTold([d] + p)
  {
    hide Told;
    AllToldConcat([d], p);
    assert AllTold([d]) == [Told(d)];
  }

  lemma LookupsSnoc(done: seq<Pending>, d: Include, p: seq<Include>)
    ensures (done + [Unresolved(d)]) + Lookups(p) == done + Lookups([d] + p)
  {
    hide Unresolved;
    LookupsConcat([d], p);
    assert Lookups([d]) == [Unresolved(d)];
  }

  /** A page of includes with 16-bit UUIDs goes straight to the result. */
  lemma {:induction false} TakeShort(s: State, p: seq<Include>)
    requires forall d :: d in p ==> d.Valid() && d.uuid.Uuid16?
    ensures forall e :: e in Encoded(p, PutInclude) ==> |e| == 6 || |e| == 8
    ensures TakeAll(s, Encoded(p, PutInclude)) == s.(includes := s.includes + AllTold(p))
    decreases |p|
  {
    hide PutInclude, Told, InclOf, TakeAll, Encoded, AllTold;
    IncludeLens(p);
    if p == [] {
      TakeNone(s, Encoded(p, PutInclude));
      assert |AllTold(p)| == 0;
    } else {
      assert p[0] in p && p == [p[0]] + p[1..];
      ReadInclude(p[0]);
      IncludeLens(p[1..]);
      TakeFirst(s, PutInclude(p[0]), Encoded(p[1..], PutInclude));
      TakeShort(s.(includes := s.includes + [Told(p[0])]), p[1..]);
      ToldSnoc(s.includes, p[0], p[1..]);
    }
  }

  /** A page of includes with 128-bit UUIDs puts one lookup for each into the queue. */
  lemma {:induction false} TakeLong(s: State, p: seq<Include>)
    requires forall d :: d in p ==> d.Valid() && d.uuid.Uuid128?
    ensures forall e :: e in Encoded(p, PutInclude) ==> |e| == 6 || |e| == 8
    ensures TakeAll(s, Encoded(p, PutInclude)) == s.(refs := s.refs + |p|, pending := s.pending + Lookups(p))
    decreases |p|
  {
    hide PutInclude, Told, InclOf, TakeAll, Encoded, Lookups;
    IncludeLens(p);
    if p == [] {
      TakeNone(s, Encoded(p, PutInclude));
      assert |Lookups(p)| == 0;
    } else {
      assert p[0] in p && p == [p[0]] + p[1..];
      ReadInclude(p[0]);
      IncludeLens(p[1..]);
      TakeFirst(s, PutInclude(p[0]), Encoded(p[1..], PutInclude));
      TakeLong(s.(refs := s.refs + 1, pending := s.pending + [Unresolved(p[0])]), p[1..]);
      LookupsSnoc(s.pending, p[0], p[1..]);
    }
  }

  /** A page reaches the client as the encodings of the first j matches. */
  lemma PageDecodes(m: seq<Include>, want: nat, mtu: nat) returns (j: nat)
    requires m != [] && |m| < 0x1_0000 && mtu >= 23 && forall d :: d in m ==> d.Valid() && |PutInclude(d)| < 256
    ensures 1 <= j <= |m|
    ensures var pdu := Clip(ReadByTypeResp(PageList(m, PutInclude, want), mtu));
      && Sound(pdu) && PageOf(pdu) == Some(DataList(pdu[1], Encoded(m[..j], PutInclude)))
    ensures (forall d :: d in m[..j] ==> d.uuid.Uuid16?) || (forall d :: d in m[..j] ==> d.uuid.Uuid128?)
  {
    hide Lead, Pieces, Flat, Fitting, PutInclude, Clip, EncList, ReadByTypeResp;
    forall d | d in m
      ensures |PutInclude(d)| == if d.uuid.Uuid16? then 8 else 6
    {
      ReadInclude(d);
    }
    assert m[0] in m;
    j := PageCarries(m, PutInclude, want, ATT_OP_READ_BY_TYPE_RESP, mtu);
    WholeElements(PageList(m, PutInclude, want), mtu);
    var es, k := Encoded(m[..j], PutInclude), |PutInclude(m[0])|;
    assert forall i :: 0 <= i < j ==> m[i] in m && es[i] in es && |PutInclude(m[i])| == k;
  }

  lemma IncludesSpaced(t: seq<Include>, uuidAt: U16 -> seq<Byte>)
    requires IncludeTable(t, uuidAt)
    ensures Spaced(t, HandleOf, HandleOf)
  {
  }

  lemma FirstLookup(q: seq<Include>, next: Option<U16>)
    requires q != []
    ensures var l := Lookups(q) + FindFrom(next);
      l[0] == Unresolved(q[0]) && l[1..] == Lookups(q[1..]) + FindFrom(next)
  {
    hide Unresolved;
  }

  /** A lookup answered by the server completes its include. */
  lemma LookupStep(s: State, t: seq<Include>, uuidAt: U16 -> seq<Byte>, end: U16, mtu: nat, q: seq<Include>,
                   next: Option<U16>, want: nat)
    requires IncludeTable(t, uuidAt) && mtu >= 23 && InFlight(s, q, next) && q != [] && q[0] in t
    ensures s.pending != []
    ensures var r := Serve(t, uuidAt, end, mtu, s.pending[0], want);
      && Fits(s.pending[0], r.status, r.pdu)
      && var u := Answer(s, end, mtu, r.status, r.pdu);
      InFlight(u, q[1..], next) && u.includes == s.includes + [Told(q[0])]
  {
    hide ToString, Lookups, Serve;
    var d := q[0];
    assert d in q;
    FirstLookup(q, next);
    assert s.pending[0] == Unresolved(d);
    ServedRead(t, uuidAt, end, mtu, s.pending[0].incl, want);
    var r := Serve(t, uuidAt, end, mtu, s.pending[0], want);
    var v := d.uuid.data;
    assert v[..16] == v;
    assert r.pdu == [ATT_OP_READ_RESP as Byte] + v && r.pdu[1..] == v;
    AnswerKeeps(s, end, mtu, r.status, r.pdu);
  }

  lemma ServeFind(t: seq<Include>, uuidAt: U16 -> seq<Byte>, start: U16, end: U16, mtu: nat, want: nat)
    requires IncludeTable(t, uuidAt) && mtu >= 23
    ensures var m := Between(t, HandleOf, start, end);
      if m == [] then Serve(t, uuidAt, end, mtu, Find(start), want) == Reply(ATT_ECODE_ATTR_NOT_FOUND, [])
      else
        && |m| < 0x1_0000 && (forall d :: d in m ==> d in t && d.Valid() && |PutInclude(d)| < 256)
        && Serve(t, uuidAt, end, mtu, Find(start), want)
           == Reply(0, Clip(ReadByTypeResp(PageList(m, PutInclude, want), mtu)))
  {
    hide PageList, PutInclude, ReadByTypeResp, Between;
    Small(Between(t, HandleOf, start, end));
    RangeReqRoundTrip(ATT_OP_READ_BY_TYPE_REQ, start, end, GATT_INCLUDE_UUID, mtu);
    assert DecodeReadReq(RequestOf(Find(start), end, mtu)) == None;
  }

  /** The find that follows a page, if any. */
  function After(p: seq<Include>, end: U16): Option<U16>
    requires p != []
  {
    var last := p[|p| - 1].handle;
    if last < end then Some(last + 1) else None
  }

  function IssueFind(s: State, next: Option<U16>): State {
    if next.Some? then Issue(s, Find(next.value)) else s
  }

  lemma LastHandle(p: seq<Include>)
    requires p != [] && forall d :: d in p ==> d.Valid()
    ensures var es := Encoded(p, PutInclude);
      es != [] && |es[|es| - 1]| >= 2 && Get16(es[|es| - 1]) == p[|p| - 1].handle
  {
    hide PutInclude;
    assert p[|p| - 1] in p;
    ReadInclude(p[|p| - 1]);
  }

  /** find_included_cb on a page of these includes. */
  lemma OnFindPage(s: State, end: U16, pdu: seq<Byte>, p: seq<Include>)
    requires p != [] && (forall d :: d in p ==> d.Valid())
    requires Sound(pdu) && PageOf(pdu) == Some(DataList(pdu[1], Encoded(p, PutInclude)))
    ensures forall e :: e in Encoded(p, PutInclude) ==> |e| == 6 || |e| == 8
    ensures OnFind(s, end, 0, pdu) == IssueFind(TakeAll(s, Encoded(p, PutInclude)), After(p, end))
  {
    hide TakeAll, Encoded, PageOf, Sound, PutInclude, Issue;
    LastHandle(p);
    IncludeLens(p);
  }

  /** The state while the page of a lone find is being taken in. */
  ghost predicate Lone(s: State, start: U16) {
    s.err == 0 && s.refs == 1 && s.reports == [] && s.pending == [Find(start)]
  }

  /** Taking in a page, issuing the next find and giving the reference back, step by step. */
  lemma AnswerPage(s: State, start: U16, end: U16, mtu: nat, pdu: seq<Byte>, p: seq<Include>)
    requires Lone(s, start) && p != [] && (forall d :: d in p ==> d.Valid())
    requires Sound(pdu) && PageOf(pdu) == Some(DataList(pdu[1], Encoded(p, PutInclude)))
    ensures forall e :: e in Encoded(p, PutInclude) ==> |e| == 6 || |e| == 8
    ensures Answer(s, end, mtu, 0, pdu)
      == Unref(IssueFind(TakeAll(s.(pending := []), Encoded(p, PutInclude)), After(p, end)))
  {
    hide TakeAll, Encoded, PageOf, Sound, PutInclude, OnFind, After, Unref, IssueFind;
    OnFindPage(s.(pending := []), end, pdu, p);
    assert s.pending[1..] == [];
  }

  lemma NoLookups(next: Option<U16>)
    ensures Lookups([]) + FindFrom(next) == [] + FindFrom(next) == FindFrom(next)
  {
  }

  lemma ShortShape(t: State, next: Option<U16>)
    requires t.err == 0 && t.refs == 1 && t.reports == [] && t.pending == []
    ensures var u := Unref(IssueFind(t, next));
      InFlight(u, [], next) && u.includes == t.includes
  {
    NoLookups(next);
  }

  lemma LongShape(t: State, p: seq<Include>, next: Option<U16>)
    requires t.err == 0 && t.refs == 1 + |p| && t.reports == [] && t.pending == Lookups(p) && p != []
    requires forall d :: d in p ==> d.Valid() && d.uuid.Uuid128?
    ensures var u := Unref(IssueFind(t, next));
      InFlight(u, p, next) && u.includes == t.includes
  {
    hide Lookups;
    assert Lookups(p) + [] == Lookups(p);
  }

  lemma NoneTold(done: seq<Incl>)
    ensures done + AllTold([]) == done
  {
  }

  /** After a page: its 16-bit includes are found, its 128-bit includes are being looked up. */
  lemma PageStep(s: State, start: U16, end: U16, mtu: nat, pdu: seq<Byte>, p: seq<Include>) returns (q: seq<Include>)
    requires Lone(s, start) && p != [] && (forall d :: d in p ==> d.Valid())
    requires (forall d :: d in p ==> d.uuid.Uuid16?) || (forall d :: d in p ==> d.uuid.Uuid128?)
    requires Sound(pdu) && PageOf(pdu) == Some(DataList(pdu[1], Encoded(p, PutInclude)))
    ensures q == [] || q == p
    ensures var u := Answer(s, end, mtu, 0, pdu);
      InFlight(u, q, After(p, end)) && u.includes + AllTold(q) == s.includes + AllTold(p)
  {
    hide TakeAll, Encoded, PageOf, Sound, PutInclude, Answer, After, Unref, IssueFind, InFlight, Lookups, AllTold;
    AnswerPage(s, start, end, mtu, pdu, p);
    var t := s.(pending := []);
    if forall d :: d in p ==> d.uuid.Uuid16? {
      TakeShort(t, p);
      q := [];
      ShortShape(t.(includes := s.includes + AllTold(p)), After(p, end));
      NoneTold(s.includes + AllTold(p));
    } else {
      TakeLong(t, p);
      q := p;
      assert [] + Lookups(p) == Lookups(p);
      LongShape(t.(refs := t.refs + |p|, pending := [] + Lookups(p)), p, After(p, end));
    }
  }

  lemma RestAfter(t: seq<Include>, uuidAt: U16 -> seq<Byte>, lo: U16, hi: U16, j: nat)
    requires IncludeTable(t, uuidAt) && 1 <= j <= |Between(t, HandleOf, lo, hi)|
    ensures var m := Between(t, HandleOf, lo, hi); m[j..] == Rest(t, After(m[..j], hi), hi)
  {
    hide IncludeTable, Between;
    IncludesSpaced(t, uuidAt);
    CutHere(t, HandleOf, HandleOf, lo, hi, j);
  }

  lemma JustFind(s: State, start: U16)
    requires InFlight(s, [], Some(start))
    ensures s.pending == [Find(start)] && Lone(s, start)
  {
    assert Lookups([]) == [];
  }

  /** What a page leaves: the includes found, the lookups issued, and perhaps the next find. */
  lemma FindStep(s: State, t: seq<Include>, uuidAt: U16 -> seq<Byte>, start: U16, end: U16, mtu: nat, want: nat,
                 m: seq<Include>)
      returns (u: State, q: seq<Include>, next: Option<U16>, j: nat)
    requires IncludeTable(t, uuidAt) && mtu >= 23 && InFlight(s, [], Some(start))
    requires m == Between(t, HandleOf, start, end) != []
    ensures s.pending != [] && Next(s, t, uuidAt, end, mtu, want) == Some(u)
    ensures InFlight(u, q, next) && 1 <= j <= |m| && |q| <= j && (forall d :: d in q ==> d in t)
    ensures m[j..] == Rest(t, next, end)
    ensures u.includes + AllTold(q) == s.includes + AllTold(m[..j])
  {
    hide Answer, PutInclude, AllTold, PageList, PageOf, Sound, ReadByTypeResp, Clip, Serve, Encoded, After, Rest;
    hide Between, InFlight, Lone, IncludeTable;
    JustFind(s, start);
    ServeFind(t, uuidAt, start, end, mtu, want);
    j := PageDecodes(m, want, mtu);
    RestAfter(t, uuidAt, start, end, j);
    var p := m[..j];
    assert forall d :: d in p ==> d in m;
    next := After(p, end);
    var pdu := Serve(t, uuidAt, end, mtu, Find(start), want).pdu;
    q := PageStep(s, start, end, mtu, pdu, p);
    u := Answer(s, end, mtu, 0, pdu);
  }

  /** No more includes: the find ends without an error. */
  lemma FindEnds(s: State, t: seq<Include>, uuidAt: U16 -> seq<Byte>, start: U16, end: U16, mtu: nat, want: nat)
    requires IncludeTable(t, uuidAt) && mtu >= 23 && InFlight(s, [], Some(start))
    requires Between(t, HandleOf, start, end) == []
    ensures s.pending != []
    ensures var r := Serve(t, uuidAt, end, mtu, s.pending[0], want);
      && Fits(s.pending[0], r.status, r.pdu)
      && var u := Answer(s, end, mtu, r.status, r.pdu);
      InFlight(u, [], None) && u.includes == s.includes
  {
    JustFind(s, start);
    ServeFind(t, uuidAt, start, end, mtu, want);
    AnswerKeeps(s, end, mtu, ATT_ECODE_ATTR_NOT_FOUND, []);
    assert Lookups([]) == [];
  }

  /** The order of discovery: what is being looked up, then what a find will give. */
  lemma ToldSplit(done: seq<Incl>, u: seq<Incl>, q: seq<Include>, m: seq<Include>, j: nat)
    requires j <= |m| && u + AllTold(q) == done + AllTold(m[..j])
    ensures u + AllTold(q + m[j..]) == done + AllTold(m)
  {
    var a, b := m[..j], m[j..];
    assert m == a + b;
    hide AllTold;
    AllToldConcat(q, b);
    AllToldConcat(a, b);
    Assoc(u, AllTold(q), AllTold(b));
    Assoc(done, AllTold(a), AllTold(b));
  }

  /** How many more answers the discovery needs at most. */
  function Needed(q: seq<Include>, next: Option<U16>, m: seq<Include>): nat {
    |q| + if next.Some? then 2 * |m| + 1 else 0
  }

  lemma ToldFirst(done: seq<Incl>, q: seq<Include>, rest: seq<Include>)
    requires q != []
    ensures (done + [Told(q[0])]) + AllTold(q[1..] + rest) == done + AllTold(q + rest)
  {
    hide AllTold;
    ToldSnoc(done, q[0], q[1..] + rest);
    assert [q[0]] + (q[1..] + rest) == q + rest;
  }

  /** What is left to report after one answer is what was left before, less what that answer completed. */
  lemma OneAnswer(s: State, t: seq<Include>, uuidAt: U16 -> seq<Byte>, end: U16, mtu: nat, q: seq<Include>,
                  next: Option<U16>, want: nat)
      returns (p: seq<Include>, after: Option<U16>)
    requires IncludeTable(t, uuidAt) && mtu >= 23 && InFlight(s, q, next) && (q != [] || next.Some?)
    requires forall d :: d in q ==> d in t
    ensures s.pending != [] && Next(s, t, uuidAt, end, mtu, want).Some?
    ensures var u := Next(s, t, uuidAt, end, mtu, want).value;
      && InFlight(u, p, after) && (forall d :: d in p ==> d in t)
      && u.includes + AllTold(p + Rest(t, after, end)) == s.includes + AllTold(q + Rest(t, next, end))
      && Needed(p, after, Rest(t, after, end)) < Needed(q, next, Rest(t, next, end))
  {
    hide IncludeTable, InFlight, Answer, Serve, Fits, AllTold, Between, Told;
    if q != [] {
      assert q[0] in q;
      LookupStep(s, t, uuidAt, end, mtu, q, next, want);
      p, after := q[1..], next;
      ToldFirst(s.includes, q, Rest(t, next, end));
    } else {
      var m := Rest(t, next, end);
      assert q + m == m;
      if m == [] {
        FindEnds(s, t, uuidAt, next.value, end, mtu, want);
        p, after := [], None;
        assert p + Rest(t, after, end) == m;
      } else {
        var u, j;
        u, p, after, j := FindStep(s, t, uuidAt, next.value, end, mtu, want, m);
        ToldSplit(s.includes, u.includes, p, m, j);
      }
    }
  }

  lemma Done(s: State)
    requires InFlight(s, [], None)
    ensures s.pending == [] && s.reports == [Found(s.includes)] && s.includes + AllTold([]) == s.includes
  {
    assert Lookups([]) == [] && AllTold([]) == [];
  }

  lemma {:induction false} ServedFinds(s: State, t: seq<Include>, uuidAt: U16 -> seq<Byte>, end: U16, mtu: nat,
                                       wants: nat -> nat, q: seq<Include>, next: Option<U16>, n: nat)
    requires IncludeTable(t, uuidAt) && mtu >= 23 && InFlight(s, q, next) && (forall d :: d in q ==> d in t)
    requires n >= Needed(q, next, Rest(t, next, end))
    ensures var r := Served(s, t, uuidAt, end, mtu, wants, n);
      r.Some? && r.value.reports == [Found(s.includes + AllTold(q + Rest(t, next, end)))]
    decreases n
  {
    hide IncludeTable, InFlight, Next, AllTold, Between, Needed;
    if q == [] && next.None? {
      Done(s);
      assert q + Rest(t, next, end) == [];
    } else {
      var p, after := OneAnswer(s, t, uuidAt, end, mtu, q, next, wants(n));
      ServedFinds(Next(s, t, uuidAt, end, mtu, wants(n)).value, t, uuidAt, end, mtu, wants, p, after, n - 1);
    }
  }

  /**
   Against a conforming server the user is told every include of the range exactly once, in handle order, with
   its UUID.
   */
  lemma AllIncludesFound(t: seq<Include>, uuidAt: U16 -> seq<Byte>, start: U16, end: U16, mtu: nat, wants: nat -> nat,
                         n: nat)
    requires IncludeTable(t, uuidAt) && mtu >= 23 && n > 2 * |Between(t, HandleOf, start, end)|
    ensures var r := Served(Begin(start), t, uuidAt, end, mtu, wants, n);
      r.Some? && r.value.reports == [Found(AllTold(Between(t, HandleOf, start, end)))]
  {
    hide Served, AllTold, Between, IncludeTable;
    var m := Between(t, HandleOf, start, end);
    assert Lookups([]) == [];
    ServedFinds(Begin(start), t, uuidAt, end, mtu, wants, [], Some(start), n);
    assert [] + m == m;
    assert [] + AllTold(m) == AllTold(m);
  }
}

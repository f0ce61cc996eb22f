/**
 The long read on the transport, joined with its transfer: whatever else is sent, answered or
 cancelled meanwhile, a read whose requests are answered by the server delivers exactly the value.
 */
module LongReadValue {
  import opened Basics
  import opened Bytes
  import opened AttCodes
  import Att
  import opened AttribAnswers
  import opened AttribIds
  import opened AttribSpec
  import opened AttribSafety
  import opened LongReadAtomic
  import opened LongReadReport
  import GattRead

  /**
   The transport with the read's commands, what the read has fetched, the offset of its BLOB if it asked for
   one, and what the user was told.
   */
  datatype Joint = Joint(w: World, p: GattRead.Progress, asked: Option<U16>, told: seq<GattRead.Outcome>)

  /** What happens meanwhile. An answer comes to the outstanding request; if that is the read's, it is the server's. */
  datatype JEvent =
    | JAct(act: Action)
    | JCanWrite(hup: bool, ioOk: bool)
    | JOther(hup: bool, rdOk: bool, opcode: nat, ecode: nat, events: seq<Action>)
    | JAnswer(opcode: nat, ecode: nat, events: seq<Action>, acts: seq<Action>)

  /** The attribute that is read, and the MTU of the connection. */
  datatype Attribute = Attribute(handle: U16, value: seq<Byte>, mtu: nat) {
    predicate Valid() {
      |value| < 0xFFFF && 23 <= mtu <= RX_BUFFER
    }
  }

  /** The server's response to the read's request, as the transport receives it. */
  function Response(a: Attribute, asked: Option<U16>): (r: seq<Byte>)
    requires a.mtu >= 23
    ensures 1 <= |r| <= RX_BUFFER
  {
    if asked.None? then GattRead.ReadAnswer(a.handle, a.value, a.mtu, 0).1
    else GattRead.BlobAnswer(a.handle, a.value, asked.value, a.mtu, 0).1
  }

  /** The callback of the read's command c, with the status that the transport finds. */
  function OnResponse(a: Attribute, p: GattRead.Progress, asked: Option<U16>, c: Cmd):
      (r: (GattRead.Progress, GattRead.Outcome))
    requires a.mtu >= 23 && p.Valid()
    ensures r.0.Valid()
  {
    var rpdu := Response(a, asked);
    var status := ResultStatus(c, rpdu[0], Att.StatusOf(rpdu));
    if asked.None? then GattRead.OnRead(status, rpdu, a.mtu, true) else GattRead.OnBlob(p, status, rpdu, a.mtu, true)
  }

  /** The server's response as an event of the transport. */
  function ResponseEvent(a: Attribute, asked: Option<U16>, more: bool, events: seq<Action>, acts: seq<Action>): WEvent
    requires a.mtu >= 23
  {
    var rpdu := Response(a, asked);
    WReceived(false, true, rpdu[0], Att.StatusOf(rpdu), more, events, acts)
  }

  /** What the transport's main loop and other code do. */
  function OtherEvent(e: JEvent): WEvent {
    match e
    case JAct(act) => WAct(act)
    case JCanWrite(hup, ioOk) => WCanWrite(hup, ioOk)
    case JOther(hup, rdOk, opcode, ecode, events) => WReceived(hup, rdOk, opcode, ecode, false, events, [])
    case JAnswer(opcode, ecode, events, acts) => WReceived(false, true, opcode, ecode, false, events, acts)
  }

  /** The event is the answer to a command of the read. */
  ghost predicate ForRead(w: World, e: JEvent) {
    e.JAnswer? && var u := Acts(w.s, e.events); u.requests != [] && Mine(w.r, u.requests[0])
  }

  ghost function JStep(a: Attribute, j: Joint, e: JEvent): (t: Joint)
    requires a.mtu >= 23 && j.p.Valid()
    ensures t.p.Valid()
  {
    if !ForRead(j.w, e) then j.(w := WStep(j.w, OtherEvent(e)))
    else
      var c := Acts(j.w.s, e.events).requests[0];
      if !c.func then j.(w := WStep(j.w, ResponseEvent(a, j.asked, false, e.events, e.acts)))
      else
        var (q, o) := OnResponse(a, j.p, j.asked, c);
        match o
        case Ask(next) => Joint(WStep(j.w, ResponseEvent(a, j.asked, true, e.events, [])), q, Some(next), j.told)
        case Report(_, _) =>
          Joint(WStep(j.w, ResponseEvent(a, j.asked, false, e.events, e.acts)), q, j.asked, j.told + [o])
  }

  ghost function JRun(a: Attribute, j: Joint, es: seq<JEvent>): (t: Joint)
    requires a.mtu >= 23 && j.p.Valid()
    ensures t.p.Valid()
    decreases |es|
  {
    if es == [] then j else JRun(a, JStep(a, j, es[0]), es[1..])
  }

  /**
   Other code does not use the read's id; only answers are responses, and they come to a request that is
   outstanding.
   */
  ghost predicate JAllowed(w: World, e: JEvent) {
    match e
    case JAct(act) => act.ActSend? ==> act.id == 0
    case JCanWrite(_, _) => true
    case JOther(hup, rdOk, opcode, _, events) => Plain(events) && (hup || !rdOk || !IsResponse(opcode))
    case JAnswer(_, _, events, acts) => !w.s.stale && HeadSent(w.s) && Plain(events) && Foreign(w.r.id, acts)
  }

  ghost predicate JAllowedRun(a: Attribute, j: Joint, es: seq<JEvent>)
    requires a.mtu >= 23 && j.p.Valid()
    decreases |es|
  {
    es != [] ==> JAllowed(j.w, es[0]) && JAllowedRun(a, JStep(a, j, es[0]), es[1..])
  }

  // ----- the invariant -----

  function Expected(asked: Option<U16>): nat {
    if asked.None? then ATT_OP_READ_RESP else ATT_OP_READ_BLOB_RESP
  }

  /** The read's commands wait for a response with this opcode. */
  ghost predicate OfKind(w: World, kind: nat) {
    forall c :: c in w.s.requests && Mine(w.r, c) ==> c.expected == kind
  }

  /** What is fetched is the value up to the offset asked for. */
  predicate Fetching(a: Attribute, p: GattRead.Progress, asked: Option<U16>)
    requires a.Valid()
  {
    if asked.None? then p == GattRead.Progress([], 0)
    else asked.value <= |a.value| && p == GattRead.SoFar(a.value, asked.value)
  }

  function TheValue(a: Attribute): GattRead.Outcome {
    GattRead.Report(0, GattRead.Whole(a.value))
  }

  ghost predicate JInv(a: Attribute, j: Joint)
    requires a.Valid()
  {
    && WInv(j.w) && Settled(j.w.s, j.w.r) && OfKind(j.w, Expected(j.asked))
    && |j.told| == j.w.r.delivered && (j.told == [] || j.told == [TheValue(a)])
    && (if j.told == [] then Fetching(a, j.p, j.asked) else !Active(j.w.s, j.w.r))
  }

  // ----- the transfer -----

  lemma FirstResponse(a: Attribute)
    requires a.Valid()
    ensures var rpdu := Response(a, None);
      && rpdu[0] == ATT_OP_READ_RESP && Att.StatusOf(rpdu) == 0
      && rpdu == Att.Clip(Att.ReadResp(a.value, a.mtu))
  {
    GattRead.ReadAsked(a.handle, a.value, a.mtu, 0);
  }

  lemma NextResponse(a: Attribute, offset: U16)
    requires a.Valid() && offset <= |a.value|
    ensures var rpdu := Response(a, Some(offset));
      && rpdu[0] == ATT_OP_READ_BLOB_RESP && Att.StatusOf(rpdu) == 0
      && rpdu == Att.Clip(Att.ReadBlobResp(a.value, offset, a.mtu))
  {
    GattRead.BlobAsked(a.handle, a.value, offset, a.mtu, 0);
  }

  /** A callback that is told of the server's response asks on from where the value is fetched, or reports the value. */
  lemma ResponseMoves(a: Attribute, p: GattRead.Progress, asked: Option<U16>, c: Cmd)
    requires a.Valid() && p.Valid() && Fetching(a, p, asked) && c.expected == Expected(asked)
    ensures var rpdu := Response(a, asked);
      rpdu[0] == Expected(asked) && ResultStatus(c, rpdu[0], Att.StatusOf(rpdu)) == 0
    ensures var (q, o) := OnResponse(a, p, asked, c);
      if o.Ask? then Fetching(a, q, Some(o.offset)) else o == TheValue(a)
  {
    hide GattRead.OnRead, GattRead.OnBlob, GattRead.Whole, GattRead.SoFar, Att.ReadResp, Att.ReadBlobResp, Response;
    if asked.None? {
      FirstResponse(a);
      if |a.value| < a.mtu - 1 {
        GattRead.FirstShort(a.value, a.mtu);
      } else {
        GattRead.FirstFull(a.value, a.mtu);
      }
    } else {
      NextResponse(a, asked.value);
      if |a.value| - asked.value < a.mtu - 1 {
        GattRead.LastPart(a.value, asked.value, a.mtu);
      } else {
        GattRead.FullPart(a.value, asked.value, a.mtu);
      }
    }
  }

  // ----- the transport -----

  /** What other code and other answers do to the kind of the read's commands. */
  lemma KindKept(s: State, t: State, r: LongRead, kind: nat)
    requires Own(s, r) && Stems(s, t) && OfKind(World(s, r), kind)
    ensures OfKind(World(t, r), kind)
  {
    forall c | c in t.requests && Mine(r, c)
      ensures c.expected == kind
    {
      assert From(c, s);
      var d :| d in s.requests && d.serial == c.serial && d.expected == c.expected;
      assert Mine(r, d);
    }
  }

  lemma CanWriteKind(s: State, hup: bool, ioOk: bool, r: LongRead, kind: nat)
    requires OfKind(World(s, r), kind)
    ensures OfKind(World(CanWrite(s, hup, ioOk), r), kind)
  {
    var t := CanWrite(s, hup, ioOk);
    forall c | c in t.requests && Mine(r, c)
      ensures c.expected == kind
    {
      if c !in s.requests {
        assert s.requests[0] in s.requests && c.serial == s.requests[0].serial && c.expected == s.requests[0].expected;
      }
    }
  }

  /** A read without commands is of every kind. */
  lemma NoKind(w: World)
    ensures !Active(w.s, w.r) <==> OfKind(w, 0) && OfKind(w, 1)
  {
  }

  /** The read and its counts after an event that is not for it. */
  lemma OtherRead(w: World, e: JEvent)
    requires !ForRead(w, e) && JAllowed(w, e)
    ensures var t := WStep(w, OtherEvent(e));
      t.r.id == w.r.id && t.r.mine == w.r.mine && t.r.delivered == w.r.delivered
  {
    hide Act, Acts, CanWrite, Received, Timeout;
  }

  lemma KindMine(t: World, r: LongRead, kind: nat)
    requires t.r.mine == r.mine && OfKind(World(t.s, r), kind)
    ensures OfKind(t, kind)
  {
  }

  lemma OtherState(w: World, e: JEvent, kind: nat)
    requires WInv(w) && OfKind(w, kind) && !ForRead(w, e) && JAllowed(w, e)
    ensures OfKind(WStep(w, OtherEvent(e)), kind)
  {
    hide Act, Acts, CanWrite, Received, Timeout, Stems, OfKind, Inv, RefOk, DeliveredOk, Started, AtHead, Own, Unref;
    var s, t := w.s, WStep(w, OtherEvent(e));
    OtherRead(w, e);
    match e {
      case JAct(act) =>
        ActStems(s, act);
        KindKept(s, t.s, w.r, kind);
      case JCanWrite(hup, ioOk) =>
        if s.writeWatch {
          CanWriteKind(s, hup, ioOk, w.r, kind);
        } else {
          StemsSub(s, s);
          KindKept(s, s, w.r, kind);
        }
      case JOther(hup, rdOk, opcode, ecode, events) =>
        ReceivedStems(s, hup, rdOk, opcode, ecode, events, []);
        KindKept(s, t.s, w.r, kind);
      case JAnswer(opcode, ecode, events, acts) =>
        ReceivedStems(s, false, true, opcode, ecode, events, acts);
        KindKept(s, t.s, w.r, kind);
    }
    KindMine(t, w.r, kind);
  }

  lemma OtherAllowed(w: World, e: JEvent)
    requires JAllowed(w, e)
    ensures WAllowed(w.r, OtherEvent(e))
  {
  }

  lemma OtherKeeps(a: Attribute, j: Joint, e: JEvent)
    requires a.Valid() && j.p.Valid() && JInv(a, j) && !ForRead(j.w, e) && JAllowed(j.w, e)
    ensures JInv(a, JStep(a, j, e))
  {
    hide WInv, Settled, OfKind, WStep, Fetching, Active, ForRead, JAllowed, TheValue;
    var t := WStep(j.w, OtherEvent(e));
    OtherAllowed(j.w, e);
    WStepKeeps(j.w, OtherEvent(e));
    StepSettles(j.w, OtherEvent(e));
    OtherRead(j.w, e);
    OtherState(j.w, e, Expected(j.asked));
    if j.told != [] {
      NoKind(j.w);
      OtherState(j.w, e, 0);
      OtherState(j.w, e, 1);
      NoKind(t);
    }
  }

  /**
   The read's command at the head is of the read's kind, whatever event handlers did before, and was queued
   before them.
   */
  lemma HeadKind(w: World, kind: nat, events: seq<Action>)
    requires Own(w.s, w.r) && OfKind(w, kind)
    requires var u := Acts(w.s, events); u.requests != [] && Mine(w.r, u.requests[0])
    ensures Acts(w.s, events).requests[0].expected == kind && Active(w.s, w.r)
  {
    hide Acts, Stems, Own;
    var u := Acts(w.s, events);
    ActsStem(w.s, events);
    KindKept(w.s, u, w.r, kind);
    assert u.requests[0] in u.requests;
    if !Active(w.s, w.r) {
      NoKind(w);
      KindKept(w.s, u, w.r, 0);
      KindKept(w.s, u, w.r, 1);
    }
  }

  /** A response that ends the read leaves none of its commands. */
  lemma EndedState(w: World, e: WEvent)
    requires WInv(w) && e.WReceived? && WAllowed(w.r, e) && Answers(w.s, e) && !e.more
    requires var u := Acts(w.s, e.events); u.requests != [] && Mine(w.r, u.requests[0])
    ensures var t, c := WStep(w, e), Acts(w.s, e.events).requests[0];
      && !Active(t.s, t.r) && t.r.delivered == (if c.func then w.r.delivered + 1 else w.r.delivered)
  {
    hide Ledger, Sequential, Acts, Answer, Own, Respects, RefOk, DeliveredOk, Started, AtHead, ResultStatus;
    IdPositive(w.s, w.r);
    ReceivedRespects(w.s, w.r, e);
    SameMine(WStep(w, e).s, w.r, WStep(w, e).r);
  }

  lemma NoneOfKind(t: World, kind: nat)
    requires !Active(t.s, t.r)
    ensures OfKind(t, kind)
  {
  }

  lemma UnrefDelivered(r: LongRead, s: State, t: State)
    ensures Unref(r, s, t).delivered == r.delivered
  {
  }

  lemma OnlyHead(t: World)
    requires Own(t.s, t.r) && t.s.requests != [] && Mine(t.r, t.s.requests[0])
    ensures forall c :: c in t.s.requests && Mine(t.r, c) ==> c == t.s.requests[0]
  {
    forall c | c in t.s.requests && Mine(t.r, c)
      ensures c == t.s.requests[0]
    {
      var i :| 0 <= i < |t.s.requests| && t.s.requests[i] == c;
    }
  }

  /** A response that the read answers with a BLOB leaves that one alone. */
  lemma ContinuedState(w: World, e: WEvent, next: U16)
    requires WInv(w) && e.WReceived? && WAllowed(w.r, e) && Answers(w.s, e)
    requires var u := Acts(w.s, e.events); u.requests != [] && Continues(w.r, u.requests[0], e)
    ensures OfKind(WStep(w, e), Expected(Some(next))) && WStep(w, e).r.delivered == w.r.delivered
  {
    hide Ledger, Sequential, Answer, Acts, Respects, RefOk, DeliveredOk, Active, AtHead, Started, ResultStatus, OnlyOne;
    hide Unref;
    var s, r, u, t := w.s, w.r, Acts(w.s, e.events), WStep(w, e);
    IdPositive(s, r);
    PlainIsForeign(r.id, e.events);
    ActsKeep(s, {}, e.events);
    ContinuationState(u, r.id, e.opcode, e.ecode);
    WContinuesKeeps(w, e);
    OnlyHead(t);
    UnrefDelivered(r.(mine := r.mine + {u.nextSerial}, ref := r.ref + 1), s, t.s);
  }

  lemma OwnIn(w: World)
    requires WInv(w)
    ensures Own(w.s, w.r)
  {
  }

  /** The server's response comes as an answer that the transport hands to its head. */
  lemma ResponseIsAnswer(a: Attribute, w: World, asked: Option<U16>, more: bool, events: seq<Action>, acts: seq<Action>)
    requires a.Valid() && !w.s.stale && Response(a, asked)[0] == Expected(asked) && Plain(events)
    requires Foreign(w.r.id, acts)
    ensures var x := ResponseEvent(a, asked, more, events, acts); x.WReceived? && WAllowed(w.r, x) && Answers(w.s, x)
  {
    hide Response;
  }

  lemma ReadKeeps(a: Attribute, j: Joint, e: JEvent)
    requires a.Valid() && j.p.Valid() && JInv(a, j) && ForRead(j.w, e) && JAllowed(j.w, e)
    ensures JInv(a, JStep(a, j, e))
  {
    hide WInv, Settled, OfKind, WStep, Acts, Response, OnResponse, IsResponse, ResultStatus, Fetching, TheValue, Own;
    hide Active, Answers, WAllowed, Expected;
    var w, c := j.w, Acts(j.w.s, e.events).requests[0];
    OwnIn(w);
    HeadKind(w, Expected(j.asked), e.events);
    assert j.told == [];
    ResponseMoves(a, j.p, j.asked, c);
    var (q, o) := OnResponse(a, j.p, j.asked, c);
    if c.func && o.Ask? {
      var x := ResponseEvent(a, j.asked, true, e.events, []);
      ResponseIsAnswer(a, w, j.asked, true, e.events, []);
      WStepKeeps(w, x);
      StepSettles(w, x);
      ContinuedState(w, x, o.offset);
    } else {
      var x := ResponseEvent(a, j.asked, false, e.events, e.acts);
      ResponseIsAnswer(a, w, j.asked, false, e.events, e.acts);
      WStepKeeps(w, x);
      StepSettles(w, x);
      EndedState(w, x);
      NoneOfKind(WStep(w, x), Expected(j.asked));
    }
  }

  // ----- whole runs -----

  lemma {:induction false} JRunKeeps(a: Attribute, j: Joint, es: seq<JEvent>)
    requires a.Valid() && j.p.Valid() && JInv(a, j) && JAllowedRun(a, j, es)
    ensures JInv(a, JRun(a, j, es))
    decreases |es|
  {
    hide JInv, JStep, JAllowed, ForRead;
    if es != [] {
      if ForRead(j.w, es[0]) {
        ReadKeeps(a, j, es[0]);
      } else {
        OtherKeeps(a, j, es[0]);
      }
      JRunKeeps(a, JStep(a, j, es[0]), es[1..]);
    }
  }

  /** gatt_read_char on a live transport. */
  ghost function JStart(s: State): (j: Joint)
    requires !s.stale
    ensures j.p.Valid()
  {
    Joint(Start(s), GattRead.Progress([], 0), None, [])
  }

  lemma JStartInv(a: Attribute, s: State)
    requires a.Valid() && Inv(s) && !s.stale && WInv(Start(s)) && Settled(Start(s).s, Start(s).r)
    ensures JInv(a, JStart(s))
  {
    hide Ledger, Sequential, RefOk, Settled, AtHead, Started, Active, DeliveredOk;
    var w := Start(s);
    var c := Cmd(s.nextSerial, s.nextId + 1, ATT_OP_READ_REQ, ATT_OP_READ_RESP, false, true);
    assert w.s.requests == s.requests + [c];
    FreshSerial(s);
    forall x | x in w.s.requests && Mine(w.r, x)
      ensures x.expected == ATT_OP_READ_RESP
    {
      assert x in s.requests || x == c;
    }
  }

  lemma JInvTells(a: Attribute, j: Joint)
    requires a.Valid() && JInv(a, j)
    ensures j.told == [] || j.told == [TheValue(a)]
    ensures Active(j.w.s, j.w.r) || j.told == [TheValue(a)] || WasCancelled(j.w.s, j.w.r)
  {
  }

  /**
   A long read started on a transport that has run before, with any sends, cancels and answers to
   others in between: the user is told nothing but the value, with status zero, and only once; and when
   no command of the read is left, the user has been told or the read was cancelled.
   */
  lemma DeliversTheValue(a: Attribute, before: seq<Event>, es: seq<JEvent>)
    requires a.Valid() && ReturnedRun(INIT, before) && (forall e :: e in before ==> Allowed(e))
    requires !Run(INIT, before).stale
    requires JAllowedRun(a, JStart(Run(INIT, before)), es)
    ensures var j := JRun(a, JStart(Run(INIT, before)), es);
      && (j.told == [] || j.told == [GattRead.Report(0, GattRead.Whole(a.value))])
      && (Active(j.w.s, j.w.r) || j.told == [GattRead.Report(0, GattRead.Whole(a.value))] || WasCancelled(j.w.s, j.w.r))
  {
    hide Run, ReturnedRun, Inv, WInv, Settled, Start, Active, JInv, JRun, JAllowedRun, JStart, WasCancelled;
    var s := Run(INIT, before);
    StartsAnywhere(before);
    JStartInv(a, s);
    JRunKeeps(a, JStart(s), es);
    JInvTells(a, JRun(a, JStart(s), es));
  }
}

/**
 A long read over the ATT transport: its continuations go back to the head of the request queue
 under the same id, so the whole read is atomic among requests and one cancel stops it.
 */
module LongReadAtomic {
  import opened AttCodes
  import opened AttribEffects
  import opened AttribSpec
  import opened AttribSafety

  /**
   One long read: its id, the serials of the commands it issued, the reference count, how often it
   was freed, and how often its result was delivered.
   */
  datatype LongRead = LongRead(id: nat, mine: set<nat>, ref: int, freed: nat, delivered: nat)

  datatype World = World(s: State, r: LongRead)

  /** The environment's events; `more` says whether a response filled the buffer. */
  datatype WEvent =
    | WAct(act: Action)
    | WCanWrite(hup: bool, ioOk: bool)
    | WReceived(hup: bool, rdOk: bool, opcode: nat, ecode: nat, more: bool, events: seq<Action>, acts: seq<Action>)
    | WTimeout(scripts: seq<seq<Action>>)

  predicate Mine(r: LongRead, c: Cmd) {
    c.serial in r.mine
  }

  /** read_long_destroy runs once for every command of the read that the transport destroys. */
  ghost function Unref(r: LongRead, s: State, t: State): LongRead {
    var gone := set k | k in r.mine && Destroyed(k) in t.log && Destroyed(k) !in s.log;
    r.(ref := r.ref - |gone|, freed := r.freed + if gone != {} && r.ref - |gone| <= 0 then 1 else 0)
  }

  /** The callback of one of the read's commands ran between the two states. */
  ghost predicate CalledBack(s: State, t: State, r: LongRead) {
    exists k :: k in r.mine && NotCalled(s.log, k) && !NotCalled(t.log, k)
  }

  /** gatt_read_char on a live transport. */
  ghost function Start(s: State): World
    requires !s.stale
  {
    var (t, id) := Send(s, 0, ATT_OP_READ_REQ, true);
    World(t, LongRead(id, {s.nextSerial}, 1, 0, 0))
  }

  /** Does this response go to the read's callback, and does the callback ask for more? */
  predicate Continues(r: LongRead, c: Cmd, e: WEvent)
    requires e.WReceived?
  {
    Mine(r, c) && c.func && ResultStatus(c, e.opcode, e.ecode) == 0 && e.more
  }

  predicate Delivers(r: LongRead, c: Cmd, e: WEvent)
    requires e.WReceived?
  {
    Mine(r, c) && c.func && !(ResultStatus(c, e.opcode, e.ecode) == 0 && e.more)
  }

  /** read_char_helper and read_blob_helper as the callbacks of the read's commands. */
  ghost function WStep(w: World, e: WEvent): World {
    match e
    case WAct(a) =>
      var t := Act(w.s, a);
      World(t, Unref(w.r, w.s, t))
    case WCanWrite(hup, ioOk) =>
      var t := if w.s.writeWatch then CanWrite(w.s, hup, ioOk) else w.s;
      World(t, Unref(w.r, w.s, t))
    case WReceived(hup, rdOk, opcode, ecode, more, events, acts) =>
      var u := Acts(w.s, events);
      if !w.s.stale && !hup && rdOk && IsResponse(opcode) && u.requests != [] && Continues(w.r, u.requests[0], e) then
        var t := Received(w.s, hup, rdOk, opcode, ecode, events, [ActSend(w.r.id, ATT_OP_READ_BLOB_REQ, true)]);
        var r := w.r.(mine := w.r.mine + {u.nextSerial}, ref := w.r.ref + 1);
        World(t, Unref(r, w.s, t))
      else if !w.s.stale && !hup && rdOk && IsResponse(opcode) && u.requests != []
        && Delivers(w.r, u.requests[0], e) then
        var t := Received(w.s, hup, rdOk, opcode, ecode, events, acts);
        World(t, Unref(w.r.(delivered := w.r.delivered + 1), w.s, t))
      else
        var t := Received(w.s, hup, rdOk, opcode, ecode, events, acts);
        World(t, Unref(w.r, w.s, t))
    case WTimeout(scripts) =>
      if w.s.timeoutWatch && !w.s.stale then
        var t := Timeout(w.s, scripts);
        var r := if CalledBack(w.s, t, w.r) then w.r.(delivered := w.r.delivered + 1) else w.r;
        World(t, Unref(r, w.s, t))
      else w
  }

  /** User code never passes the read's own id to a send. */
  predicate Foreign(id: nat, acts: seq<Action>) {
    forall a :: a in acts && a.ActSend? ==> a.id != id
  }

  predicate Plain(acts: seq<Action>) {
    forall a :: a in acts && a.ActSend? ==> a.id == 0
  }

  predicate WAllowed(r: LongRead, e: WEvent) {
    match e
    case WAct(a) => a.ActSend? ==> a.id == 0
    case WCanWrite(_, _) => true
    case WReceived(_, _, _, _, _, events, acts) => Plain(events) && Foreign(r.id, acts)
    case WTimeout(scripts) => forall script :: script in scripts ==> Foreign(r.id, script)
  }

  ghost predicate Active(s: State, r: LongRead) {
    exists c :: c in s.requests && Mine(r, c)
  }

  ghost predicate OnlyOne(q: seq<Cmd>, r: LongRead) {
    forall i, j :: 0 <= i < j < |q| ==> !(Mine(r, q[i]) && Mine(r, q[j]))
  }

  /** The read's id names its commands and no others; they are all requests that expect an answer, one at a time. */
  ghost predicate Own(s: State, r: LongRead) {
    && 1 <= r.id <= s.nextId
    && (forall k :: k in r.mine ==> k < s.nextSerial)
    && (forall c :: c in s.requests ==> (Mine(r, c) <==> c.id == r.id) && (Mine(r, c) ==> c.expected != 0))
    && (forall c :: c in s.responses ==> !Mine(r, c) && c.id != r.id)
    && OnlyOne(s.requests, r)
  }

  /** If the read has a command queued, it is the head. */
  ghost predicate AtHead(s: State, r: LongRead) {
    Active(s, r) ==> Mine(r, s.requests[0])
  }

  /** What a call of other code does to the read: nothing, except that a cancel can end it. */
  ghost predicate Respects(s: State, t: State, r: LongRead) {
    && Own(t, r)
    && (forall c :: c in t.requests && Mine(r, c) ==>
          exists d :: d in s.requests && d.serial == c.serial && (c.func ==> d.func))
  }

  lemma OnlyOneWith(q: seq<Cmd>, r: LongRead, c: Cmd)
    requires OnlyOne(q, r) && !Mine(r, c)
    ensures OnlyOne(q + [c], r) && OnlyOne([c] + q, r)
  {
  }

  /** A new command that is not the read's, wherever it is put. */
  lemma ForeignCommand(s: State, t: State, r: LongRead, c: Cmd, front: bool)
    requires Own(s, r) && c.id != r.id && c.serial == s.nextSerial
    requires t.nextSerial == s.nextSerial + 1 && t.nextId >= s.nextId
    requires (t.requests == s.requests && t.responses == s.responses + [c])
      || (t.requests == (if front then [c] + s.requests else s.requests + [c]) && t.responses == s.responses)
    ensures Respects(s, t, r)
    ensures !front && AtHead(s, r) ==> AtHead(t, r)
  {
    assert forall x :: x in t.requests ==> x == c || x in s.requests;
    assert forall x :: x in t.responses ==> x == c || x in s.responses;
    assert !Mine(r, c);
    OnlyOneWith(s.requests, r, c);
  }

  lemma ReflRespects(s: State, r: LongRead)
    requires Own(s, r)
    ensures Respects(s, s, r)
  {
  }

  lemma SendRespects(s: State, r: LongRead, id: nat, opcode: nat, func: bool)
    requires Own(s, r) && id != r.id
    ensures Respects(s, Send(s, id, opcode, func).0, r)
    ensures id == 0 && AtHead(s, r) ==> AtHead(Send(s, id, opcode, func).0, r)
  {
    hide Respects, AtHead, OnlyOne, OpcodeToExpected, IsResponse, Active;
    if s.stale {
      ReflRespects(s, r);
    } else {
      var newId := if id != 0 then id else s.nextId + 1;
      var c := Cmd(s.nextSerial, newId, opcode, OpcodeToExpected(opcode), false, func);
      ForeignCommand(s, Send(s, id, opcode, func).0, r, c, id != 0);
    }
  }

  lemma CancelAtSub(q: seq<Cmd>, i: nat)
    requires i < |q|
    ensures forall c :: c in CancelAt(q, i).0 ==>
      exists d :: d in q && d.serial == c.serial && d.id == c.id && d.expected == c.expected && (c.func ==> d.func)
    ensures CancelAt(q, i).0 != [] ==> i == 0 || CancelAt(q, i).0[0] == q[0]
    ensures i == 0 && q[0].sent ==> CancelAt(q, i).0[0].serial == q[0].serial
  {
    var r := CancelAt(q, i).0;
    forall c | c in r
      ensures exists d ::
        d in q && d.serial == c.serial && d.id == c.id && d.expected == c.expected && (c.func ==> d.func)
    {
      var j :| 0 <= j < |r| && r[j] == c;
      if i == 0 && q[0].sent {
        assert q[j] in q;
      } else {
        assert c == q[if j < i then j else j + 1];
        assert c in q;
      }
    }
  }

  /** The read's only command stays the only one, and stays at the head if it was there. */
  lemma CancelAtOnce(q: seq<Cmd>, i: nat, r: LongRead)
    requires i < |q| && OnlyOne(q, r)
    ensures OnlyOne(CancelAt(q, i).0, r)
    ensures (forall c :: c in q && Mine(r, c) ==> Mine(r, q[0])) ==>
      forall c :: c in CancelAt(q, i).0 && Mine(r, c) ==> Mine(r, CancelAt(q, i).0[0])
  {
    var t := CancelAt(q, i).0;
    if i == 0 && q[0].sent {
      assert forall j :: 0 < j < |t| ==> t[j] == q[j];
      assert Mine(r, t[0]) <==> Mine(r, q[0]);
    } else {
      assert forall j :: 0 <= j < |t| ==> t[j] == q[if j < i then j else j + 1];
      assert forall c :: c in t ==> c in q;
      if forall c :: c in q && Mine(r, c) ==> Mine(r, q[0]) {
        forall c | c in t && Mine(r, c)
          ensures Mine(r, t[0])
        {
          var j :| 0 <= j < |t| && t[j] == c;
          assert q[if j < i then j else j + 1] == c;
        }
      }
    }
  }

  /** Cancelling keeps the read's place, whichever command it hits. */
  lemma CancelRespects(s: State, r: LongRead, id: nat)
    requires Own(s, r)
    ensures Respects(s, CancelId(s, id).0, r)
    ensures AtHead(s, r) ==> AtHead(CancelId(s, id).0, r)
  {
    hide CancelAt;
    var i := FindId(s.requests, id);
    if i < |s.requests| {
      CancelAtSub(s.requests, i);
      CancelAtOnce(s.requests, i, r);
    } else {
      var j := FindId(s.responses, id);
      if j < |s.responses| {
        CancelAtSub(s.responses, j);
      }
    }
  }

  /** One queue under cancel_all: nothing new, and a head that was the read's stays. */
  lemma CancelQueueSub(q: seq<Cmd>, r: LongRead)
    requires OnlyOne(q, r) && forall i :: 1 <= i < |q| ==> !q[i].sent
    ensures var t := CancelQueue(q).0;
      && OnlyOne(t, r)
      && (forall c :: c in t ==>
            !c.func && exists d :: d in q && d.serial == c.serial && d.id == c.id && d.expected == c.expected)
      && (t != [] ==> q != [] && t[0].serial == q[0].serial)
  {
    hide CancelQueue;
    CancelQueueAtMostOne(q);
    if q != [] {
      assert q[0] in q;
    }
  }

  lemma NoneMine(q: seq<Cmd>, r: LongRead)
    requires forall c :: c in q ==> !Mine(r, c)
    ensures OnlyOne(q, r)
  {
  }

  lemma CancelAllRespects(s: State, r: LongRead)
    requires Own(s, r) && Sequential(s)
    ensures Respects(s, CancelEvery(s), r)
    ensures AtHead(s, r) ==> AtHead(CancelEvery(s), r)
  {
    hide CancelQueue, OnlyOne;
    assert forall i :: 0 <= i < |s.responses| ==> s.responses[i] in s.responses;
    CancelQueueSub(s.requests, r);
    NoneMine(s.responses, r);
    CancelQueueSub(s.responses, r);
  }

  lemma RespectsTrans(s: State, t: State, u: State, r: LongRead)
    requires Respects(s, t, r) && Respects(t, u, r)
    ensures Respects(s, u, r)
  {
  }

  /** Any action of other code respects the read; a plain one also keeps it at the head. */
  lemma ActRespects(s: State, r: LongRead, a: Action)
    requires Own(s, r) && Sequential(s) && (a.ActSend? ==> a.id != r.id)
    ensures Respects(s, Act(s, a), r)
    ensures (a.ActSend? ==> a.id == 0) && AtHead(s, r) ==> AtHead(Act(s, a), r)
  {
    match a {
      case ActSend(id, opcode, func) => SendRespects(s, r, id, opcode, func);
      case ActCancel(id) => CancelRespects(s, r, id);
      case ActCancelAll => CancelAllRespects(s, r);
    }
  }

  lemma OwnOf(s: State, t: State, r: LongRead)
    requires Respects(s, t, r)
    ensures Own(t, r)
  {
  }

  lemma {:induction false} ActsRespect(s: State, held: set<nat>, r: LongRead, acts: seq<Action>)
    requires Ledger(s, held) && Own(s, r) && Sequential(s) && Foreign(r.id, acts)
    requires HeadSent(s) ==> Plain(acts)
    ensures Respects(s, Acts(s, acts), r)
    ensures Plain(acts) && AtHead(s, r) ==> AtHead(Acts(s, acts), r)
    decreases |acts|
  {
    hide Ledger, Sequential, Own, AtHead, Act;
    if acts == [] {
      ReflRespects(s, r);
    } else {
      assert acts[0] in acts;
      ActKeeps(s, held, acts[0]);
      ActRespects(s, r, acts[0]);
      var t := Act(s, acts[0]);
      OwnOf(s, t, r);
      ActsRespect(t, held, r, acts[1..]);
      RespectsTrans(s, t, Acts(t, acts[1..]), r);
    }
  }

  // ----- events -----

  lemma PopKeepsOwn(s: State, r: LongRead)
    requires Own(s, r) && s.requests != []
    ensures var t := s.(requests := s.requests[1..]);
      Own(t, r) && Respects(s, t, r) && (Mine(r, s.requests[0]) ==> !Active(t, r))
  {
    var t := s.(requests := s.requests[1..]);
    assert forall i :: 0 <= i < |t.requests| ==> t.requests[i] == s.requests[i + 1];
    assert forall c :: c in t.requests ==> c in s.requests;
  }

  lemma FinishRespects(s: State, r: LongRead, c: Cmd, status: nat, acts: seq<Action>)
    requires Ledger(s, {c.serial}) && Own(s, r) && Sequential(s) && CmdOk(c, s.log) && !HeadSent(s)
    requires Foreign(r.id, acts)
    ensures Respects(s, Finish(s, c, status, acts), r)
  {
    hide Ledger, Acts;
    if c.func {
      var u := s.(log := s.log + [Called(c.serial, status)]);
      LedgerEffect(s, {c.serial}, Called(c.serial, status));
      ActsRespect(u, {c.serial}, r, acts);
    }
  }

  lemma InactiveStays(s: State, t: State, r: LongRead)
    requires Respects(s, t, r) && !Active(s, r)
    ensures !Active(t, r)
  {
  }

  /** Ownership looks at the queues and the counters only. */
  lemma SameOwn(s: State, t: State, r: LongRead)
    requires t.requests == s.requests && t.responses == s.responses && t.nextId == s.nextId
    requires t.nextSerial == s.nextSerial
    requires Own(s, r)
    ensures Own(t, r) && Respects(s, t, r) && (Active(t, r) <==> Active(s, r))
  {
  }

  /** A response that is not answered with a continuation. */
  lemma AnswerRespects(s: State, r: LongRead, opcode: nat, ecode: nat, acts: seq<Action>)
    requires Ledger(s, {}) && Sequential(s) && Own(s, r) && Foreign(r.id, acts)
    ensures var t := Answer(s, opcode, ecode, acts);
      Respects(s, t, r) && (s.requests != [] && Mine(r, s.requests[0]) ==> !Active(t, r))
  {
    hide Ledger, Finish, Own, Respects, Active, CmdOk, ResultStatus;
    var u := s.(timeoutWatch := false);
    SameBooks(s, u);
    SameOwn(s, u, r);
    if u.requests != [] {
      var c := u.requests[0];
      PopHead(u);
      PopKeepsOwn(u, r);
      var v := u.(requests := u.requests[1..]);
      var w := if v.requests != [] || v.responses != [] then WakeUp(v) else v;
      SameBooks(v, w);
      SameOwn(v, w, r);
      FinishRespects(w, r, c, ResultStatus(c, opcode, ecode), acts);
      var t := Answer(s, opcode, ecode, acts);
      RespectsTrans(s, u, v, r);
      RespectsTrans(s, v, w, r);
      RespectsTrans(s, w, t, r);
      if Mine(r, c) {
        InactiveStays(w, t, r);
      }
    }
  }

  /** The state a continuation leaves: the next command at the head, the old one destroyed. */
  lemma ContinuationState(s: State, id: nat, opcode: nat, ecode: nat)
    requires id != 0 && !s.stale && s.requests != [] && s.requests[0].func
    ensures var t := Answer(s, opcode, ecode, [ActSend(id, ATT_OP_READ_BLOB_REQ, true)]);
      && t.requests == [Cmd(s.nextSerial, id, ATT_OP_READ_BLOB_REQ, ATT_OP_READ_BLOB_RESP, false, true)]
         + s.requests[1..]
      && t.responses == s.responses && t.nextId == s.nextId && t.nextSerial == s.nextSerial + 1
      && t.log == s.log + [Called(s.requests[0].serial, ResultStatus(s.requests[0], opcode, ecode))]
         + [Destroyed(s.requests[0].serial)]
  {
    hide ResultStatus;
    var c := s.requests[0];
    var acts := [ActSend(id, ATT_OP_READ_BLOB_REQ, true)];
    var v := s.(timeoutWatch := false, requests := s.requests[1..]);
    var w := if v.requests != [] || v.responses != [] then WakeUp(v) else v;
    var x := w.(log := w.log + [Called(c.serial, ResultStatus(c, opcode, ecode))]);
    assert acts[1..] == [];
    assert Acts(x, acts) == Act(x, acts[0]) by {
      assert Acts(Act(x, acts[0]), []) == Act(x, acts[0]);
    }
  }

  /** The read's next command at the head of a queue that holds none of its commands. */
  lemma PushOwn(v: State, t: State, r: LongRead, c: Cmd)
    requires Own(v, r) && !Active(v, r) && c.id == r.id && c.expected != 0 && c.serial == v.nextSerial
    requires forall d :: d in v.requests || d in v.responses ==> d.serial != c.serial
    requires t.requests == [c] + v.requests && t.responses == v.responses && t.nextId == v.nextId
    requires t.nextSerial == v.nextSerial + 1
    ensures Own(t, r.(mine := r.mine + {c.serial}))
  {
    var q := r.(mine := r.mine + {c.serial});
    assert forall d :: d in v.requests ==> !Mine(r, d);
    assert forall d :: d in v.requests || d in v.responses ==> (Mine(q, d) <==> Mine(r, d));
    assert forall d :: d in t.requests ==> d == c || d in v.requests;
    assert forall i :: 0 < i < |t.requests| ==> t.requests[i] in v.requests;
  }

  lemma IdPositive(s: State, r: LongRead)
    requires Own(s, r)
    ensures r.id != 0
  {
  }

  lemma FreshSerial(s: State)
    requires Ledger(s, {})
    ensures forall c :: c in s.requests || c in s.responses ==> c.serial != s.nextSerial
    ensures Destroyed(s.nextSerial) !in s.log
  {
  }

  /** A continuation: the next command takes the head of the queue under the read's id. */
  lemma AnswerContinues(s: State, r: LongRead, opcode: nat, ecode: nat)
    requires Ledger(s, {}) && Own(s, r) && !s.stale && s.requests != [] && s.requests[0].func && Mine(r, s.requests[0])
    ensures var t := Answer(s, opcode, ecode, [ActSend(r.id, ATT_OP_READ_BLOB_REQ, true)]);
      var q := r.(mine := r.mine + {s.nextSerial});
      && Own(t, q) && t.requests != [] && t.requests[0].serial == s.nextSerial && t.requests[0].func
      && t.nextSerial == s.nextSerial + 1
  {
    hide Ledger, Answer, Own, Active;
    IdPositive(s, r);
    ContinuationState(s, r.id, opcode, ecode);
    PopKeepsOwn(s, r);
    FreshSerial(s);
    var v := s.(requests := s.requests[1..]);
    assert forall d :: d in v.requests ==> d in s.requests;
    var t := Answer(s, opcode, ecode, [ActSend(r.id, ATT_OP_READ_BLOB_REQ, true)]);
    PushOwn(v, t, r, t.requests[0]);
  }

  lemma {:induction false} AbortAllRespects(s: State, r: LongRead, status: nat, scripts: seq<seq<Action>>)
    requires Ledger(s, {}) && Sequential(s) && Own(s, r) && forall x :: x in scripts ==> Foreign(r.id, x)
    ensures Respects(s, AbortAll(s, status, scripts), r)
    decreases |scripts|, |s.requests|
  {
    hide Ledger, Sequential, Finish, Respects, Own;
    if s.requests == [] {
      ReflRespects(s, r);
    } else {
      var c := s.requests[0];
      var t := s.(requests := s.requests[1..]);
      PopHead(s);
      PopKeepsOwn(s, r);
      var go := c.func && scripts != [];
      var script := if go then scripts[0] else [];
      FinishKeeps(t, c, status, script);
      FinishRespects(t, r, c, status, script);
      var u := Finish(t, c, status, script);
      OwnOf(t, u, r);
      if !go { QuietFinish(t, c, status); }
      AbortAllRespects(u, r, ATT_ECODE_ABORTED, if go then scripts[1..] else scripts);
      RespectsTrans(s, t, u, r);
      RespectsTrans(s, u, AbortAll(s, status, scripts), r);
    }
  }

  /** Marking the head request sent leaves the read where it is. */
  lemma MarkRespects(s: State, t: State, r: LongRead, d: Cmd)
    requires Own(s, r) && s.requests != [] && d == s.requests[0].(sent := true)
    requires t.requests == s.requests[0 := d] && t.responses == s.responses && t.nextId == s.nextId
    requires t.nextSerial == s.nextSerial
    ensures Respects(s, t, r) && (AtHead(s, r) ==> AtHead(t, r))
  {
    assert s.requests[0] in s.requests;
    assert forall x :: x in t.requests ==> x == d || x in s.requests;
    assert forall i :: 0 <= i < |t.requests| ==> t.requests[i].serial == s.requests[i].serial;
  }

  lemma FewerResponses(s: State, t: State, r: LongRead)
    requires Own(s, r) && t.requests == s.requests && t.nextId == s.nextId && t.nextSerial == s.nextSerial
    requires forall c :: c in t.responses ==> exists d :: d in s.responses && d.serial == c.serial && d.id == c.id
    ensures Respects(s, t, r) && (AtHead(s, r) ==> AtHead(t, r))
  {
  }

  lemma NotMineUnlessExpected(s: State, r: LongRead)
    requires Own(s, r) && s.requests != [] && s.requests[0].expected == 0
    ensures !Mine(r, s.requests[0])
  {
    assert s.requests[0] in s.requests;
  }

  /** A request that expects no answer is not the read's. */
  lemma PopUnexpected(s: State, t: State, r: LongRead)
    requires Own(s, r) && s.requests != [] && s.requests[0].expected == 0
    requires t.requests == s.requests[1..] && t.responses == s.responses && t.nextId == s.nextId
    requires t.nextSerial == s.nextSerial
    ensures Respects(s, t, r) && (AtHead(s, r) ==> AtHead(t, r))
  {
    hide Own, Respects;
    var v := s.(requests := s.requests[1..]);
    PopKeepsOwn(s, r);
    SameOwn(v, t, r);
    RespectsTrans(s, v, t, r);
    NotMineUnlessExpected(s, r);
  }

  lemma CanWriteRespects(s: State, r: LongRead, hup: bool, ioOk: bool)
    requires Own(s, r) && Sequential(s)
    ensures Respects(s, CanWrite(s, hup, ioOk), r)
    ensures AtHead(s, r) ==> AtHead(CanWrite(s, hup, ioOk), r)
  {
    hide Own, Respects, AtHead, Active, Sequential, OnlyOne;
    var t := CanWrite(s, hup, ioOk);
    if s.responses != [] {
      FewerResponses(s, t, r);
    } else if s.requests != [] && !s.requests[0].sent && !s.stale && !hup && ioOk {
      var c := s.requests[0];
      if c.expected == 0 {
        assert c in s.requests;
        PopUnexpected(s, t, r);
      } else {
        MarkRespects(s, t, r, c.(sent := true));
      }
    } else {
      FewerResponses(s, t, r);
    }
  }

  // ----- only the write watch writes -----

  ghost predicate NoWrite(s: State, t: State) {
    forall k :: Wrote(k) in t.log ==> Wrote(k) in s.log
  }

  lemma {:induction false} DropsWriteNothing(q: seq<Cmd>)
    ensures forall k :: Wrote(k) !in DropAll(q) && Wrote(k) !in MarkAll(q)
  {
    if q != [] {
      DropsWriteNothing(q[1..]);
    }
  }

  lemma CancelQueueNoWrite(q: seq<Cmd>)
    ensures forall k :: Wrote(k) !in CancelQueue(q).1
  {
    hide DropAll, MarkAll, LeadSent;
    var n := LeadSent(q);
    DropsWriteNothing(q[..n]);
    DropsWriteNothing(q[n..]);
  }

  lemma CancelNoWrite(s: State, id: nat)
    ensures NoWrite(s, CancelId(s, id).0)
  {
    hide FindId;
  }

  lemma ActNoWrite(s: State, a: Action)
    ensures NoWrite(s, Act(s, a))
  {
    hide CancelQueue, CancelId;
    match a {
      case ActSend(_, _, _) =>
      case ActCancel(id) =>
        CancelNoWrite(s, id);
      case ActCancelAll =>
        CancelQueueNoWrite(s.requests);
        CancelQueueNoWrite(s.responses);
    }
  }

  lemma {:induction false} ActsNoWrite(s: State, acts: seq<Action>)
    ensures NoWrite(s, Acts(s, acts))
    decreases |acts|
  {
    hide Act;
    if acts != [] {
      ActNoWrite(s, acts[0]);
      ActsNoWrite(Act(s, acts[0]), acts[1..]);
    }
  }

  lemma FinishNoWrite(s: State, c: Cmd, status: nat, acts: seq<Action>)
    ensures NoWrite(s, Finish(s, c, status, acts))
  {
    hide Acts;
    if c.func {
      ActsNoWrite(s.(log := s.log + [Called(c.serial, status)]), acts);
    }
  }

  lemma AnswerNoWrite(s: State, opcode: nat, ecode: nat, acts: seq<Action>)
    ensures NoWrite(s, Answer(s, opcode, ecode, acts))
  {
    hide Finish;
    if s.requests != [] {
      var c := s.requests[0];
      var v := s.(timeoutWatch := false, requests := s.requests[1..]);
      var w := if v.requests != [] || v.responses != [] then WakeUp(v) else v;
      FinishNoWrite(w, c, ResultStatus(c, opcode, ecode), acts);
    }
  }

  lemma ReceivedNoWrite(s: State, hup: bool, rdOk: bool, opcode: nat, ecode: nat, events: seq<Action>,
                        acts: seq<Action>)
    ensures NoWrite(s, Received(s, hup, rdOk, opcode, ecode, events, acts))
  {
    hide Answer, Acts;
    ActsNoWrite(s, events);
    AnswerNoWrite(Acts(s, events), opcode, ecode, acts);
  }

  lemma {:induction false} AbortAllNoWrite(s: State, status: nat, scripts: seq<seq<Action>>)
    ensures NoWrite(s, AbortAll(s, status, scripts))
    decreases |scripts|, |s.requests|
  {
    hide Finish;
    if s.requests != [] {
      var c, t := s.requests[0], s.(requests := s.requests[1..]);
      var go := c.func && scripts != [];
      var script := if go then scripts[0] else [];
      FinishNoWrite(t, c, status, script);
      if !go { QuietFinish(t, c, status); }
      AbortAllNoWrite(Finish(t, c, status, script), ATT_ECODE_ABORTED, if go then scripts[1..] else scripts);
    }
  }

  // ----- only answers and timeouts call back -----

  /** Finishing a command calls back this command and no other, if it has its callback. */
  lemma FinishCallsOne(s: State, c: Cmd, status: nat, acts: seq<Action>, k: nat)
    requires NotCalled(s.log, k) && (c.func ==> c.serial != k)
    ensures NotCalled(Finish(s, c, status, acts).log, k)
  {
    hide Finish, NotCalled, New;
    FinishCalls(s, c, status, acts);
    NotCalledStays(s, Finish(s, c, status, acts), k);
  }

  /** A timeout calls the read back only if the read had a callback to be run. */
  lemma {:induction false} AbortAllCalls(s: State, r: LongRead, status: nat, scripts: seq<seq<Action>>, k: nat)
    requires Ledger(s, {}) && Sequential(s) && Own(s, r) && forall x :: x in scripts ==> Foreign(r.id, x)
    requires k in r.mine && NotCalled(s.log, k) && !NotCalled(AbortAll(s, status, scripts).log, k)
    ensures exists c :: c in s.requests && Mine(r, c) && c.func
    decreases |scripts|, |s.requests|
  {
    hide Ledger, Sequential, Finish, Own, NotCalled;
    var c := s.requests[0];
    assert c in s.requests;
    if !(c.func && c.serial == k) {
      var t := s.(requests := s.requests[1..]);
      PopHead(s);
      PopKeepsOwn(s, r);
      var go := c.func && scripts != [];
      var script := if go then scripts[0] else [];
      FinishKeeps(t, c, status, script);
      FinishRespects(t, r, c, status, script);
      FinishCallsOne(t, c, status, script, k);
      var u := Finish(t, c, status, script);
      OwnOf(t, u, r);
      if !go { QuietFinish(t, c, status); }
      AbortAllCalls(u, r, ATT_ECODE_ABORTED, if go then scripts[1..] else scripts, k);
      RespectsTrans(s, t, u, r);
    }
  }

  lemma TimeoutCalls(s: State, r: LongRead, scripts: seq<seq<Action>>)
    requires Ledger(s, {}) && Sequential(s) && Own(s, r) && forall x :: x in scripts ==> Foreign(r.id, x)
    requires CalledBack(s, Timeout(s, scripts), r)
    ensures exists c :: c in s.requests && Mine(r, c) && c.func
  {
    hide Ledger, Sequential, AbortAll, Own, NotCalled;
    var k :| k in r.mine && NotCalled(s.log, k) && !NotCalled(Timeout(s, scripts).log, k);
    AbortAllCalls(s, r, ATT_ECODE_TIMEOUT, scripts, k);
  }

  // ----- the invariant of the read -----

  /** The first READ has been written. */
  ghost predicate Started(s: State, r: LongRead) {
    exists k :: k in r.mine && Wrote(k) in s.log
  }

  /** One reference while a command is queued; afterwards none, and the read was freed once. */
  ghost predicate RefOk(s: State, r: LongRead) {
    if Active(s, r) then r.ref == 1 && r.freed == 0 else r.ref == 0 && r.freed == 1
  }

  /** The result is delivered at most once, and not while a callback is still to come. */
  ghost predicate DeliveredOk(s: State, r: LongRead) {
    r.delivered <= 1 && ((exists c :: c in s.requests && Mine(r, c) && c.func) ==> r.delivered == 0)
  }

  ghost predicate WInv(w: World) {
    && Inv(w.s) && Own(w.s, w.r)
    && (Started(w.s, w.r) ==> AtHead(w.s, w.r))
    && RefOk(w.s, w.r) && DeliveredOk(w.s, w.r)
  }

  lemma ActiveSerial(s: State, r: LongRead) returns (k: nat)
    requires Active(s, r) && Own(s, r)
    ensures k in r.mine && Queued(s, k)
    ensures forall j :: j in r.mine && Queued(s, j) ==> j == k
    ensures forall c :: c in s.requests && Mine(r, c) ==> c.serial == k
  {
    var i :| 0 <= i < |s.requests| && Mine(r, s.requests[i]);
    k := s.requests[i].serial;
    forall c | c in s.requests && Mine(r, c)
      ensures c.serial == k
    {
      var j :| 0 <= j < |s.requests| && s.requests[j] == c;
    }
  }

  lemma GoneMeansDequeued(s: State, k: nat)
    requires Ledger(s, {}) && k < s.nextSerial
    ensures Queued(s, k) <==> Destroyed(k) !in s.log
  {
  }

  lemma NotActive(s: State, r: LongRead)
    requires Own(s, r) && !Active(s, r)
    ensures forall k :: k in r.mine ==> !Queued(s, k)
  {
  }

  lemma SameOne(s: State, t: State, r: LongRead, j: nat, k: nat)
    requires Respects(s, t, r) && j in r.mine && Queued(t, j)
    requires forall c :: c in s.requests && Mine(r, c) ==> c.serial == k
    ensures j == k
  {
  }

  /** The transport destroyed the read's command exactly if it is no longer queued. */
  lemma UnrefKeeps(s: State, t: State, r: LongRead)
    requires Ledger(s, {}) && Ledger(t, {}) && Own(s, r) && Respects(s, t, r) && RefOk(s, r)
    ensures RefOk(t, Unref(r, s, t)) && Unref(r, s, t).mine == r.mine && Unref(r, s, t).delivered == r.delivered
  {
    hide Ledger, Respects;
    OwnOf(s, t, r);
    var gone := set k | k in r.mine && Destroyed(k) in t.log && Destroyed(k) !in s.log;
    forall k | k in r.mine
      ensures Queued(s, k) <==> Destroyed(k) !in s.log
      ensures Queued(t, k) <==> Destroyed(k) !in t.log
    {
      GoneMeansDequeued(s, k);
      GoneMeansDequeued(t, k);
    }
    if Active(s, r) {
      var k := ActiveSerial(s, r);
      if Active(t, r) {
        var j := ActiveSerial(t, r);
        SameOne(s, t, r, j, k);
        assert gone == {};
      } else {
        NotActive(t, r);
        assert gone == {k};
      }
    } else {
      NotActive(s, r);
      InactiveStays(s, t, r);
      assert gone == {};
    }
  }

  lemma DeliveredKeeps(s: State, t: State, r: LongRead)
    requires Respects(s, t, r) && DeliveredOk(s, r)
    ensures DeliveredOk(t, r)
  {
  }

  /** A step that only respects the read, keeps it at the head and writes nothing of it. */
  lemma QuietKeeps(w: World, t: State)
    requires WInv(w) && Inv(t) && Respects(w.s, t, w.r)
    requires Started(t, w.r) ==> AtHead(t, w.r)
    ensures WInv(World(t, Unref(w.r, w.s, t)))
  {
    hide Ledger, Sequential, Respects;
    UnrefKeeps(w.s, t, w.r);
    DeliveredKeeps(w.s, t, w.r);
    OwnOf(w.s, t, w.r);
  }

  lemma StartedBefore(s: State, t: State, r: LongRead)
    requires NoWrite(s, t) && Started(t, r)
    ensures Started(s, r)
  {
  }

  lemma WActKeeps(w: World, a: Action)
    requires WInv(w) && (a.ActSend? ==> a.id == 0)
    ensures WInv(WStep(w, WAct(a)))
  {
    hide Ledger, Sequential, Act, Own, AtHead, Started, Unref;
    assert Inv(w.s);
    IdPositive(w.s, w.r);
    ActKeeps(w.s, {}, a);
    ActRespects(w.s, w.r, a);
    ActNoWrite(w.s, a);
    var t := Act(w.s, a);
    if Started(t, w.r) { StartedBefore(w.s, t, w.r); }
    QuietKeeps(w, t);
  }

  /** What can_write_data writes: the first response, or else the first request. */
  lemma CanWriteWrites(s: State, hup: bool, ioOk: bool, k: nat)
    requires Wrote(k) in CanWrite(s, hup, ioOk).log && Wrote(k) !in s.log
    ensures if s.responses != [] then s.responses[0].serial == k else s.requests != [] && s.requests[0].serial == k
  {
  }

  lemma WCanWriteKeeps(w: World, hup: bool, ioOk: bool)
    requires WInv(w) && w.s.writeWatch
    ensures WInv(WStep(w, WCanWrite(hup, ioOk)))
  {
    hide Ledger, Sequential, CanWrite, Unref;
    var s, r, t := w.s, w.r, CanWrite(w.s, hup, ioOk);
    CanWriteKeeps(s, hup, ioOk);
    CanWriteRespects(s, r, hup, ioOk);
    if Started(t, r) && !Started(s, r) {
      var k :| k in r.mine && Wrote(k) in t.log;
      CanWriteWrites(s, hup, ioOk, k);
      if s.responses != [] {
        assert s.responses[0] in s.responses;
      }
    }
    QuietKeeps(w, t);
  }

  /** The invariants look at the id, the serials and the counts. */
  lemma SameMine(s: State, r: LongRead, q: LongRead)
    requires q.id == r.id && q.mine == r.mine
    ensures (Own(s, r) ==> Own(s, q)) && (RefOk(s, r) && q.ref == r.ref && q.freed == r.freed ==> RefOk(s, q))
    ensures Active(s, r) == Active(s, q) && Started(s, r) == Started(s, q) && AtHead(s, r) == AtHead(s, q)
  {
  }

  lemma WTimeoutKeeps(w: World, scripts: seq<seq<Action>>)
    requires WInv(w) && forall x :: x in scripts ==> Foreign(w.r.id, x)
    ensures WInv(WStep(w, WTimeout(scripts)))
  {
    hide Ledger, Sequential, AbortAll, Own, RefOk;
    if w.s.timeoutWatch && !w.s.stale {
      var s := w.s;
      TimeoutKeeps(s, scripts);
      AbortAllRespects(s, w.r, ATT_ECODE_TIMEOUT, scripts);
      var m := AbortAll(s, ATT_ECODE_TIMEOUT, scripts);
      var t := Timeout(s, scripts);
      OwnOf(s, m, w.r);
      SameOwn(m, t, w.r);
      RespectsTrans(s, m, t, w.r);
      UnrefKeeps(s, t, w.r);
      if CalledBack(s, t, w.r) {
        TimeoutCalls(s, w.r, scripts);
      }
      var r := WStep(w, WTimeout(scripts)).r;
      assert r.mine == w.r.mine && r.id == w.r.id && r.ref == Unref(w.r, s, t).ref && r.freed == Unref(w.r, s, t).freed;
      SameMine(t, Unref(w.r, s, t), r);
      SameMine(t, w.r, r);
    }
  }

  lemma DeliveredOnce(s: State, u: State, t: State, r: LongRead, e: WEvent)
    requires DeliveredOk(s, r) && Respects(s, t, r) && Respects(s, u, r) && e.WReceived?
    requires u.requests != [] && Mine(r, u.requests[0]) && !s.stale && !e.hup && e.rdOk && IsResponse(e.opcode) ==>
      !Active(t, r)
    ensures DeliveredOk(t, r)
    ensures
      !s.stale && !e.hup && e.rdOk && IsResponse(e.opcode) && u.requests != [] && Delivers(r, u.requests[0], e) ==>
      DeliveredOk(t, r.(delivered := r.delivered + 1))
  {
    if u.requests != [] && Delivers(r, u.requests[0], e) {
      assert u.requests[0] in u.requests;
    }
  }

  lemma PlainIsForeign(id: nat, acts: seq<Action>)
    requires id != 0 && Plain(acts)
    ensures Foreign(id, acts)
  {
  }

  lemma ReceivedRespects(s: State, r: LongRead, e: WEvent)
    requires e.WReceived? && Ledger(s, {}) && Sequential(s) && Own(s, r) && r.id != 0 && WAllowed(r, e)
    ensures var t := Received(s, e.hup, e.rdOk, e.opcode, e.ecode, e.events, e.acts);
      Respects(s, t, r) && (AtHead(s, r) ==> AtHead(t, r))
    ensures var u, t := Acts(s, e.events), Received(s, e.hup, e.rdOk, e.opcode, e.ecode, e.events, e.acts);
      !s.stale && !e.hup && e.rdOk && IsResponse(e.opcode) && u.requests != [] && Mine(r, u.requests[0]) ==>
      !Active(t, r)
  {
    hide Ledger, Sequential, Answer, Acts, Own, Respects;
    ReflRespects(s, r);
    if !s.stale && !e.hup {
      if !e.rdOk {
        var t := if s.requests != [] || s.responses != [] then WakeUp(s) else s;
        SameOwn(s, t, r);
      } else {
        PlainIsForeign(r.id, e.events);
        var u := Acts(s, e.events);
        ActsKeep(s, {}, e.events);
        ActsRespect(s, {}, r, e.events);
        OwnOf(s, u, r);
        if IsResponse(e.opcode) {
          AnswerRespects(u, r, e.opcode, e.ecode, e.acts);
          var t := Answer(u, e.opcode, e.ecode, e.acts);
          RespectsTrans(s, u, t, r);
          if AtHead(u, r) && !Active(u, r) {
            InactiveStays(u, t, r);
          }
        }
      }
    }
  }

  /** Every response but the one that is answered with a continuation. */
  lemma WQuietReceivedKeeps(w: World, e: WEvent)
    requires WInv(w) && e.WReceived? && WAllowed(w.r, e)
    requires var u := Acts(w.s, e.events);
      !(!w.s.stale && !e.hup && e.rdOk && IsResponse(e.opcode) && u.requests != [] && Continues(w.r, u.requests[0], e))
    ensures WInv(WStep(w, e))
  {
    hide Ledger, Sequential, Answer, Acts, Own, AtHead, Started, RefOk, Respects;
    var s, r := w.s, w.r;
    IdPositive(s, r);
    PlainIsForeign(r.id, e.events);
    var u := Acts(s, e.events);
    var t := Received(s, e.hup, e.rdOk, e.opcode, e.ecode, e.events, e.acts);
    ReceivedKeeps(s, e.hup, e.rdOk, e.opcode, e.ecode, e.events, e.acts);
    ReceivedNoWrite(s, e.hup, e.rdOk, e.opcode, e.ecode, e.events, e.acts);
    ActsKeep(s, {}, e.events);
    ActsRespect(s, {}, r, e.events);
    OwnOf(s, u, r);
    ReceivedRespects(s, r, e);
    if Started(t, r) {
      StartedBefore(s, t, r);
    }
    UnrefKeeps(s, t, r);
    DeliveredOnce(s, u, t, r, e);
    OwnOf(s, t, r);
    var q := WStep(w, e).r;
    SameMine(t, r, q);
    SameMine(t, Unref(r, s, t), q);
  }

  predicate Answers(s: State, e: WEvent)
    requires e.WReceived?
  {
    !s.stale && !e.hup && e.rdOk && IsResponse(e.opcode)
  }

  lemma SerialsBelow(s: State, r: LongRead)
    requires Own(s, r)
    ensures forall k :: k in r.mine ==> k < s.nextSerial
  {
  }

  lemma HeadIsThe(s: State, u: State, r: LongRead, k: nat)
    requires Respects(s, u, r) && u.requests != [] && Mine(r, u.requests[0])
    requires forall c :: c in s.requests && Mine(r, c) ==> c.serial == k
    ensures u.requests[0].serial == k
  {
  }

  /** A continuation takes one reference and gives one back. */
  lemma RefContinues(s: State, u: State, t: State, r: LongRead, status: nat)
    requires Ledger(s, {}) && Ledger(u, {}) && Own(s, r) && Respects(s, u, r) && RefOk(s, r)
    requires u.requests != [] && Mine(r, u.requests[0])
    requires t.log == u.log + [Called(u.requests[0].serial, status)] + [Destroyed(u.requests[0].serial)]
    ensures var q := Unref(r.(mine := r.mine + {u.nextSerial}, ref := r.ref + 1), s, t);
      q.mine == r.mine + {u.nextSerial} && q.id == r.id && q.ref == 1 && q.freed == 0 && q.delivered == r.delivered
  {
    hide Ledger, Own, LogOk;
    var k0 := u.requests[0].serial;
    assert u.requests[0] in u.requests;
    var k := ActiveSerial(s, r);
    HeadIsThe(s, u, r, k);
    FreshSerial(u);
    SerialsBelow(s, r);
    forall j | j in r.mine
      ensures Destroyed(j) in t.log && Destroyed(j) !in s.log <==> j == k0
    {
      GoneMeansDequeued(s, j);
      if j == k0 {
        SerialsBelow(u, r);
        GoneMeansDequeued(u, j);
      }
    }
    var gone := set j | j in r.mine + {u.nextSerial} && Destroyed(j) in t.log && Destroyed(j) !in s.log;
    assert gone == {k0};
  }

  lemma FreshHead(t: State, q: LongRead, k: nat)
    requires t.requests != [] && t.requests[0].serial == k && k in q.mine && q.ref == 1 && q.freed == 0
    requires q.delivered == 0
    ensures RefOk(t, q) && DeliveredOk(t, q) && AtHead(t, q) && Active(t, q)
  {
    assert t.requests[0] in t.requests;
  }

  lemma DeliveredNotYet(s: State, u: State, r: LongRead)
    requires DeliveredOk(s, r) && Respects(s, u, r) && u.requests != [] && Mine(r, u.requests[0]) && u.requests[0].func
    ensures r.delivered == 0
  {
    assert u.requests[0] in u.requests;
  }

  /** A response that the read answers with its next request. */
  lemma WContinuesKeeps(w: World, e: WEvent)
    requires WInv(w) && e.WReceived? && WAllowed(w.r, e) && Answers(w.s, e)
    requires var u := Acts(w.s, e.events); u.requests != [] && Continues(w.r, u.requests[0], e)
    ensures WInv(WStep(w, e)) && WStep(w, e).s.requests != [] && Mine(WStep(w, e).r, WStep(w, e).s.requests[0])
  {
    hide Ledger, Sequential, Answer, Acts, Own, Respects, RefOk, Unref, Active;
    var s, r, u := w.s, w.r, Acts(w.s, e.events);
    var acts := [ActSend(r.id, ATT_OP_READ_BLOB_REQ, true)];
    var t := Received(s, e.hup, e.rdOk, e.opcode, e.ecode, e.events, acts);
    IdPositive(s, r);
    PlainIsForeign(r.id, e.events);
    ReceivedKeeps(s, e.hup, e.rdOk, e.opcode, e.ecode, e.events, acts);
    ActsKeep(s, {}, e.events);
    ActsRespect(s, {}, r, e.events);
    OwnOf(s, u, r);
    AnswerContinues(u, r, e.opcode, e.ecode);
    ContinuationState(u, r.id, e.opcode, e.ecode);
    RefContinues(s, u, t, r, ResultStatus(u.requests[0], e.opcode, e.ecode));
    DeliveredNotYet(s, u, r);
    var q, p := WStep(w, e).r, r.(mine := r.mine + {u.nextSerial});
    SameMine(t, p, q);
    FreshHead(t, q, u.nextSerial);
  }

  lemma IdleKeeps(w: World)
    requires WInv(w)
    ensures WInv(World(w.s, Unref(w.r, w.s, w.s)))
  {
    ReflRespects(w.s, w.r);
    QuietKeeps(w, w.s);
  }

  lemma WStepKeeps(w: World, e: WEvent)
    requires WInv(w) && WAllowed(w.r, e)
    ensures WInv(WStep(w, e))
  {
    match e {
      case WAct(a) => WActKeeps(w, a);
      case WCanWrite(hup, ioOk) =>
        if w.s.writeWatch {
          WCanWriteKeeps(w, hup, ioOk);
        } else {
          IdleKeeps(w);
        }
      case WReceived(_, _, _, _, _, events, _) =>
        var u := Acts(w.s, events);
        if Answers(w.s, e) && u.requests != [] && Continues(w.r, u.requests[0], e) {
          WContinuesKeeps(w, e);
        } else {
          WQuietReceivedKeeps(w, e);
        }
      case WTimeout(scripts) => WTimeoutKeeps(w, scripts);
    }
  }

  // ----- whole runs of a read -----

  ghost function WRun(w: World, es: seq<WEvent>): World
    decreases |es|
  {
    if es == [] then w else WRun(WStep(w, es[0]), es[1..])
  }

  ghost predicate AllAllowed(r: LongRead, es: seq<WEvent>) {
    forall e :: e in es ==> WAllowed(r, e)
  }

  lemma SameId(w: World, e: WEvent)
    ensures WStep(w, e).r.id == w.r.id && WStep(w, e).r.mine >= w.r.mine
  {
    hide Act, Acts, CanWrite, Received, Timeout;
  }

  /** Whether an event is allowed depends on the read's id only. */
  lemma SameAllowed(r: LongRead, q: LongRead, es: seq<WEvent>)
    requires AllAllowed(r, es) && es != [] && q.id == r.id
    ensures WAllowed(r, es[0]) && AllAllowed(q, es[1..])
  {
    assert es[0] in es;
    forall e | e in es[1..]
      ensures WAllowed(q, e)
    {
      assert e in es;
    }
  }

  lemma {:induction false} WRunKeeps(w: World, es: seq<WEvent>)
    requires WInv(w) && AllAllowed(w.r, es)
    ensures WInv(WRun(w, es))
    decreases |es|
  {
    hide WInv, WStep, WAllowed, AllAllowed;
    if es != [] {
      SameId(w, es[0]);
      SameAllowed(w.r, WStep(w, es[0]).r, es);
      WStepKeeps(w, es[0]);
      WRunKeeps(WStep(w, es[0]), es[1..]);
    }
  }

  lemma OnlyOneLast(q: seq<Cmd>, r: LongRead, c: Cmd)
    requires forall x :: x in q ==> !Mine(r, x)
    ensures OnlyOne(q + [c], r)
  {
  }

  lemma LogBelow(s: State)
    requires Ledger(s, {})
    ensures Wrote(s.nextSerial) !in s.log
  {
  }

  /** The one command of a read that has just been queued. */
  lemma StartOwn(s: State, c: Cmd)
    requires Inv(s) && !s.stale
    requires forall x :: x in s.requests || x in s.responses ==> x.id != s.nextId + 1
    requires c == Cmd(s.nextSerial, s.nextId + 1, ATT_OP_READ_REQ, ATT_OP_READ_RESP, false, true)
    requires Start(s).s.requests == s.requests + [c] && Start(s).s.responses == s.responses && Start(s).s.log == s.log
    ensures Own(Start(s).s, Start(s).r) && Active(Start(s).s, Start(s).r) && !Started(Start(s).s, Start(s).r)
  {
    hide Ledger;
    var w := Start(s);
    FreshSerial(s);
    LogBelow(s);
    assert forall x :: x in w.s.requests ==> x == c || x in s.requests;
    assert forall x :: x in s.requests ==> !Mine(w.r, x);
    OnlyOneLast(s.requests, w.r, c);
    assert w.s.requests[|s.requests|] == c;
  }

  /** gatt_read_char starts a read in good order. */
  lemma StartInv(s: State)
    requires Inv(s) && !s.stale
    requires forall c :: c in s.requests || c in s.responses ==> c.id != s.nextId + 1
    ensures WInv(Start(s)) && Start(s).r.id == s.nextId + 1 && Active(Start(s).s, Start(s).r)
  {
    hide Ledger, Sequential, Own, Active, Started;
    var w := Start(s);
    ActKeeps(s, {}, ActSend(0, ATT_OP_READ_REQ, true));
    assert w.s == Act(s, ActSend(0, ATT_OP_READ_REQ, true));
    StartOwn(s, Cmd(s.nextSerial, s.nextId + 1, ATT_OP_READ_REQ, ATT_OP_READ_RESP, false, true));
  }

  lemma OwnOnlyOne(w: World)
    requires WInv(w)
    ensures OnlyOne(w.s.requests, w.r)
  {
  }

  /**
   Every run of a long read from its first request: its reference count equals its queued commands,
   it is freed exactly once, when the last of them is gone, and its result is delivered at most once.
   */
  lemma EveryRun(s: State, es: seq<WEvent>)
    requires Inv(s) && !s.stale && AllAllowed(Start(s).r, es)
    requires forall c :: c in s.requests || c in s.responses ==> c.id != s.nextId + 1
    ensures var w := WRun(Start(s), es);
      && (Active(w.s, w.r) ==> w.r.ref == 1 && w.r.freed == 0)
      && (!Active(w.s, w.r) ==> w.r.ref == 0 && w.r.freed == 1)
      && w.r.delivered <= 1 && OnlyOne(w.s.requests, w.r)
      && (Active(w.s, w.r) && Started(w.s, w.r) ==> Mine(w.r, w.s.requests[0]))
  {
    hide Start, WRun, Inv, Own, Active, Started, OnlyOne;
    StartInv(s);
    WRunKeeps(Start(s), es);
    OwnOnlyOne(WRun(Start(s), es));
  }

  // ----- atomicity -----

  ghost predicate WritesRequest(s: State, t: State, k: nat) {
    Wrote(k) in t.log && Wrote(k) !in s.log && exists c :: c in s.requests && c.serial == k
  }

  /** Some step of the run wrote this request. */
  ghost predicate WroteRequest(w: World, es: seq<WEvent>, k: nat)
    decreases |es|
  {
    es != [] &&
    (WritesRequest(w.s, WStep(w, es[0]).s, k) || WroteRequest(WStep(w, es[0]), es[1..], k))
  }

  lemma TimeoutNoWrite(s: State, scripts: seq<seq<Action>>)
    ensures NoWrite(s, Timeout(s, scripts))
  {
    hide AbortAll;
    AbortAllNoWrite(s, ATT_ECODE_TIMEOUT, scripts);
  }

  lemma NotBoth(s: State, k: nat)
    requires Ledger(s, {}) && exists c :: c in s.requests && c.serial == k
    ensures s.responses != [] ==> s.responses[0].serial != k
  {
    if s.responses != [] {
      assert s.responses[0] in s.responses;
    }
  }

  lemma WStepWrites(w: World, e: WEvent, k: nat)
    requires WInv(w) && WritesRequest(w.s, WStep(w, e).s, k)
    ensures w.s.requests != [] && w.s.requests[0].serial == k && WStep(w, e).r.mine == w.r.mine
  {
    hide Act, CanWrite, Received, Timeout, Own, AtHead, RefOk, Started, DeliveredOk;
    match e {
      case WAct(a) => ActNoWrite(w.s, a);
      case WReceived(hup, rdOk, opcode, ecode, _, events, acts) =>
        ReceivedNoWrite(w.s, hup, rdOk, opcode, ecode, events, acts);
        ReceivedNoWrite(w.s, hup, rdOk, opcode, ecode, events, [ActSend(w.r.id, ATT_OP_READ_BLOB_REQ, true)]);
      case WTimeout(scripts) => TimeoutNoWrite(w.s, scripts);
      case WCanWrite(hup, ioOk) =>
        CanWriteWrites(w.s, hup, ioOk, k);
        NotBoth(w.s, k);
    }
  }

  lemma HeadWasQueued(w: World, e: WEvent)
    requires WInv(w) && e.WReceived? && WAllowed(w.r, e)
    ensures var u := Acts(w.s, e.events); u.requests != [] && Mine(w.r, u.requests[0]) ==> Active(w.s, w.r)
  {
    hide Ledger, Sequential, Acts, Own;
    var s, r, u := w.s, w.r, Acts(w.s, e.events);
    IdPositive(s, r);
    PlainIsForeign(r.id, e.events);
    ActsRespect(s, {}, r, e.events);
    if u.requests != [] && Mine(r, u.requests[0]) {
      assert u.requests[0] in u.requests;
    }
  }

  /** Once the read has no command queued it never has one again. */
  lemma OverIsOver(w: World, e: WEvent)
    requires WInv(w) && WAllowed(w.r, e) && Active(WStep(w, e).s, WStep(w, e).r)
    ensures Active(w.s, w.r)
  {
    hide Active, Own, AtHead, Started, DeliveredOk, Inv, Act, Acts, CanWrite, Received, Timeout;
    WStepKeeps(w, e);
    if !Active(w.s, w.r) && e.WReceived? {
      HeadWasQueued(w, e);
    }
  }

  lemma {:induction false} MineGrows(w: World, es: seq<WEvent>)
    ensures w.r.mine <= WRun(w, es).r.mine
    decreases |es|
  {
    hide WStep;
    if es != [] {
      SameId(w, es[0]);
      MineGrows(WStep(w, es[0]), es[1..]);
    }
  }

  lemma HeadIsMine(w: World)
    requires WInv(w) && Started(w.s, w.r) && Active(w.s, w.r)
    ensures w.s.requests != [] && w.s.requests[0].serial in w.r.mine
  {
  }

  lemma {:induction false} ActiveBefore(w: World, es: seq<WEvent>)
    requires WInv(w) && AllAllowed(w.r, es) && Active(WRun(w, es).s, WRun(w, es).r)
    ensures Active(w.s, w.r)
    decreases |es|
  {
    hide WInv, WStep, WAllowed, AllAllowed, Active;
    if es != [] {
      SameId(w, es[0]);
      SameAllowed(w.r, WStep(w, es[0]).r, es);
      WStepKeeps(w, es[0]);
      ActiveBefore(WStep(w, es[0]), es[1..]);
      OverIsOver(w, es[0]);
    }
  }

  lemma StepExtends(w: World, e: WEvent)
    ensures Extends(w.s, WStep(w, e).s)
  {
    hide Act, Received, AbortAll;
    match e {
      case WAct(a) => ActCalls(w.s, a);
      case WCanWrite(_, _) =>
      case WReceived(hup, rdOk, opcode, ecode, _, events, acts) =>
        ReceivedExtends(w.s, hup, rdOk, opcode, ecode, events, acts);
        ReceivedExtends(w.s, hup, rdOk, opcode, ecode, events, [ActSend(w.r.id, ATT_OP_READ_BLOB_REQ, true)]);
      case WTimeout(scripts) =>
        AbortAllExtends(w.s, ATT_ECODE_TIMEOUT, scripts);
    }
  }

  lemma StaysStarted(w: World, e: WEvent)
    requires Started(w.s, w.r)
    ensures Started(WStep(w, e).s, WStep(w, e).r)
  {
    SameId(w, e);
    StepExtends(w, e);
    var k :| k in w.r.mine && Wrote(k) in w.s.log;
    LogStays(w.s, WStep(w, e).s, Wrote(k));
    assert k in WStep(w, e).r.mine && Wrote(k) in WStep(w, e).s.log;
  }

  /**
   A long read is atomic among client requests: from its first READ being written until its last
   answer, no other request is written.
   */
  lemma {:induction false} Atomic(w: World, es: seq<WEvent>, k: nat)
    requires WInv(w) && AllAllowed(w.r, es) && Started(w.s, w.r)
    requires Active(WRun(w, es).s, WRun(w, es).r) && WroteRequest(w, es, k)
    ensures k in WRun(w, es).r.mine
    decreases |es|
  {
    hide WInv, WStep, WAllowed, AllAllowed, Active, Started, WritesRequest;
    var e, t := es[0], WStep(w, es[0]);
    SameId(w, e);
    SameAllowed(w.r, t.r, es);
    WStepKeeps(w, e);
    StaysStarted(w, e);
    ActiveBefore(t, es[1..]);
    if WritesRequest(w.s, t.s, k) {
      OverIsOver(w, e);
      WStepWrites(w, e, k);
      HeadIsMine(w);
      MineGrows(t, es[1..]);
    } else {
      Atomic(t, es[1..], k);
    }
  }

  // ----- cancelling -----

  /** No callback of the read is left to run. */
  ghost predicate Silent(s: State, r: LongRead) {
    forall c :: c in s.requests && Mine(r, c) ==> !c.func
  }

  lemma NoneFound(s: State, r: LongRead)
    requires Own(s, r) && FindId(s.requests, r.id) == |s.requests|
    ensures Silent(s, r)
  {
  }

  /** Cancelling the read's one id at any point silences it. */
  lemma CancelSilences(s: State, r: LongRead)
    requires Own(s, r)
    ensures Silent(CancelId(s, r.id).0, r)
  {
    var i := FindId(s.requests, r.id);
    var t := CancelId(s, r.id).0;
    if i < |s.requests| {
      assert s.requests[i] in s.requests;
      assert Mine(r, s.requests[i]);
      if !(i == 0 && s.requests[0].sent) {
        assert forall j :: 0 <= j < |t.requests| ==> t.requests[j] == s.requests[if j < i then j else j + 1];
      }
    } else {
      NoneFound(s, r);
    }
  }

  lemma SilentStays(s: State, t: State, r: LongRead, q: LongRead)
    requires Silent(s, r) && Respects(s, t, r) && q.mine == r.mine
    ensures Silent(t, q)
  {
  }

  lemma SilentMeans(s: State, r: LongRead)
    requires Silent(s, r)
    ensures s.requests != [] && Mine(r, s.requests[0]) ==> !s.requests[0].func
    ensures !exists c :: c in s.requests && Mine(r, c) && c.func
  {
  }

  lemma SilentReceived(w: World, e: WEvent)
    requires WInv(w) && e.WReceived? && WAllowed(w.r, e) && Silent(w.s, w.r)
    ensures Silent(WStep(w, e).s, WStep(w, e).r)
    ensures WStep(w, e).r.mine == w.r.mine && WStep(w, e).r.delivered == w.r.delivered
  {
    hide Ledger, Sequential, Acts, Received, Own, AtHead, Started, Respects, Silent, RefOk, DeliveredOk;
    var s, r, u := w.s, w.r, Acts(w.s, e.events);
    IdPositive(s, r);
    PlainIsForeign(r.id, e.events);
    ActsRespect(s, {}, r, e.events);
    SilentStays(s, u, r, r);
    SilentMeans(u, r);
    ReceivedRespects(s, r, e);
    SilentStays(s, Received(s, e.hup, e.rdOk, e.opcode, e.ecode, e.events, e.acts), r, WStep(w, e).r);
  }

  lemma SilentTimeout(w: World, scripts: seq<seq<Action>>)
    requires WInv(w) && WAllowed(w.r, WTimeout(scripts)) && Silent(w.s, w.r) && w.s.timeoutWatch && !w.s.stale
    ensures var t := WStep(w, WTimeout(scripts));
      Silent(t.s, t.r) && t.r.mine == w.r.mine && t.r.delivered == w.r.delivered
  {
    hide Ledger, Sequential, AbortAll, Own, AtHead, Started, Silent, RefOk, DeliveredOk, Respects;
    var s, r := w.s, w.r;
    SilentMeans(s, r);
    AbortAllRespects(s, r, ATT_ECODE_TIMEOUT, scripts);
    var m, t := AbortAll(s, ATT_ECODE_TIMEOUT, scripts), Timeout(s, scripts);
    OwnOf(s, m, r);
    SameOwn(m, t, r);
    RespectsTrans(s, m, t, r);
    if CalledBack(s, t, r) {
      TimeoutCalls(s, r, scripts);
    }
    SilentStays(s, t, r, WStep(w, WTimeout(scripts)).r);
  }

  /** A silenced read stays silent: no new command, no delivery. */
  lemma SilentStep(w: World, e: WEvent)
    requires WInv(w) && WAllowed(w.r, e) && Silent(w.s, w.r)
    ensures Silent(WStep(w, e).s, WStep(w, e).r)
    ensures WStep(w, e).r.mine == w.r.mine && WStep(w, e).r.delivered == w.r.delivered
  {
    hide Ledger, Act, Acts, CanWrite, Received, Timeout, Own, AtHead, Started, Respects, Silent, RefOk, DeliveredOk;
    var s, r, t := w.s, w.r, WStep(w, e);
    match e {
      case WAct(a) =>
        IdPositive(s, r);
        ActRespects(s, r, a);
        SilentStays(s, t.s, r, t.r);
      case WCanWrite(hup, ioOk) =>
        if s.writeWatch {
          CanWriteRespects(s, r, hup, ioOk);
        } else {
          ReflRespects(s, r);
        }
        SilentStays(s, t.s, r, t.r);
      case WReceived(_, _, _, _, _, _, _) =>
        SilentReceived(w, e);
      case WTimeout(scripts) =>
        if s.timeoutWatch && !s.stale { SilentTimeout(w, scripts); }
    }
  }

  lemma {:induction false} SilentRun(w: World, es: seq<WEvent>)
    requires WInv(w) && AllAllowed(w.r, es) && Silent(w.s, w.r)
    ensures WRun(w, es).r.mine == w.r.mine && WRun(w, es).r.delivered == w.r.delivered
    decreases |es|
  {
    hide WInv, WStep, WAllowed, AllAllowed, Silent;
    if es != [] {
      SameId(w, es[0]);
      SameAllowed(w.r, WStep(w, es[0]).r, es);
      WStepKeeps(w, es[0]);
      SilentStep(w, es[0]);
      SilentRun(WStep(w, es[0]), es[1..]);
    }
  }

  lemma AllowedById(r: LongRead, q: LongRead, es: seq<WEvent>)
    requires AllAllowed(r, es) && q.id == r.id
    ensures AllAllowed(q, es)
  {
    forall e | e in es
      ensures WAllowed(q, e)
    {
      assert WAllowed(r, e);
    }
  }

  lemma SameSilent(s: State, r: LongRead, q: LongRead)
    requires Silent(s, r) && q.mine == r.mine
    ensures Silent(s, q)
  {
  }

  /**
   Cancelling the one id that gatt_read_char returned stops the whole chain, wherever it stands:
   from then on the read issues nothing and delivers nothing.
   */
  lemma CancelStops(w: World, es: seq<WEvent>)
    requires WInv(w) && AllAllowed(w.r, es)
    ensures var c := WStep(w, WAct(ActCancel(w.r.id)));
      WRun(c, es).r.mine == w.r.mine && WRun(c, es).r.delivered == w.r.delivered
  {
    hide Inv, Own, AtHead, Started, RefOk, DeliveredOk, AllAllowed, WRun, CancelId;
    var e := WAct(ActCancel(w.r.id));
    var c := WStep(w, e);
    WStepKeeps(w, e);
    CancelSilences(w.s, w.r);
    SameSilent(c.s, w.r, c.r);
    AllowedById(w.r, c.r, es);
    SilentRun(c, es);
  }
}

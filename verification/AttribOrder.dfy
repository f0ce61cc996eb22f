/** The transport never reorders: responses leave in the order they were queued, and so do requests without ids. */
module AttribOrder {
  import opened AttCodes
  import opened AttribSpec

  /** Later commands stand behind earlier ones. */
  ghost predicate InOrder(q: seq<Cmd>) {
    forall i, j :: 0 <= i < j < |q| ==> q[i].serial < q[j].serial
  }

  ghost predicate Older(q: seq<Cmd>, next: nat) {
    forall c :: c in q ==> c.serial < next
  }

  /** Both queues hold commands of the past; the responses are in order, and the requests are if `fifo` asks for it. */
  ghost predicate Ordered(s: State, fifo: bool) {
    && Older(s.requests, s.nextSerial) && Older(s.responses, s.nextSerial)
    && InOrder(s.responses) && (fifo ==> InOrder(s.requests))
  }

  /** With `fifo`, no request is sent under an id of the caller's. */
  predicate Tame(a: Action, fifo: bool) {
    fifo && a.ActSend? && !IsResponse(a.opcode) ==> a.id == 0
  }

  predicate AllTame(acts: seq<Action>, fifo: bool) {
    forall a :: a in acts ==> Tame(a, fifo)
  }

  lemma Append(q: seq<Cmd>, c: Cmd)
    requires Older(q, c.serial) && InOrder(q)
    ensures InOrder(q + [c])
  {
    assert forall i :: 0 <= i < |q| ==> q[i] in q;
  }

  lemma OlderWith(q: seq<Cmd>, c: Cmd, next: nat)
    requires Older(q, next) && c.serial < next + 1
    ensures Older(q + [c], next + 1) && Older([c] + q, next + 1) && Older(q, next + 1)
  {
  }

  lemma SendOrder(s: State, id: nat, opcode: nat, func: bool, fifo: bool)
    requires Ordered(s, fifo) && Tame(ActSend(id, opcode, func), fifo)
    ensures Ordered(Send(s, id, opcode, func).0, fifo)
  {
    hide Older, InOrder, OpcodeToExpected, IsResponse;
    if !s.stale {
      var c := Cmd(s.nextSerial, if id != 0 then id else s.nextId + 1, opcode, OpcodeToExpected(opcode), false, func);
      OlderWith(s.requests, c, s.nextSerial);
      OlderWith(s.responses, c, s.nextSerial);
      Append(s.responses, c);
      if fifo {
        Append(s.requests, c);
      }
    }
  }

  /** Whatever drops commands or changes their flags keeps the order of the others. */
  lemma CancelAtOrder(q: seq<Cmd>, i: nat, next: nat)
    requires i < |q| && Older(q, next)
    ensures Older(CancelAt(q, i).0, next) && (InOrder(q) ==> InOrder(CancelAt(q, i).0))
  {
    var t := CancelAt(q, i).0;
    if i == 0 && q[0].sent {
      assert forall j :: 0 <= j < |t| ==> t[j].serial == q[j].serial;
    } else {
      assert forall j :: 0 <= j < |t| ==> t[j] == q[if j < i then j else j + 1];
    }
    assert forall j :: 0 <= j < |q| ==> q[j] in q;
  }

  lemma CancelOrder(s: State, id: nat, fifo: bool)
    requires Ordered(s, fifo)
    ensures Ordered(CancelId(s, id).0, fifo)
  {
    hide Older, InOrder, CancelAt;
    var i, j := FindId(s.requests, id), FindId(s.responses, id);
    if i < |s.requests| {
      CancelAtOrder(s.requests, i, s.nextSerial);
    } else if j < |s.responses| {
      CancelAtOrder(s.responses, j, s.nextSerial);
    }
  }

  lemma CancelQueueOrder(q: seq<Cmd>, next: nat)
    requires Older(q, next)
    ensures Older(CancelQueue(q).0, next) && InOrder(CancelQueue(q).0)
  {
    hide DropAll, MarkAll;
    var n := LeadSent(q);
    if n > 0 {
      assert q[n - 1] in q;
    }
  }

  lemma ActOrder(s: State, a: Action, fifo: bool)
    requires Ordered(s, fifo) && Tame(a, fifo)
    ensures Ordered(Act(s, a), fifo)
  {
    hide Older, InOrder, CancelQueue, Send, CancelId;
    match a {
      case ActSend(id, opcode, func) => SendOrder(s, id, opcode, func, fifo);
      case ActCancel(id) => CancelOrder(s, id, fifo);
      case ActCancelAll =>
        CancelQueueOrder(s.requests, s.nextSerial);
        CancelQueueOrder(s.responses, s.nextSerial);
    }
  }

  lemma {:induction false} ActsOrder(s: State, acts: seq<Action>, fifo: bool)
    requires Ordered(s, fifo) && AllTame(acts, fifo)
    ensures Ordered(Acts(s, acts), fifo)
    decreases |acts|
  {
    hide Ordered, Act, Tame;
    if acts != [] {
      assert acts[0] in acts;
      ActOrder(s, acts[0], fifo);
      ActsOrder(Act(s, acts[0]), acts[1..], fifo);
    }
  }

  lemma TailOrder(q: seq<Cmd>, next: nat)
    requires Older(q, next) && q != []
    ensures Older(q[1..], next) && (InOrder(q) ==> InOrder(q[1..]))
  {
  }

  lemma SameSerials(q: seq<Cmd>, d: Cmd, next: nat)
    requires Older(q, next) && q != [] && d.serial == q[0].serial
    ensures Older(q[0 := d], next) && (InOrder(q) ==> InOrder(q[0 := d]))
  {
    assert q[0] in q;
  }

  lemma CanWriteOrder(s: State, hup: bool, ioOk: bool, fifo: bool)
    requires Ordered(s, fifo)
    ensures Ordered(CanWrite(s, hup, ioOk), fifo)
  {
    hide Older, InOrder;
    if s.responses != [] {
      TailOrder(s.responses, s.nextSerial);
      SameSerials(s.responses, s.responses[0].(sent := true), s.nextSerial);
    } else if s.requests != [] {
      TailOrder(s.requests, s.nextSerial);
      SameSerials(s.requests, s.requests[0].(sent := true), s.nextSerial);
    }
  }

  lemma FinishOrder(s: State, c: Cmd, status: nat, acts: seq<Action>, fifo: bool)
    requires Ordered(s, fifo) && AllTame(acts, fifo)
    ensures Ordered(Finish(s, c, status, acts), fifo)
  {
    hide Older, InOrder, Acts, AllTame;
    if c.func {
      ActsOrder(s.(log := s.log + [Called(c.serial, status)]), acts, fifo);
    }
  }

  lemma ReceivedOrder(s: State, hup: bool, rdOk: bool, opcode: nat, ecode: nat, events: seq<Action>, acts: seq<Action>,
                      fifo: bool)
    requires Ordered(s, fifo) && AllTame(events, fifo) && AllTame(acts, fifo)
    ensures Ordered(Received(s, hup, rdOk, opcode, ecode, events, acts), fifo)
  {
    hide Older, InOrder, Acts, Finish, AllTame;
    ActsOrder(s, events, fifo);
    var u := Acts(s, events);
    if u.requests != [] {
      TailOrder(u.requests, u.nextSerial);
      var v := u.(timeoutWatch := false, requests := u.requests[1..]);
      var w := if v.requests != [] || v.responses != [] then WakeUp(v) else v;
      FinishOrder(w, u.requests[0], ResultStatus(u.requests[0], opcode, ecode), acts, fifo);
    }
  }

  lemma NoneTame(fifo: bool)
    ensures AllTame([], fifo)
  {
  }

  lemma {:induction false} AbortAllOrder(s: State, status: nat, scripts: seq<seq<Action>>, fifo: bool)
    requires Ordered(s, fifo) && forall x :: x in scripts ==> AllTame(x, fifo)
    ensures Ordered(AbortAll(s, status, scripts), fifo)
    decreases |scripts|, |s.requests|
  {
    hide Older, InOrder, Finish, AllTame;
    if s.requests != [] {
      var c, t := s.requests[0], s.(requests := s.requests[1..]);
      TailOrder(s.requests, s.nextSerial);
      var go := c.func && scripts != [];
      var script := if go then scripts[0] else [];
      NoneTame(fifo);
      FinishOrder(t, c, status, script, fifo);
      if !go { QuietFinish(t, c, status); }
      AbortAllOrder(Finish(t, c, status, script), ATT_ECODE_ABORTED, if go then scripts[1..] else scripts, fifo);
    }
  }

  predicate TameEvent(e: Event, fifo: bool) {
    match e
    case EvAct(a) => Tame(a, fifo)
    case EvCanWrite(_, _) => true
    case EvReceived(_, _, _, _, events, acts) => AllTame(events, fifo) && AllTame(acts, fifo)
    case EvTimeout(scripts) => forall x :: x in scripts ==> AllTame(x, fifo)
  }

  lemma StepOrder(s: State, e: Event, fifo: bool)
    requires Ordered(s, fifo) && TameEvent(e, fifo)
    ensures Ordered(Step(s, e), fifo)
  {
    hide Older, InOrder, Act, CanWrite, Received, AbortAll, AllTame;
    match e {
      case EvAct(a) => ActOrder(s, a, fifo);
      case EvCanWrite(hup, ioOk) => CanWriteOrder(s, hup, ioOk, fifo);
      case EvReceived(hup, rdOk, op, ecode, events, acts) =>
        ReceivedOrder(s, hup, rdOk, op, ecode, events, acts, fifo);
      case EvTimeout(scripts) => AbortAllOrder(s, ATT_ECODE_TIMEOUT, scripts, fifo);
    }
  }

  lemma {:induction false} RunOrder(s: State, es: seq<Event>, fifo: bool)
    requires Ordered(s, fifo) && forall e :: e in es ==> TameEvent(e, fifo)
    ensures Ordered(Run(s, es), fifo)
    decreases |es|
  {
    hide Ordered, Step, TameEvent;
    if es != [] {
      assert es[0] in es;
      StepOrder(s, es[0], fifo);
      RunOrder(Step(s, es[0]), es[1..], fifo);
    }
  }

  /**
   In every reachable state, whatever ids are used, the response written next is the oldest one queued;
   and if no request uses an id of the caller's, so is the request.
   */
  lemma FirstIsOldest(es: seq<Event>, fifo: bool, c: Cmd)
    requires forall e :: e in es ==> TameEvent(e, fifo)
    ensures var s := Run(INIT, es);
      && (c in s.responses ==> s.responses[0].serial <= c.serial)
      && (fifo && c in s.requests ==> s.requests[0].serial <= c.serial)
  {
    hide Run;
    RunOrder(INIT, es, fifo);
    var s := Run(INIT, es);
    if c in s.responses {
      var i :| 0 <= i < |s.responses| && s.responses[i] == c;
    }
    if fifo && c in s.requests {
      var i :| 0 <= i < |s.requests| && s.requests[i] == c;
    }
  }
}

/** Ids over whole runs: if only ids that were given out are reused, the next one is new. */
module AttribIds {
  import opened AttCodes
  import opened AttribSpec

  /** Every queued command carries an id that was given out. */
  ghost predicate IdsGiven(s: State) {
    forall c :: c in s.requests || c in s.responses ==> c.id <= s.nextId
  }

  /** The last id given out after the calls, when the last one before them was n. */
  function LastId(n: nat, acts: seq<Action>): nat
    decreases |acts|
  {
    if acts == [] then n else LastId(if acts[0].ActSend? && acts[0].id == 0 then n + 1 else n, acts[1..])
  }

  /**
   Each nonzero id passed to a send was returned by an earlier one: ids are given out from 1 on, and n was the
   last.
   */
  predicate Returned(n: nat, acts: seq<Action>)
    decreases |acts|
  {
    acts != [] ==>
      && (acts[0].ActSend? ==> acts[0].id <= n)
      && Returned(if acts[0].ActSend? && acts[0].id == 0 then n + 1 else n, acts[1..])
  }

  function Joined(scripts: seq<seq<Action>>): seq<Action> {
    if scripts == [] then [] else scripts[0] + Joined(scripts[1..])
  }

  /** The calls that an event makes, in order. */
  function CallsOf(e: Event): seq<Action> {
    match e
    case EvAct(a) => [a]
    case EvCanWrite(_, _) => []
    case EvReceived(_, _, _, _, events, acts) => events + acts
    case EvTimeout(scripts) => Joined(scripts)
  }

  predicate ReturnedRun(s: State, es: seq<Event>)
    decreases |es|
  {
    es != [] ==> Returned(s.nextId, CallsOf(es[0])) && ReturnedRun(Step(s, es[0]), es[1..])
  }

  lemma {:induction false} ReturnedConcat(n: nat, a: seq<Action>, b: seq<Action>)
    ensures Returned(n, a + b) <==> Returned(n, a) && Returned(LastId(n, a), b)
    ensures LastId(n, a + b) == LastId(LastId(n, a), b)
    decreases |a|
  {
    if a == [] {
      assert a + b == b;
    } else {
      assert (a + b)[0] == a[0] && (a + b)[1..] == a[1..] + b;
      ReturnedConcat(if a[0].ActSend? && a[0].id == 0 then n + 1 else n, a[1..], b);
    }
  }

  /** Nothing but the ids of commands in the queues matters, and only fewer or marked ones are left. */
  lemma IdsKept(s: State, t: State)
    requires IdsGiven(s) && t.nextId >= s.nextId
    requires forall c :: c in t.requests ==> exists d :: d in s.requests && d.id == c.id
    requires forall c :: c in t.responses ==> exists d :: d in s.responses && d.id == c.id
    ensures IdsGiven(t)
  {
  }

  lemma SendIds(s: State, id: nat, opcode: nat, func: bool)
    requires IdsGiven(s) && id <= s.nextId && !s.stale
    ensures var t := Send(s, id, opcode, func).0;
      IdsGiven(t) && t.nextId == (if id == 0 then s.nextId + 1 else s.nextId) && !t.stale
  {
    hide IsResponse, OpcodeToExpected;
  }

  lemma CancelAtIds(q: seq<Cmd>, i: nat)
    requires i < |q|
    ensures forall c :: c in CancelAt(q, i).0 ==> exists d :: d in q && d.id == c.id
  {
    var r := CancelAt(q, i).0;
    forall c | c in r
      ensures exists d :: d in q && d.id == c.id
    {
      var j :| 0 <= j < |r| && r[j] == c;
      var d := q[if (i == 0 && q[0].sent) || j < i then j else j + 1];
      assert d in q && d.id == c.id;
    }
  }

  lemma CancelIds(s: State, id: nat)
    requires IdsGiven(s)
    ensures var t := CancelId(s, id).0; IdsGiven(t) && t.nextId == s.nextId && t.stale == s.stale
  {
    hide CancelAt, FindId;
    var i, j := FindId(s.requests, id), FindId(s.responses, id);
    if i < |s.requests| {
      CancelAtIds(s.requests, i);
    } else if j < |s.responses| {
      CancelAtIds(s.responses, j);
    }
  }

  lemma CancelQueueIds(q: seq<Cmd>)
    ensures forall c :: c in CancelQueue(q).0 ==> exists d :: d in q && d.id == c.id
  {
    hide DropAll, MarkAll;
    var n := LeadSent(q);
    if n > 0 {
      assert q[n - 1] in q;
    }
  }

  lemma CancelAllIds(s: State)
    requires IdsGiven(s)
    ensures var t := CancelEvery(s); IdsGiven(t) && t.nextId == s.nextId && t.stale == s.stale
  {
    hide CancelQueue;
    CancelQueueIds(s.requests);
    CancelQueueIds(s.responses);
    IdsKept(s, CancelEvery(s));
  }

  lemma ActIds(s: State, a: Action)
    requires IdsGiven(s) && !s.stale && (a.ActSend? ==> a.id <= s.nextId)
    ensures var t := Act(s, a);
      IdsGiven(t) && !t.stale && t.nextId == if a.ActSend? && a.id == 0 then s.nextId + 1 else s.nextId
  {
    hide Send, CancelId, CancelEvery, IdsGiven;
    match a {
      case ActSend(id, opcode, func) => SendIds(s, id, opcode, func);
      case ActCancel(id) => CancelIds(s, id);
      case ActCancelAll => CancelAllIds(s);
    }
  }

  lemma {:induction false} ActsIds(s: State, acts: seq<Action>)
    requires IdsGiven(s) && !s.stale && Returned(s.nextId, acts)
    ensures var t := Acts(s, acts); IdsGiven(t) && !t.stale && t.nextId == LastId(s.nextId, acts)
    decreases |acts|
  {
    hide Act, IdsGiven;
    if acts != [] {
      ActIds(s, acts[0]);
      ActsIds(Act(s, acts[0]), acts[1..]);
    }
  }

  lemma FinishIds(s: State, c: Cmd, status: nat, acts: seq<Action>)
    requires IdsGiven(s) && !s.stale && Returned(s.nextId, acts)
    ensures var t := Finish(s, c, status, acts);
      IdsGiven(t) && !t.stale && t.nextId == if c.func then LastId(s.nextId, acts) else s.nextId
  {
    hide Acts, LastId, Returned;
    if c.func {
      ActsIds(s.(log := s.log + [Called(c.serial, status)]), acts);
    }
  }

  lemma AnswerIds(s: State, opcode: nat, ecode: nat, acts: seq<Action>)
    requires IdsGiven(s) && !s.stale && Returned(s.nextId, acts)
    ensures IdsGiven(Answer(s, opcode, ecode, acts))
  {
    hide Finish, ResultStatus, Returned, LastId;
    if s.requests != [] {
      var c := s.requests[0];
      var v := s.(timeoutWatch := false, requests := s.requests[1..]);
      var x := if v.requests != [] || v.responses != [] then WakeUp(v) else v;
      FinishIds(x, c, ResultStatus(c, opcode, ecode), acts);
    }
  }

  lemma TailIds(s: State)
    requires IdsGiven(s) && s.requests != []
    ensures IdsGiven(s.(requests := s.requests[1..]))
  {
  }

  lemma NoneReturned(n: nat)
    ensures Returned(n, []) && LastId(n, []) == n
  {
  }

  lemma TurnIds(s: State, status: nat, scripts: seq<seq<Action>>)
    requires IdsGiven(s) && !s.stale && s.requests != [] && Returned(s.nextId, Joined(scripts))
    ensures var c, t := s.requests[0], s.(requests := s.requests[1..]);
      var u := Finish(t, c, status, if c.func && scripts != [] then scripts[0] else []);
      IdsGiven(u) && !u.stale && Returned(u.nextId, Joined(if c.func && scripts != [] then scripts[1..] else scripts))
  {
    hide Finish, IdsGiven, Returned, LastId;
    var c, t := s.requests[0], s.(requests := s.requests[1..]);
    TailIds(s);
    if c.func && scripts != [] {
      ReturnedConcat(s.nextId, scripts[0], Joined(scripts[1..]));
      FinishIds(t, c, status, scripts[0]);
    } else {
      NoneReturned(s.nextId);
      FinishIds(t, c, status, []);
    }
  }

  lemma {:induction false} AbortAllIds(s: State, status: nat, scripts: seq<seq<Action>>)
    requires IdsGiven(s) && !s.stale && Returned(s.nextId, Joined(scripts))
    ensures IdsGiven(AbortAll(s, status, scripts))
    decreases |scripts|, |s.requests|
  {
    hide Finish, IdsGiven, Returned, Joined;
    if s.requests != [] {
      var c, t := s.requests[0], s.(requests := s.requests[1..]);
      TurnIds(s, status, scripts);
      if c.func && scripts != [] {
        AbortAllIds(Finish(t, c, status, scripts[0]), ATT_ECODE_ABORTED, scripts[1..]);
      } else {
        QuietFinish(t, c, status);
        AbortAllIds(Finish(t, c, status, []), ATT_ECODE_ABORTED, scripts);
      }
    }
  }

  lemma ReceivedIds(s: State, hup: bool, rdOk: bool, opcode: nat, ecode: nat, events: seq<Action>, acts: seq<Action>)
    requires IdsGiven(s) && Returned(s.nextId, events + acts)
    ensures IdsGiven(Received(s, hup, rdOk, opcode, ecode, events, acts))
  {
    hide Acts, Answer, Returned, LastId;
    ReturnedConcat(s.nextId, events, acts);
    if !s.stale && !hup && rdOk {
      ActsIds(s, events);
      AnswerIds(Acts(s, events), opcode, ecode, acts);
    }
  }

  lemma CanWriteIds(s: State, hup: bool, ioOk: bool)
    requires IdsGiven(s)
    ensures IdsGiven(CanWrite(s, hup, ioOk))
  {
    var t := CanWrite(s, hup, ioOk);
    forall c | c in t.requests
      ensures c.id <= t.nextId
    {
      assert c in s.requests || (c.id == s.requests[0].id && s.requests[0] in s.requests);
    }
    forall c | c in t.responses
      ensures c.id <= t.nextId
    {
      assert c in s.responses || (c.id == s.responses[0].id && s.responses[0] in s.responses);
    }
  }

  lemma StaleIds(s: State)
    requires IdsGiven(s)
    ensures IdsGiven(s.(stale := true))
  {
  }

  lemma StaleAct(s: State, a: Action)
    requires IdsGiven(s) && s.stale
    ensures IdsGiven(Act(s, a))
  {
    hide CancelId, CancelEvery, IdsGiven;
    match a {
      case ActSend(_, _, _) =>
      case ActCancel(id) => CancelIds(s, id);
      case ActCancelAll => CancelAllIds(s);
    }
  }

  lemma StepIds(s: State, e: Event)
    requires IdsGiven(s) && Returned(s.nextId, CallsOf(e))
    ensures IdsGiven(Step(s, e))
  {
    hide Send, CancelId, CancelEvery, CanWrite, Received, AbortAll, IdsGiven;
    match e {
      case EvAct(a) =>
        assert [a][0] == a;
        if !s.stale { ActIds(s, a); } else { StaleAct(s, a); }
      case EvCanWrite(hup, ioOk) => if s.writeWatch { CanWriteIds(s, hup, ioOk); }
      case EvReceived(hup, rdOk, opcode, ecode, events, acts) => ReceivedIds(s, hup, rdOk, opcode, ecode, events, acts);
      case EvTimeout(scripts) =>
        if s.timeoutWatch && !s.stale {
          AbortAllIds(s, ATT_ECODE_TIMEOUT, scripts);
          StaleIds(AbortAll(s, ATT_ECODE_TIMEOUT, scripts));
        }
    }
  }

  lemma {:induction false} RunIds(s: State, es: seq<Event>)
    requires IdsGiven(s) && ReturnedRun(s, es)
    ensures IdsGiven(Run(s, es))
    decreases |es|
  {
    hide IdsGiven, Step, Returned, CallsOf;
    if es != [] {
      StepIds(s, es[0]);
      RunIds(Step(s, es[0]), es[1..]);
    }
  }

  /** In every run that reuses only ids that were returned to it, no queued command carries the id given next. */
  lemma NextIdIsNew(es: seq<Event>)
    requires ReturnedRun(INIT, es)
    ensures var s := Run(INIT, es);
      forall c :: c in s.requests || c in s.responses ==> c.id != s.nextId + 1
  {
    hide Run, ReturnedRun;
    RunIds(INIT, es);
  }

  /** With an id of the caller's own a queued command can carry it. */
  lemma OwnIdCollides()
    ensures var s := Run(INIT, [EvAct(ActSend(1, ATT_OP_READ_RESP, true))]);
      s.responses != [] && s.responses[0].id == s.nextId + 1
  {
    var a := EvAct(ActSend(1, ATT_OP_READ_RESP, true));
    assert [a][1..] == [];
    assert Run(INIT, [a]) == Run(Step(INIT, a), []) == Step(INIT, a);
  }
}

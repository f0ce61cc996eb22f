/** Where a queued request comes from, and which request an answer of a sequential peer reaches. */
module AttribAnswers {
  import opened AttCodes
  import opened AttribEffects
  import opened AttribSpec
  import opened AttribSafety

  // ----- requests and their responses -----

  /** The attribute protocol's requests and its indication: what is answered, with the opcode behind their own. */
  predicate Asks(opcode: nat) {
    opcode in [0x02, 0x04, 0x06, 0x08, 0x0A, 0x0C, 0x0E, 0x10, 0x12, 0x16, 0x18, 0x1D]
  }

  /** The command waits for the response to its opcode, if there is one. */
  predicate Matched(c: Cmd) {
    c.expected == if Asks(c.opcode) then c.opcode + 1 else 0
  }

  /** A request expects the opcode behind its own, and these opcodes and the Error Response are the responses. */
  lemma OpcodesPair(opcode: nat)
    ensures OpcodeToExpected(opcode) == if Asks(opcode) then opcode + 1 else 0
    ensures IsResponse(opcode) <==> opcode == 0x01 || (opcode > 0 && Asks(opcode - 1))
  {
  }

  // ----- where a queued request comes from -----

  /** The request was there before, for the same answer; if it counts as sent now, it did then. */
  ghost predicate From(c: Cmd, s: State) {
    exists d :: d in s.requests && d.serial == c.serial && d.opcode == c.opcode && d.expected == c.expected
                && (c.sent ==> d.sent)
  }

  /** Every request is new and unsent, and waits for the response to its opcode, or was there before. */
  ghost predicate Stems(s: State, t: State) {
    && t.nextSerial >= s.nextSerial
    && forall c :: c in t.requests ==> (c.serial >= s.nextSerial && !c.sent && Matched(c)) || From(c, s)
  }

  lemma StemsSub(s: State, t: State)
    requires t.nextSerial >= s.nextSerial && forall c :: c in t.requests ==> c in s.requests
    ensures Stems(s, t)
  {
  }

  lemma StemsTrans(s: State, t: State, u: State)
    requires Stems(s, t) && Stems(t, u)
    ensures Stems(s, u)
  {
    forall c | c in u.requests
      ensures (c.serial >= s.nextSerial && !c.sent && Matched(c)) || From(c, s)
    {
      if From(c, t) {
        var d :| d in t.requests && d.serial == c.serial && d.opcode == c.opcode && d.expected == c.expected
          && (c.sent ==> d.sent);
        assert (d.serial >= s.nextSerial && !d.sent && Matched(d)) || From(d, s);
      }
    }
  }

  lemma SendStems(s: State, id: nat, opcode: nat, func: bool)
    ensures Stems(s, Send(s, id, opcode, func).0)
  {
    hide IsResponse, OpcodeToExpected, Asks;
    OpcodesPair(opcode);
    var t := Send(s, id, opcode, func).0;
    forall c | c in t.requests
      ensures (c.serial >= s.nextSerial && !c.sent && Matched(c)) || From(c, s)
    {
      assert c in s.requests || (c.serial == s.nextSerial && !c.sent && Matched(c));
    }
  }

  lemma CancelAtFrom(q: seq<Cmd>, i: nat, c: Cmd)
    requires i < |q| && c in CancelAt(q, i).0
    ensures exists d :: d in q && d.serial == c.serial && d.opcode == c.opcode && d.expected == c.expected
                        && d.sent == c.sent
  {
    var r := CancelAt(q, i).0;
    var j :| 0 <= j < |r| && r[j] == c;
    var d := q[if (i == 0 && q[0].sent) || j < i then j else j + 1];
    assert d in q && d.serial == c.serial && d.opcode == c.opcode && d.expected == c.expected && d.sent == c.sent;
  }

  lemma CancelStems(s: State, id: nat)
    ensures Stems(s, CancelId(s, id).0)
  {
    hide CancelAt, FindId;
    var t := CancelId(s, id).0;
    var i := FindId(s.requests, id);
    forall c | c in t.requests
      ensures From(c, s)
    {
      if i < |s.requests| {
        CancelAtFrom(s.requests, i, c);
      }
    }
  }

  lemma CancelAllStems(s: State)
    ensures Stems(s, CancelEvery(s))
  {
    hide MarkAll, DropAll;
    var n := LeadSent(s.requests);
    if n > 0 {
      assert s.requests[n - 1] in s.requests;
    }
  }

  lemma ActStems(s: State, a: Action)
    ensures Stems(s, Act(s, a))
  {
    hide Send, CancelId, CancelEvery;
    match a {
      case ActSend(id, opcode, func) => SendStems(s, id, opcode, func);
      case ActCancel(id) => CancelStems(s, id);
      case ActCancelAll => CancelAllStems(s);
    }
  }

  lemma {:induction false} ActsStem(s: State, acts: seq<Action>)
    ensures Stems(s, Acts(s, acts))
    decreases |acts|
  {
    hide Act, Stems;
    if acts == [] {
      StemsSub(s, s);
    } else {
      ActStems(s, acts[0]);
      ActsStem(Act(s, acts[0]), acts[1..]);
      StemsTrans(s, Act(s, acts[0]), Acts(s, acts));
    }
  }

  lemma FinishStems(s: State, c: Cmd, status: nat, acts: seq<Action>)
    ensures Stems(s, Finish(s, c, status, acts))
  {
    hide Acts, Stems;
    var u := s.(log := s.log + [Called(c.serial, status)]);
    var v := if c.func then Acts(u, acts) else s;
    var t := Finish(s, c, status, acts);
    StemsSub(s, u);
    ActsStem(u, acts);
    StemsTrans(s, u, Acts(u, acts));
    StemsSub(s, s);
    StemsSub(v, t);
    StemsTrans(s, v, t);
  }

  lemma AnswerStems(s: State, opcode: nat, ecode: nat, acts: seq<Action>)
    ensures Stems(s, Answer(s, opcode, ecode, acts))
  {
    hide Finish, ResultStatus, Stems;
    var t := Answer(s, opcode, ecode, acts);
    if s.requests == [] {
      StemsSub(s, t);
    } else {
      var c := s.requests[0];
      var v := s.(timeoutWatch := false, requests := s.requests[1..]);
      var x := if v.requests != [] || v.responses != [] then WakeUp(v) else v;
      StemsSub(s, x);
      FinishStems(x, c, ResultStatus(c, opcode, ecode), acts);
      StemsTrans(s, x, t);
    }
  }

  lemma ReceivedStems(s: State, hup: bool, rdOk: bool, opcode: nat, ecode: nat, events: seq<Action>, acts: seq<Action>)
    ensures Stems(s, Received(s, hup, rdOk, opcode, ecode, events, acts))
  {
    hide Acts, Answer, Stems;
    var u, t := Acts(s, events), Received(s, hup, rdOk, opcode, ecode, events, acts);
    ActsStem(s, events);
    AnswerStems(u, opcode, ecode, acts);
    StemsTrans(s, u, Answer(u, opcode, ecode, acts));
    if s.stale || hup || !rdOk {
      StemsSub(s, t);
    }
  }

  lemma TurnStems(s: State, status: nat, scripts: seq<seq<Action>>)
    requires s.requests != []
    ensures Stems(s, AbortTurn(s, status, scripts).0)
  {
    hide Finish, Stems;
    var c, t := s.requests[0], s.(requests := s.requests[1..]);
    StemsSub(s, t);
    FinishStems(t, c, status, if c.func && scripts != [] then scripts[0] else []);
    StemsTrans(s, t, AbortTurn(s, status, scripts).0);
  }

  lemma {:induction false} AbortAllStems(s: State, status: nat, scripts: seq<seq<Action>>)
    ensures Stems(s, AbortAll(s, status, scripts))
    decreases |scripts|, |s.requests|
  {
    hide AbortTurn, Stems;
    if s.requests == [] {
      StemsSub(s, s);
    } else {
      var (u, rest) := AbortTurn(s, status, scripts);
      TurnDecreases(s, status, scripts);
      TurnStems(s, status, scripts);
      AbortAllStems(u, ATT_ECODE_ABORTED, rest);
      StemsTrans(s, u, AbortAll(s, status, scripts));
    }
  }

  // ----- a request that counts as sent was written -----

  ghost predicate SentWritten(s: State) {
    forall c :: c in s.requests && c.sent ==> Wrote(c.serial) in s.log
  }

  lemma StemsWritten(s: State, t: State)
    requires SentWritten(s) && Stems(s, t) && Extends(s, t)
    ensures SentWritten(t)
  {
    forall c | c in t.requests && c.sent
      ensures Wrote(c.serial) in t.log
    {
      var d :| d in s.requests && d.serial == c.serial && d.expected == c.expected && (c.sent ==> d.sent);
      LogStays(s, t, Wrote(d.serial));
    }
  }

  lemma MarkedWritten(s: State, t: State, k: nat)
    requires SentWritten(s) && Extends(s, t) && Wrote(k) in t.log
    requires forall c :: c in t.requests ==> c in s.requests || (c.serial == k)
    ensures SentWritten(t)
  {
    forall c | c in t.requests && c.sent
      ensures Wrote(c.serial) in t.log
    {
      if c.serial != k {
        LogStays(s, t, Wrote(c.serial));
      }
    }
  }

  /** Writing appends to the log that the first command went out, and perhaps that it was destroyed. */
  lemma CanWriteLog(s: State, hup: bool, ioOk: bool)
    ensures var t := CanWrite(s, hup, ioOk);
      (t.log == s.log && t.requests == s.requests) ||
      exists k: nat ::
        && (t.log == s.log + [Wrote(k)] || t.log == s.log + [Wrote(k)] + [Destroyed(k)])
        && forall c :: c in t.requests ==> c in s.requests || c.serial == k
  {
    var t := CanWrite(s, hup, ioOk);
    if t.log != s.log {
      var k := if s.responses != [] then s.responses[0].serial else s.requests[0].serial;
      assert t.log == s.log + [Wrote(k)] || t.log == s.log + [Wrote(k)] + [Destroyed(k)];
      assert forall c :: c in t.requests ==> c in s.requests || c.serial == k;
    }
  }

  lemma WroteCallsNobody(s: State, t: State, k: nat)
    requires t.log == s.log + [Wrote(k)] || t.log == s.log + [Wrote(k)] + [Destroyed(k)]
    ensures Extends(s, t) && Calls(New(s, t)) == [] && Wrote(k) in t.log
  {
    hide Calls;
    var w, d := Wrote(k), Destroyed(k);
    CallsOne(w);
    CallsOne(d);
    CallsConcat([w], [d]);
    assert t.log[|s.log|] == w;
    if t.log == s.log + [w] {
      Appended(s, t, [w]);
    } else {
      assert t.log == s.log + ([w] + [d]);
      Appended(s, t, [w] + [d]);
    }
  }

  /** Writing marks the request it writes. */
  lemma CanWriteWritten(s: State, hup: bool, ioOk: bool)
    requires SentWritten(s)
    ensures SentWritten(CanWrite(s, hup, ioOk)) && Extends(s, CanWrite(s, hup, ioOk))
    ensures Calls(New(s, CanWrite(s, hup, ioOk))) == []
  {
    hide Calls, CanWrite;
    var t := CanWrite(s, hup, ioOk);
    CanWriteLog(s, hup, ioOk);
    if t.log == s.log && t.requests == s.requests {
      Appended(s, t, []);
      CallsNone();
    } else {
      var k: nat :|
        && (t.log == s.log + [Wrote(k)] || t.log == s.log + [Wrote(k)] + [Destroyed(k)])
        && forall c :: c in t.requests ==> c in s.requests || c.serial == k;
      WroteCallsNobody(s, t, k);
      MarkedWritten(s, t, k);
    }
  }

  // ----- every request waits for the response to its opcode -----

  ghost predicate AllMatched(s: State) {
    forall c :: c in s.requests ==> Matched(c)
  }

  lemma StemsMatched(s: State, t: State)
    requires AllMatched(s) && Stems(s, t)
    ensures AllMatched(t)
  {
    hide Asks;
    forall c | c in t.requests
      ensures Matched(c)
    {
      if From(c, s) {
        var d :| d in s.requests && d.opcode == c.opcode && d.expected == c.expected;
        assert Matched(d);
      }
    }
  }

  lemma CanWriteMatched(s: State, hup: bool, ioOk: bool)
    requires AllMatched(s)
    ensures AllMatched(CanWrite(s, hup, ioOk))
  {
    hide Asks;
    var t := CanWrite(s, hup, ioOk);
    forall c | c in t.requests
      ensures Matched(c)
    {
      if c !in s.requests {
        assert s.requests[0] in s.requests && c.opcode == s.requests[0].opcode && c.expected == s.requests[0].expected;
      }
    }
  }

  lemma SameRequestsMatched(s: State, t: State)
    requires AllMatched(s) && t.requests == s.requests
    ensures AllMatched(t)
  {
  }

  lemma StepMatched(s: State, e: Event)
    requires AllMatched(s)
    ensures AllMatched(Step(s, e))
  {
    hide Act, CanWrite, Received, AbortAll, Stems, AllMatched;
    match e {
      case EvAct(a) =>
        ActStems(s, a);
        StemsMatched(s, Act(s, a));
      case EvCanWrite(hup, ioOk) =>
        CanWriteMatched(s, hup, ioOk);
      case EvReceived(hup, rdOk, opcode, ecode, events, acts) =>
        ReceivedStems(s, hup, rdOk, opcode, ecode, events, acts);
        StemsMatched(s, Step(s, e));
      case EvTimeout(scripts) =>
        var t := AbortAll(s, ATT_ECODE_TIMEOUT, scripts);
        AbortAllStems(s, ATT_ECODE_TIMEOUT, scripts);
        StemsMatched(s, t);
        SameRequestsMatched(t, Timeout(s, scripts));
    }
  }

  /** In every reachable state. */
  lemma {:induction false} RunMatched(s: State, es: seq<Event>)
    requires AllMatched(s)
    ensures AllMatched(Run(s, es))
    decreases |es|
  {
    hide AllMatched, Step;
    if es != [] {
      StepMatched(s, es[0]);
      RunMatched(Step(s, es[0]), es[1..]);
    }
  }

  // ----- answers -----

  /** The event hands an answer to the head of the queue. */
  predicate Answering(s: State, e: Event) {
    e.EvReceived? && !s.stale && !e.hup && e.rdOk && IsResponse(e.opcode)
  }

  /** The peer answers only a request that was written and has not been answered. */
  predicate Polite(s: State, e: Event) {
    Answering(s, e) ==> HeadSent(s)
  }

  predicate PoliteRun(s: State, es: seq<Event>)
    decreases |es|
  {
    es != [] ==> Polite(s, es[0]) && PoliteRun(Step(s, es[0]), es[1..])
  }

  /** The same command, though it may have lost its callback. */
  predicate SameRequest(c: Cmd, d: Cmd) {
    c.serial == d.serial && c.opcode == d.opcode && c.expected == d.expected && (c.func ==> d.func)
  }

  /** What event handlers do leaves the outstanding request at the head. */
  lemma ActHead(s: State, a: Action)
    requires Sequential(s) && HeadSent(s) && (a.ActSend? ==> a.id == 0)
    ensures var t := Act(s, a); HeadSent(t) && SameRequest(t.requests[0], s.requests[0])
  {
    hide DropAll, MarkAll, IsResponse, OpcodeToExpected;
    match a {
      case ActSend(_, _, _) =>
      case ActCancel(_) =>
      case ActCancelAll =>
        hide CancelQueue;
        CancelQueueAtMostOne(s.requests);
    }
  }

  lemma {:induction false} ActsHead(s: State, held: set<nat>, acts: seq<Action>)
    requires Ledger(s, held) && Sequential(s) && HeadSent(s) && forall a :: a in acts && a.ActSend? ==> a.id == 0
    ensures var t := Acts(s, acts); HeadSent(t) && SameRequest(t.requests[0], s.requests[0])
    decreases |acts|
  {
    hide Ledger, Sequential, Act;
    if acts != [] {
      assert acts[0] in acts;
      ActHead(s, acts[0]);
      ActKeeps(s, held, acts[0]);
      ActsHead(Act(s, acts[0]), held, acts[1..]);
    }
  }

  lemma AnswerCalls(s: State, opcode: nat, ecode: nat, acts: seq<Action>)
    requires s.requests != []
    ensures var t, c := Answer(s, opcode, ecode, acts), s.requests[0];
      Extends(s, t) && Calls(New(s, t)) == if c.func then [Called(c.serial, ResultStatus(c, opcode, ecode))] else []
  {
    hide Finish, ResultStatus, Calls;
    var c := s.requests[0];
    var v := s.(timeoutWatch := false, requests := s.requests[1..]);
    var x := if v.requests != [] || v.responses != [] then WakeUp(v) else v;
    FinishCalls(x, c, ResultStatus(c, opcode, ecode), acts);
  }

  /** A PDU that answers nothing calls no request back. */
  lemma QuietReceived(s: State, e: Event)
    requires e.EvReceived? && !Answering(s, e)
    ensures Extends(s, Step(s, e)) && Calls(New(s, Step(s, e))) == []
  {
    hide Acts, Calls;
    if s.stale || e.hup || !e.rdOk {
      Appended(s, Step(s, e), []);
      CallsNone();
    } else {
      ActsCall(s, e.events);
    }
  }

  /** The outstanding request has its callback when the answer comes exactly if it had one and was not cancelled. */
  lemma StillWanted(s: State, events: seq<Action>)
    requires Ledger(s, {}) && Sequential(s) && HeadSent(s) && forall a :: a in events && a.ActSend? ==> a.id == 0
    ensures var u, c := Acts(s, events), s.requests[0];
      HeadSent(u) && (u.requests[0].func <==> c.func && Cancelled(c.serial) !in u.log)
  {
    hide Acts, Sequential, Spares;
    var u, c := Acts(s, events), s.requests[0];
    ActsHead(s, {}, events);
    ActsKeep(s, {}, events);
    ActsSpare(s, events);
    assert c in s.requests && u.requests[0] in u.requests;
    SparedOne(s, u, c);
    assert CmdOk(u.requests[0], u.log);
    if c.func && Cancelled(c.serial) !in u.log {
      var d :| d in u.requests && d.serial == c.serial && d.func == c.func;
      SameSerial(u, {}, d, u.requests[0]);
    }
  }

  lemma SentAsks(s: State)
    requires Sequential(s) && AllMatched(s) && HeadSent(s)
    ensures s.requests[0].expected == s.requests[0].opcode + 1 > 1
  {
    assert s.requests[0] in s.requests;
  }

  /**
   With a polite peer a response is handed to the outstanding request and to no other. If this has its callback,
   and no event handler cancels it, it is told the error code of an Error Response, success by the opcode behind
   its own, and an I/O error by any other response. Nothing else calls anybody back.
   */
  lemma AnswersOutstanding(s: State, e: Event)
    requires Inv(s) && AllMatched(s) && Allowed(e) && Polite(s, e) && e.EvReceived?
    ensures var t := Step(s, e);
      && Extends(s, t)
      && (!Answering(s, e) ==> Calls(New(s, t)) == [])
      && (Answering(s, e) ==>
           var c := s.requests[0];
           var told := if e.opcode == 0x01 then e.ecode else if e.opcode == c.opcode + 1 then 0 else 0x80;
           Calls(New(s, t)) ==
             if c.func && Cancelled(c.serial) !in Acts(s, e.events).log then [Called(c.serial, told)] else [])
  {
    hide Ledger, Acts, Answer, Calls, IsResponse, Asks;
    var u, t := Acts(s, e.events), Step(s, e);
    if !Answering(s, e) {
      QuietReceived(s, e);
    } else {
      hide Sequential;
      ActsHead(s, {}, e.events);
      ActsCall(s, e.events);
      StillWanted(s, e.events);
      AnswerCalls(u, e.opcode, e.ecode, e.acts);
      NewSplit(s, u, t);
      SentAsks(s);
    }
  }

  /** Every success that was reported is one of a request that had been written. */
  ghost predicate Answered(log: seq<Effect>) {
    forall j :: 0 <= j < |log| && log[j].Called? && log[j].status == 0 ==> Wrote(log[j].serial) in log[..j]
  }

  lemma AnsweredGrows(s: State, t: State)
    requires Answered(s.log) && Extends(s, t)
    requires forall e :: e in Calls(New(s, t)) && e.Called? && e.status == 0 ==> Wrote(e.serial) in s.log
    ensures Answered(t.log)
  {
    CallsAre(New(s, t));
    forall j | 0 <= j < |t.log| && t.log[j].Called? && t.log[j].status == 0
      ensures Wrote(t.log[j].serial) in t.log[..j]
    {
      if j < |s.log| {
        assert t.log[j] == s.log[j] && t.log[..j] == s.log[..j];
      } else {
        assert New(s, t)[j - |s.log|] == t.log[j];
        var i :| 0 <= i < |s.log| && s.log[i] == Wrote(t.log[j].serial);
        assert t.log[..j][i] == s.log[i];
      }
    }
  }

  lemma TimeoutNoSuccess(s: State, scripts: seq<seq<Action>>)
    ensures var t := Timeout(s, scripts);
      Extends(s, t) && Stems(s, t) && forall e :: e in Calls(New(s, t)) && e.Called? ==> e.status != 0
  {
    hide AbortAll, Calls;
    var m, t := AbortAll(s, ATT_ECODE_TIMEOUT, scripts), Timeout(s, scripts);
    AbortCalls(s, ATT_ECODE_TIMEOUT, scripts);
    AbortAllStems(s, ATT_ECODE_TIMEOUT, scripts);
    assert New(s, t) == New(s, m);
    StemsSub(m, t);
    StemsTrans(s, m, t);
  }

  lemma SentHead(s: State)
    requires SentWritten(s) && HeadSent(s)
    ensures Wrote(s.requests[0].serial) in s.log
  {
    assert s.requests[0] in s.requests;
  }

  lemma ActAnswers(s: State, a: Action)
    requires Inv(s) && SentWritten(s) && Answered(s.log)
    ensures SentWritten(Act(s, a)) && Answered(Act(s, a).log)
  {
    hide Ledger, Sequential, Act, Calls, Stems, SentWritten, Answered;
    ActCalls(s, a);
    ActStems(s, a);
    StemsWritten(s, Act(s, a));
    AnsweredGrows(s, Act(s, a));
  }

  lemma ReceivedAnswers(s: State, e: Event)
    requires Inv(s) && AllMatched(s) && SentWritten(s) && Answered(s.log) && e.EvReceived? && Allowed(e)
    requires Polite(s, e)
    ensures SentWritten(Step(s, e)) && Answered(Step(s, e).log)
  {
    hide Ledger, Sequential, Received, AllMatched, Calls, Stems, SentWritten, Answered;
    AnswersOutstanding(s, e);
    ReceivedStems(s, e.hup, e.rdOk, e.opcode, e.ecode, e.events, e.acts);
    StemsWritten(s, Step(s, e));
    if HeadSent(s) {
      SentHead(s);
    }
    AnsweredGrows(s, Step(s, e));
  }

  lemma TimeoutAnswers(s: State, scripts: seq<seq<Action>>)
    requires Inv(s) && SentWritten(s) && Answered(s.log)
    ensures SentWritten(Timeout(s, scripts)) && Answered(Timeout(s, scripts).log)
  {
    hide Ledger, Sequential, Timeout, Calls, Stems, SentWritten, Answered;
    TimeoutNoSuccess(s, scripts);
    StemsWritten(s, Timeout(s, scripts));
    AnsweredGrows(s, Timeout(s, scripts));
  }

  lemma StepAnswers(s: State, e: Event)
    requires Inv(s) && AllMatched(s) && SentWritten(s) && Answered(s.log) && Allowed(e) && Polite(s, e)
    ensures SentWritten(Step(s, e)) && Answered(Step(s, e).log)
  {
    hide Ledger, Sequential, Act, CanWrite, Received, Timeout, Calls, SentWritten, Answered;
    match e {
      case EvAct(a) => ActAnswers(s, a);
      case EvCanWrite(hup, ioOk) =>
        if s.writeWatch {
          CanWriteWritten(s, hup, ioOk);
          AnsweredGrows(s, CanWrite(s, hup, ioOk));
        }
      case EvReceived(_, _, _, _, _, _) => ReceivedAnswers(s, e);
      case EvTimeout(scripts) =>
        if s.timeoutWatch && !s.stale { TimeoutAnswers(s, scripts); }
    }
  }

  lemma {:induction false} RunAnswers(s: State, es: seq<Event>)
    requires Inv(s) && AllMatched(s) && SentWritten(s) && Answered(s.log) && PoliteRun(s, es)
    requires forall e :: e in es ==> Allowed(e)
    ensures Answered(Run(s, es).log)
    decreases |es|
  {
    hide Inv, AllMatched, SentWritten, Answered, Step, Polite, Allowed;
    if es != [] {
      assert es[0] in es;
      StepMatched(s, es[0]);
      StepKeeps(s, es[0]);
      StepAnswers(s, es[0]);
      RunAnswers(Step(s, es[0]), es[1..]);
    }
  }

  /**
   Over every run with a peer that answers only what is outstanding: no request is told of a success before it
   was written.
   */
  lemma AnswersWereAsked(es: seq<Event>)
    requires PoliteRun(INIT, es) && forall e :: e in es ==> Allowed(e)
    ensures Answered(Run(INIT, es).log)
  {
    hide Run, PoliteRun, Allowed;
    InitInv();
    RunAnswers(INIT, es);
  }

  lemma EarlyStep(s: State, c: Cmd, e: Event)
    requires s.requests == [c] && s.log == [] && !s.stale && c.func && c.serial == 0 && c.expected == ATT_OP_READ_RESP
    requires e == EvReceived(false, true, ATT_OP_READ_RESP, 0, [], [])
    ensures Step(s, e).log == [Called(0, 0), Destroyed(0)]
  {
    var u := s.(timeoutWatch := false);
    assert Acts(s, []) == s;
    assert Acts(u.(requests := [], log := [Called(0, 0)]), []).log == [Called(0, 0)];
  }

  /** A response that comes before its request was written is taken for its answer all the same. */
  lemma EarlyAnswerTaken()
    ensures var t := Run(INIT, [EvAct(ActSend(0, ATT_OP_READ_REQ, true)),
                                EvReceived(false, true, ATT_OP_READ_RESP, 0, [], [])]);
      Called(0, 0) in t.log && Wrote(0) !in t.log
  {
    var a := EvAct(ActSend(0, ATT_OP_READ_REQ, true));
    var b := EvReceived(false, true, ATT_OP_READ_RESP, 0, [], []);
    var c := Cmd(0, 1, ATT_OP_READ_REQ, ATT_OP_READ_RESP, false, true);
    var s := INIT.(requests := [c], nextId := 1, nextSerial := 1, writeWatch := true);
    assert Step(INIT, a) == s by {
      assert [] + [c] == [c];
    }
    EarlyStep(s, c, b);
    hide Step;
    assert [a, b][1..] == [b] && [b][1..] == [];
    assert Run(INIT, [a, b]) == Run(s, [b]) == Run(Step(s, b), []) == Step(s, b);
  }
}

/** A long read that ends has reported to its user exactly once, unless it was cancelled. */
module LongReadReport {
  import opened AttCodes
  import opened AttribEffects
  import opened AttribIds
  import opened AttribSpec
  import opened AttribSafety
  import opened LongReadAtomic

  /** Some command of the read was cancelled. */
  ghost predicate WasCancelled(s: State, r: LongRead) {
    exists k :: k in r.mine && Cancelled(k) in s.log
  }

  /** A queued command of the read without its callback was cancelled. */
  ghost predicate Muted(s: State, r: LongRead) {
    forall c :: c in s.requests && Mine(r, c) && !c.func ==> Cancelled(c.serial) in s.log
  }

  /** A read without commands has reported, or was cancelled. */
  ghost predicate Settled(s: State, r: LongRead) {
    Muted(s, r) && (Active(s, r) || r.delivered == 1 || WasCancelled(s, r))
  }

  /** What other code does to the read's commands: keep them, or cancel them. */
  ghost predicate SparesOwn(s: State, t: State, r: LongRead) {
    Extends(s, t) && forall c :: c in s.requests && Mine(r, c) ==> StaysOrCancelled(c, t)
  }

  lemma OwnSpared(s: State, t: State, r: LongRead)
    requires Spares(s, t)
    ensures SparesOwn(s, t, r)
  {
  }

  lemma SparesOwnTrans(s: State, t: State, u: State, r: LongRead)
    requires SparesOwn(s, t, r) && SparesOwn(t, u, r)
    ensures SparesOwn(s, u, r)
  {
    NewSplit(s, t, u);
    forall c | c in s.requests && Mine(r, c)
      ensures StaysOrCancelled(c, u)
    {
      assert StaysOrCancelled(c, t);
      if Cancelled(c.serial) in t.log {
        LogStays(t, u, Cancelled(c.serial));
      } else {
        var d :| d in t.requests && d.serial == c.serial && d.func == c.func;
        assert StaysOrCancelled(d, u);
      }
    }
  }

  /** Writing pops only commands that expect no answer, so none of the read's. */
  lemma CanWriteSpares(s: State, hup: bool, ioOk: bool, r: LongRead)
    requires Own(s, r)
    ensures SparesOwn(s, CanWrite(s, hup, ioOk), r)
  {
    hide OnlyOne;
    var t := CanWrite(s, hup, ioOk);
    forall c | c in s.requests && Mine(r, c)
      ensures StaysOrCancelled(c, t)
    {
      var j :| 0 <= j < |s.requests| && s.requests[j] == c;
      if |t.requests| == |s.requests| {
        assert t.requests[j].serial == c.serial && t.requests[j].func == c.func;
      } else {
        assert j > 0 && t.requests[j - 1] == c;
      }
    }
  }

  lemma SameCommand(t: State, r: LongRead, c: Cmd, e: Cmd)
    requires Own(t, r) && c in t.requests && e in t.requests && Mine(r, c) && e.serial == c.serial
    ensures c == e
  {
    var i :| 0 <= i < |t.requests| && t.requests[i] == c;
    var j :| 0 <= j < |t.requests| && t.requests[j] == e;
  }

  lemma SparedMuted(s: State, t: State, r: LongRead)
    requires SparesOwn(s, t, r) && Respects(s, t, r) && Muted(s, r)
    ensures Muted(t, r)
  {
    forall c | c in t.requests && Mine(r, c) && !c.func
      ensures Cancelled(c.serial) in t.log
    {
      var d :| d in s.requests && d.serial == c.serial;
      assert StaysOrCancelled(d, t);
      if d.func && Cancelled(d.serial) !in t.log {
        var e :| e in t.requests && e.serial == d.serial && e.func;
        SameCommand(t, r, c, e);
      }
    }
  }

  /** Sparing the read keeps its muted commands cancelled, and settles a read whose command went. */
  lemma SparedSettles(s: State, t: State, r: LongRead, q: LongRead)
    requires SparesOwn(s, t, r) && Respects(s, t, r) && Settled(s, r)
    requires q.mine == r.mine && q.delivered == r.delivered
    ensures Settled(t, q)
  {
    SparedMuted(s, t, r);
    if WasCancelled(s, r) {
      var k :| k in r.mine && Cancelled(k) in s.log;
      assert Cancelled(k) in t.log;
    } else if Active(s, r) {
      var c :| c in s.requests && Mine(r, c);
      assert StaysOrCancelled(c, t);
    }
  }

  // ----- events -----

  lemma NotYetCalled(s: State, c: Cmd)
    requires Ledger(s, {}) && c in s.requests
    ensures NotCalled(s.log, c.serial)
  {
  }

  lemma CalledNow(s: State, t: State, k: nat)
    requires Extends(s, t)
    ensures CalledIn(New(s, t), k) ==> !NotCalled(t.log, k)
  {
    assert t.log == s.log + New(s, t);
  }

  lemma TimeoutSettles(w: World, scripts: seq<seq<Action>>)
    requires WInv(w) && Settled(w.s, w.r) && w.s.timeoutWatch && !w.s.stale && WAllowed(w.r, WTimeout(scripts))
    ensures var t := WStep(w, WTimeout(scripts)); Settled(t.s, t.r)
  {
    hide Ledger, Sequential, AbortAll, Own, AtHead, Started, RefOk, NotCalled;
    var s, r, m := w.s, w.r, AbortAll(w.s, ATT_ECODE_TIMEOUT, scripts);
    var t := Timeout(s, scripts);
    TimeoutKeeps(s, scripts);
    AbortAllExtends(s, ATT_ECODE_TIMEOUT, scripts);
    if CalledBack(s, t, r) {
      TimeoutCalls(s, r, scripts);
    }
    if WasCancelled(s, r) {
      var k :| k in r.mine && Cancelled(k) in s.log;
      LogStays(s, m, Cancelled(k));
    } else if Active(s, r) {
      var c :| c in s.requests && Mine(r, c);
      assert c.func;
      AbortEach(s, ATT_ECODE_TIMEOUT, scripts, c);
      CalledNow(s, m, c.serial);
      NotYetCalled(s, c);
    }
  }

  lemma PopSpares(u: State, x: State, r: LongRead)
    requires u.requests != [] && !Mine(r, u.requests[0]) && x.requests == u.requests[1..] && x.log == u.log
    ensures SparesOwn(u, x, r)
  {
    forall c | c in u.requests && Mine(r, c)
      ensures StaysOrCancelled(c, x)
    {
      var i :| 0 <= i < |u.requests| && u.requests[i] == c;
      assert x.requests[i - 1] == c;
    }
  }

  /** A response to a command that is not the read's. */
  lemma OtherAnswerSpares(u: State, r: LongRead, opcode: nat, ecode: nat, acts: seq<Action>)
    requires u.requests != [] ==> !Mine(r, u.requests[0])
    ensures SparesOwn(u, Answer(u, opcode, ecode, acts), r)
  {
    hide Finish, ResultStatus, Spares, SparesOwn;
    var o := u.(timeoutWatch := false);
    SparesKept(u, o);
    OwnSpared(u, o, r);
    if u.requests != [] {
      var c := u.requests[0];
      var v := o.(requests := u.requests[1..]);
      var x := if v.requests != [] || v.responses != [] then WakeUp(v) else v;
      PopSpares(u, x, r);
      FinishSpares(x, c, ResultStatus(c, opcode, ecode), acts);
      OwnSpared(x, Answer(u, opcode, ecode, acts), r);
      SparesOwnTrans(u, x, Answer(u, opcode, ecode, acts), r);
    }
  }

  lemma EndSettles(u: State, t: State, r: LongRead, q: LongRead)
    requires u.requests != [] && Mine(r, u.requests[0]) && Muted(u, r) && Extends(u, t) && !Active(t, r)
    requires q.mine == r.mine
    requires u.requests[0].func ==> q.delivered == 1
    ensures Settled(t, q)
  {
    assert u.requests[0] in u.requests;
    if !u.requests[0].func {
      LogStays(u, t, Cancelled(u.requests[0].serial));
    }
  }

  /** A received PDU that answers no command of the read. */
  lemma QuietReceivedSpares(s: State, r: LongRead, e: WEvent)
    requires e.WReceived?
    requires var u := Acts(s, e.events); Answers(s, e) && u.requests != [] ==> !Mine(r, u.requests[0])
    ensures SparesOwn(s, Received(s, e.hup, e.rdOk, e.opcode, e.ecode, e.events, e.acts), r)
  {
    hide Answer, Acts, Spares, SparesOwn;
    var u, t := Acts(s, e.events), Received(s, e.hup, e.rdOk, e.opcode, e.ecode, e.events, e.acts);
    if s.stale || e.hup || !e.rdOk {
      SparesKept(s, t);
      OwnSpared(s, t, r);
    } else {
      ActsSpare(s, e.events);
      OwnSpared(s, u, r);
      if IsResponse(e.opcode) {
        OtherAnswerSpares(u, r, e.opcode, e.ecode, e.acts);
        SparesOwnTrans(s, u, t, r);
      }
    }
  }

  lemma HeadOnly(t: State, q: LongRead)
    requires Own(t, q) && t.requests != [] && Mine(q, t.requests[0]) && t.requests[0].func
    ensures Settled(t, q)
  {
    forall c | c in t.requests && Mine(q, c)
      ensures c == t.requests[0]
    {
      var i :| 0 <= i < |t.requests| && t.requests[i] == c;
    }
    assert t.requests[0] in t.requests;
  }

  /** After a continuation the read's only command is the new one, with its callback. */
  lemma ContinuesSettles(w: World, e: WEvent)
    requires WInv(w) && e.WReceived? && WAllowed(w.r, e) && Answers(w.s, e)
    requires var u := Acts(w.s, e.events); u.requests != [] && Continues(w.r, u.requests[0], e)
    ensures Settled(WStep(w, e).s, WStep(w, e).r)
  {
    hide Ledger, Sequential, Answer, Acts, Own, Respects, RefOk, Unref, Active, AtHead, Started, DeliveredOk;
    var s, r, u := w.s, w.r, Acts(w.s, e.events);
    IdPositive(s, r);
    PlainIsForeign(r.id, e.events);
    ActsKeep(s, {}, e.events);
    ActsRespect(s, {}, r, e.events);
    OwnOf(s, u, r);
    ContinuationState(u, r.id, e.opcode, e.ecode);
    WContinuesKeeps(w, e);
    HeadOnly(WStep(w, e).s, WStep(w, e).r);
  }

  lemma SettledMuted(s: State, r: LongRead)
    requires Settled(s, r)
    ensures Muted(s, r)
  {
  }

  lemma ReceivedSettles(w: World, e: WEvent)
    requires WInv(w) && Settled(w.s, w.r) && e.WReceived? && WAllowed(w.r, e)
    ensures Settled(WStep(w, e).s, WStep(w, e).r)
  {
    hide Ledger, Sequential, Answer, Acts, Own, AtHead, Started, RefOk, DeliveredOk, Respects, Active, Settled, Muted;
    hide Spares, SparesOwn, Extends;
    var s, r, u := w.s, w.r, Acts(w.s, e.events);
    IdPositive(s, r);
    PlainIsForeign(r.id, e.events);
    ActsRespect(s, {}, r, e.events);
    ActsSpare(s, e.events);
    OwnSpared(s, u, r);
    SparedSettles(s, u, r, r);
    SettledMuted(u, r);
    if Answers(s, e) && u.requests != [] && Mine(r, u.requests[0]) {
      if Continues(r, u.requests[0], e) {
        ContinuesSettles(w, e);
      } else {
        ReceivedRespects(s, r, e);
        AnswerExtends(u, e.opcode, e.ecode, e.acts);
        if u.requests[0].func { DeliveredNotYet(s, u, r); }
        EndSettles(u, WStep(w, e).s, r, WStep(w, e).r);
      }
    } else {
      QuietReceivedSpares(s, r, e);
      ReceivedRespects(s, r, e);
      SparedSettles(s, WStep(w, e).s, r, WStep(w, e).r);
    }
  }

  lemma StepSettles(w: World, e: WEvent)
    requires WInv(w) && Settled(w.s, w.r) && WAllowed(w.r, e)
    ensures Settled(WStep(w, e).s, WStep(w, e).r)
  {
    hide Ledger, Act, Acts, CanWrite, Received, Timeout, Own, AtHead, Started, Respects, Settled, Spares, SparesOwn;
    hide RefOk, DeliveredOk;
    var s, r, t := w.s, w.r, WStep(w, e);
    match e {
      case WAct(a) =>
        IdPositive(s, r);
        ActRespects(s, r, a);
        ActSpares(s, a);
        OwnSpared(s, t.s, r);
        SparedSettles(s, t.s, r, t.r);
      case WCanWrite(hup, ioOk) =>
        if s.writeWatch {
          CanWriteRespects(s, r, hup, ioOk);
          CanWriteSpares(s, hup, ioOk, r);
        } else {
          ReflRespects(s, r);
          SparesKept(s, s);
          OwnSpared(s, s, r);
        }
        SparedSettles(s, t.s, r, t.r);
      case WReceived(_, _, _, _, _, _, _) =>
        ReceivedSettles(w, e);
      case WTimeout(scripts) =>
        if s.timeoutWatch && !s.stale { TimeoutSettles(w, scripts); }
    }
  }

  lemma {:induction false} RunSettles(w: World, es: seq<WEvent>)
    requires WInv(w) && Settled(w.s, w.r) && AllAllowed(w.r, es)
    ensures Settled(WRun(w, es).s, WRun(w, es).r)
    decreases |es|
  {
    hide WInv, WStep, WAllowed, AllAllowed, Settled;
    if es != [] {
      SameId(w, es[0]);
      SameAllowed(w.r, WStep(w, es[0]).r, es);
      WStepKeeps(w, es[0]);
      StepSettles(w, es[0]);
      RunSettles(WStep(w, es[0]), es[1..]);
    }
  }

  lemma StartSettled(s: State)
    requires Inv(s) && !s.stale && WInv(Start(s)) && Active(Start(s).s, Start(s).r)
    ensures Settled(Start(s).s, Start(s).r)
  {
    hide Ledger, Own, AtHead, Started, RefOk, DeliveredOk;
    var w := Start(s);
    FreshSerial(s);
    assert forall c :: c in w.s.requests && Mine(w.r, c) ==> c.func;
  }

  /**
   Over every run: a read whose last command is gone has reported exactly once, or one of its commands was
   cancelled.
   */
  lemma ReportsExactlyOnce(s: State, es: seq<WEvent>)
    requires Inv(s) && !s.stale && AllAllowed(Start(s).r, es)
    requires forall c :: c in s.requests || c in s.responses ==> c.id != s.nextId + 1
    ensures var w := WRun(Start(s), es);
      !Active(w.s, w.r) ==> w.r.delivered == 1 || WasCancelled(w.s, w.r)
  {
    hide Start, WRun, WInv, Inv, Own;
    StartInv(s);
    StartSettled(s);
    RunSettles(Start(s), es);
  }

  /** A transport that has run, and reused only ids that were returned to it, can start a read. */
  lemma StartsAnywhere(before: seq<Event>)
    requires ReturnedRun(INIT, before) && (forall e :: e in before ==> Allowed(e)) && !Run(INIT, before).stale
    ensures var s := Run(INIT, before);
      Inv(s) && WInv(Start(s)) && Settled(Start(s).s, Start(s).r) && Active(Start(s).s, Start(s).r)
  {
    hide Run, ReturnedRun, Inv, WInv, Settled, Start, Active;
    InitInv();
    RunKeeps(INIT, before);
    NextIdIsNew(before);
    StartInv(Run(INIT, before));
    StartSettled(Run(INIT, before));
  }

  /**
   A read started in any state that such a transport reaches, over every run from there: one reference
   while it has a command queued, freed once after it, and then told exactly once or cancelled.
   */
  lemma EveryReadEverywhere(before: seq<Event>, es: seq<WEvent>)
    requires ReturnedRun(INIT, before) && (forall e :: e in before ==> Allowed(e)) && !Run(INIT, before).stale
    requires AllAllowed(Start(Run(INIT, before)).r, es)
    ensures var w := WRun(Start(Run(INIT, before)), es);
      && (if Active(w.s, w.r) then w.r.ref == 1 && w.r.freed == 0 else w.r.ref == 0 && w.r.freed == 1)
      && w.r.delivered <= 1 && OnlyOne(w.s.requests, w.r)
      && (Active(w.s, w.r) && LongReadAtomic.Started(w.s, w.r) ==> Mine(w.r, w.s.requests[0]))
      && (!Active(w.s, w.r) ==> w.r.delivered == 1 || WasCancelled(w.s, w.r))
  {
    hide Run, ReturnedRun, Inv, Own, Active, OnlyOne, Start, WRun;
    StartsAnywhere(before);
    var w := Start(Run(INIT, before));
    WRunKeeps(w, es);
    RunSettles(w, es);
    OwnOnlyOne(WRun(w, es));
  }
}

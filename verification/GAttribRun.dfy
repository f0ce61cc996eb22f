/** The transport object over whole runs of calls and main-loop events. */
module GAttribRun {
  import opened AttribSpec
  import opened AttribSafety
  import opened GAttrib

  /** One call or event; the watches fire only while they are armed. */
  method Dispatch(g: GAttrib, e: Event, hasEvents: bool)
    requires g.Valid()
    modifies g, g.cmds
    ensures g.Valid() && g.Abs() == Step(old(g.Abs()), e)
    ensures fresh(g.cmds - old(g.cmds)) && old(g.cmds) <= g.cmds
  {
    hide GAttrib.Valid, Vals, Act, CanWrite, Received, Timeout;
    match e {
      case EvAct(a) =>
        g.Perform(a);
      case EvCanWrite(hup, ioOk) =>
        if g.writeWatch {
          g.WriteWatchFires(hup, ioOk);
        }
      case EvReceived(hup, rdOk, opcode, ecode, events, acts) =>
        var _ := g.ReceivedData(hup, rdOk, opcode, ecode, hasEvents, events, acts);
      case EvTimeout(scripts) =>
        if g.timeoutWatch && !g.stale {
          g.DisconnectTimeout(scripts);
        }
    }
  }

  lemma {:induction false} RunSnoc(s: State, es: seq<Event>, e: Event)
    ensures Run(s, es + [e]) == Step(Run(s, es), e)
    decreases |es|
  {
    hide Step;
    if es == [] {
      assert (es + [e])[0] == e && (es + [e])[1..] == [];
      assert Run(Step(s, e), []) == Step(s, e);
    } else {
      assert (es + [e])[0] == es[0] && (es + [e])[1..] == es[1..] + [e];
      RunSnoc(Step(s, es[0]), es[1..], e);
    }
  }

  ghost predicate In(q: seq<Command>, k: nat) {
    exists i :: 0 <= i < |q| && q[i].serial == k
  }

  /** What the invariants over all runs say of the object. */
  ghost predicate Sound(g: GAttrib, es: seq<Event>)
    reads g, g.requests, g.responses
  {
    && (forall i :: 0 <= i < |g.responses| ==> !g.responses[i].sent)
    && (forall i :: 0 < i < |g.requests| ==> !g.requests[i].sent)
    && (!g.stale ==> (g.timeoutWatch <==> g.requests != [] && g.requests[0].sent))
    && (NoneLost(INIT, es) && !g.stale && (g.responses != [] || (g.requests != [] && !g.requests[0].sent)) ==>
       g.writeWatch)
    && LogOk(g.log)
    && (forall k :: 0 <= k < g.nextSerial ==>
          (Destroyed(k) !in g.log <==> In(g.requests, k) || In(g.responses, k)))
  }

  lemma InVals(q: seq<Command>, k: nat)
    ensures In(q, k) <==> exists c :: c in Vals(q) && c.serial == k
  {
    if i :| 0 <= i < |q| && q[i].serial == k {
      assert Vals(q)[i] in Vals(q);
    }
    if c :| c in Vals(q) && c.serial == k {
      var i :| 0 <= i < |q| && Vals(q)[i] == c;
      assert q[i].serial == k;
    }
  }

  lemma ObjectSound(g: GAttrib, es: seq<Event>)
    requires g.Abs() == Run(INIT, es) && forall e :: e in es ==> Allowed(e)
    ensures Sound(g, es)
  {
    hide Run, Ledger, NoneLost;
    InitInv();
    RunKeeps(INIT, es);
    AwakeExactly(INIT, es);
    var s := g.Abs();
    forall i | 0 <= i < |g.responses|
      ensures !g.responses[i].sent
    {
      assert s.responses[i] in s.responses;
    }
    forall i | 0 < i < |g.requests|
      ensures !g.requests[i].sent
    {
      assert !s.requests[i].sent;
    }
    Conserved(es, 0);
    forall k | 0 <= k < g.nextSerial
      ensures Destroyed(k) !in g.log <==> In(g.requests, k) || In(g.responses, k)
    {
      Conserved(es, k);
      InVals(g.requests, k);
      InVals(g.responses, k);
    }
  }

  lemma RunNil()
    ensures Run(INIT, []) == INIT
  {
  }

  /**
   A new object driven through any events: it ends in the state of the model, no command but the head
   request is outstanding and the timer runs exactly for it, work waits only for an armed watch unless
   a wake-up was lost, and what was accepted is queued or destroyed.
   */
  method Drive(es: seq<Event>, hasEvents: nat -> bool) returns (g: GAttrib)
    requires forall e :: e in es ==> Allowed(e)
    ensures fresh(g) && g.Valid() && g.Abs() == Run(INIT, es) && Sound(g, es)
  {
    hide GAttrib.Valid, Vals, Step, Sound, Run;
    g := new GAttrib();
    RunNil();
    for i := 0 to |es|
      invariant fresh(g) && fresh(g.cmds) && g.Valid() && g.Abs() == Run(INIT, es[..i])
    {
      assert es[..i + 1] == es[..i] + [es[i]];
      RunSnoc(INIT, es[..i], es[i]);
      Dispatch(g, es[i], hasEvents(i));
    }
    assert es[..|es|] == es;
    ObjectSound(g, es);
  }
}

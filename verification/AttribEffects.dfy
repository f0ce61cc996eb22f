/**
 What the calls and events of the transport add to its effects, and what a timeout tells whom, whatever
 callbacks do.
 */
module AttribEffects {
  import opened AttCodes
  import opened AttribSpec
  import opened AttribSafety

  // ----- the log only grows -----

  /** Everything that had happened has happened. */
  ghost predicate Extends(s: State, t: State) {
    s.log <= t.log
  }

  /** The effects between two states. */
  ghost function New(s: State, t: State): seq<Effect>
    requires Extends(s, t)
  {
    t.log[|s.log|..]
  }

  /** The callbacks among some effects, in order. */
  function Calls(es: seq<Effect>): seq<Effect> {
    if es == [] then [] else (if es[0].Called? then [es[0]] else []) + Calls(es[1..])
  }

  lemma {:induction false} CallsConcat(a: seq<Effect>, b: seq<Effect>)
    ensures Calls(a + b) == Calls(a) + Calls(b)
  {
    if a == [] {
      assert a + b == b;
    } else {
      assert (a + b)[1..] == a[1..] + b;
      CallsConcat(a[1..], b);
      var h := if a[0].Called? then [a[0]] else [];
      assert Calls(a + b) == h + Calls(a[1..] + b);
      assert Calls(a) == h + Calls(a[1..]);
      assert h + (Calls(a[1..]) + Calls(b)) == (h + Calls(a[1..])) + Calls(b);
    }
  }

  lemma {:induction false} CallsAre(es: seq<Effect>)
    ensures forall e :: e in Calls(es) <==> e in es && e.Called?
  {
    if es != [] {
      CallsAre(es[1..]);
      assert es == [es[0]] + es[1..];
    }
  }

  lemma NewSplit(s: State, t: State, u: State)
    requires Extends(s, t) && Extends(t, u)
    ensures Extends(s, u) && New(s, u) == New(s, t) + New(t, u)
    ensures Calls(New(s, u)) == Calls(New(s, t)) + Calls(New(t, u))
  {
    CallsConcat(New(s, t), New(t, u));
  }

  lemma LogStays(s: State, t: State, x: Effect)
    requires Extends(s, t) && x in s.log
    ensures x in t.log
  {
    var i :| 0 <= i < |s.log| && s.log[i] == x;
    assert t.log[i] == x;
  }

  lemma Appended(s: State, t: State, es: seq<Effect>)
    requires t.log == s.log + es
    ensures Extends(s, t) && New(s, t) == es
  {
  }

  /** Who is not called stays uncalled. */
  lemma NotCalledStays(s: State, t: State, k: nat)
    requires Extends(s, t) && NotCalled(s.log, k) && forall e :: e in Calls(New(s, t)) ==> e.serial != k
    ensures NotCalled(t.log, k)
  {
    CallsAre(New(s, t));
    assert t.log == s.log + New(s, t);
  }

  lemma {:induction false} DropsCallNobody(q: seq<Cmd>)
    ensures Calls(DropAll(q)) == [] && Calls(MarkAll(q)) == []
  {
    if q != [] {
      DropsCallNobody(q[1..]);
      CallsConcat([Cancelled(q[0].serial), Destroyed(q[0].serial)], DropAll(q[1..]));
      CallsConcat([Cancelled(q[0].serial)], MarkAll(q[1..]));
      assert [Cancelled(q[0].serial), Destroyed(q[0].serial)][1..] == [Destroyed(q[0].serial)];
    }
  }

  lemma CancelQueueCallsNobody(q: seq<Cmd>)
    ensures Calls(CancelQueue(q).1) == []
  {
    hide DropAll, MarkAll, LeadSent, Calls;
    var n := LeadSent(q);
    DropsCallNobody(q[..n]);
    DropsCallNobody(q[n..]);
    CallsConcat(MarkAll(q[..n]), DropAll(q[n..]));
  }

  lemma CancelAtCallsNobody(q: seq<Cmd>, i: nat)
    requires i < |q|
    ensures Calls(CancelAt(q, i).1) == []
  {
    var c, d := Cancelled(q[i].serial), Destroyed(q[i].serial);
    assert [c][1..] == [] && [c, d][1..] == [d] && [d][1..] == [];
    assert Calls([d]) == [] && Calls([c]) == [] && Calls([c, d]) == Calls([d]);
  }

  /** Sends and cancels call nobody back. */
  lemma ActCalls(s: State, a: Action)
    ensures Extends(s, Act(s, a)) && Calls(New(s, Act(s, a))) == []
  {
    hide CancelQueue, FindId, CancelAt;
    var t := Act(s, a);
    match a {
      case ActSend(_, _, _) => Appended(s, t, []);
      case ActCancel(id) =>
        var i, j := FindId(s.requests, id), FindId(s.responses, id);
        if i < |s.requests| {
          CancelAtCallsNobody(s.requests, i);
          Appended(s, t, CancelAt(s.requests, i).1);
        } else if j < |s.responses| {
          CancelAtCallsNobody(s.responses, j);
          Appended(s, t, CancelAt(s.responses, j).1);
        } else {
          Appended(s, t, []);
        }
      case ActCancelAll =>
        var es, fs := CancelQueue(s.requests).1, CancelQueue(s.responses).1;
        CancelQueueCallsNobody(s.requests);
        CancelQueueCallsNobody(s.responses);
        CallsConcat(es, fs);
        assert s.log + es + fs == s.log + (es + fs);
        Appended(s, t, es + fs);
    }
  }

  lemma CallsNone()
    ensures Calls([]) == []
  {
  }

  lemma {:induction false} ActsCall(s: State, acts: seq<Action>)
    ensures Extends(s, Acts(s, acts)) && Calls(New(s, Acts(s, acts))) == []
    decreases |acts|
  {
    hide Act, Calls, New, Extends;
    if acts == [] {
      Appended(s, s, []);
      CallsNone();
    } else {
      var t := Act(s, acts[0]);
      ActCalls(s, acts[0]);
      ActsCall(t, acts[1..]);
      NewSplit(s, t, Acts(s, acts));
    }
  }

  lemma CallsOne(e: Effect)
    ensures Calls([e]) == if e.Called? then [e] else []
  {
    assert [e][1..] == [];
  }

  /** Finishing a command calls it back first, if it has its callback, and nobody else. */
  lemma FinishCalls(s: State, c: Cmd, status: nat, acts: seq<Action>)
    ensures var t := Finish(s, c, status, acts);
      Extends(s, t) && Calls(New(s, t)) == (if c.func then [Called(c.serial, status)] else [])
      && (c.func ==> New(s, t) != [] && New(s, t)[0] == Called(c.serial, status))
  {
    hide Acts, Calls;
    var t := Finish(s, c, status, acts);
    var d := Destroyed(c.serial);
    CallsOne(d);
    if c.func {
      var e := Called(c.serial, status);
      var u := s.(log := s.log + [e]);
      var v := Acts(u, acts);
      CallsOne(e);
      ActsCall(u, acts);
      Appended(s, u, [e]);
      Appended(v, t, [d]);
      NewSplit(s, u, v);
      NewSplit(s, v, t);
    } else {
      Appended(s, t, [d]);
    }
  }

  lemma AnswerExtends(s: State, opcode: nat, ecode: nat, acts: seq<Action>)
    ensures Extends(s, Answer(s, opcode, ecode, acts))
  {
    hide Finish, ResultStatus;
    if s.requests != [] {
      var v := s.(timeoutWatch := false, requests := s.requests[1..]);
      var x := if v.requests != [] || v.responses != [] then WakeUp(v) else v;
      FinishCalls(x, s.requests[0], ResultStatus(s.requests[0], opcode, ecode), acts);
    }
  }

  lemma ReceivedExtends(s: State, hup: bool, rdOk: bool, opcode: nat, ecode: nat, events: seq<Action>,
                        acts: seq<Action>)
    ensures Extends(s, Received(s, hup, rdOk, opcode, ecode, events, acts))
  {
    hide Acts, Answer;
    ActsCall(s, events);
    AnswerExtends(Acts(s, events), opcode, ecode, acts);
    NewSplit(s, Acts(s, events), Answer(Acts(s, events), opcode, ecode, acts));
  }

  /** One turn of the abort loop: the state after the head was finished, and the scripts that are left. */
  ghost function AbortTurn(s: State, status: nat, scripts: seq<seq<Action>>): (State, seq<seq<Action>>)
    requires s.requests != []
  {
    var c, t := s.requests[0], s.(requests := s.requests[1..]);
    if c.func && scripts != [] then (Finish(t, c, status, scripts[0]), scripts[1..])
    else (Finish(t, c, status, []), scripts)
  }

  lemma TurnCalls(s: State, status: nat, scripts: seq<seq<Action>>)
    requires s.requests != []
    ensures var c, u := s.requests[0], AbortTurn(s, status, scripts).0;
      Extends(s, u) && Calls(New(s, u)) == (if c.func then [Called(c.serial, status)] else [])
      && (c.func ==> New(s, u) != [] && New(s, u)[0] == Called(c.serial, status))
  {
    hide Finish, Calls;
    var c, t := s.requests[0], s.(requests := s.requests[1..]);
    FinishCalls(t, c, status, if c.func && scripts != [] then scripts[0] else []);
  }

  lemma TurnDecreases(s: State, status: nat, scripts: seq<seq<Action>>)
    requires s.requests != []
    ensures var (u, rest) := AbortTurn(s, status, scripts);
      && AbortAll(s, status, scripts) == AbortAll(u, ATT_ECODE_ABORTED, rest)
      && (|rest| < |scripts| || (|rest| == |scripts| && |u.requests| < |s.requests|))
  {
    hide Finish;
    QuietFinish(s.(requests := s.requests[1..]), s.requests[0], status);
  }

  lemma FirstNew(s: State, u: State, t: State)
    requires Extends(s, u) && Extends(u, t)
    ensures Extends(s, t) && (New(s, u) != [] ==> New(s, t) != [] && New(s, t)[0] == New(s, u)[0])
  {
  }

  lemma AbortNobody(s: State, status: nat, scripts: seq<seq<Action>>)
    requires s.requests == []
    ensures AbortAll(s, status, scripts) == s && Extends(s, s) && Calls(New(s, s)) == []
  {
  }

  /** All that the abort loop calls back after the head is told of the abort. */
  lemma {:induction false} AbortCalls(s: State, status: nat, scripts: seq<seq<Action>>)
    ensures var t := AbortAll(s, status, scripts);
      && Extends(s, t)
      && var calls := Calls(New(s, t));
      var told := s.requests != [] && s.requests[0].func;
      && (told ==> calls != [] && calls[0] == Called(s.requests[0].serial, status) == New(s, t)[0])
      && (forall i :: (if told then 1 else 0) <= i < |calls| ==>
            calls[i].Called? && calls[i].status == ATT_ECODE_ABORTED)
    decreases |scripts|, |s.requests|
  {
    hide AbortTurn, Calls, New, Extends, AbortAll;
    if s.requests == [] {
      AbortNobody(s, status, scripts);
    } else {
      var (u, rest) := AbortTurn(s, status, scripts);
      TurnDecreases(s, status, scripts);
      TurnCalls(s, status, scripts);
      AbortCalls(u, ATT_ECODE_ABORTED, rest);
      var t := AbortAll(u, ATT_ECODE_ABORTED, rest);
      NewSplit(s, u, t);
      FirstNew(s, u, t);
    }
  }

  lemma AbortAllExtends(s: State, status: nat, scripts: seq<seq<Action>>)
    ensures Extends(s, AbortAll(s, status, scripts))
  {
    AbortCalls(s, status, scripts);
  }

  // ----- no command is forgotten -----

  /** A request is still queued, with its callback as it was, or it was cancelled. */
  predicate StaysOrCancelled(c: Cmd, t: State) {
    Cancelled(c.serial) in t.log || exists d :: d in t.requests && d.serial == c.serial && d.func == c.func
  }

  /** What calls do to the requests: keep them, or cancel them. */
  ghost predicate Spares(s: State, t: State) {
    Extends(s, t) && forall c :: c in s.requests ==> StaysOrCancelled(c, t)
  }

  lemma SparesTrans(s: State, t: State, u: State)
    requires Spares(s, t) && Spares(t, u)
    ensures Spares(s, u)
  {
    NewSplit(s, t, u);
    forall c | c in s.requests
      ensures StaysOrCancelled(c, u)
    {
      assert StaysOrCancelled(c, t);
      if Cancelled(c.serial) in t.log {
        LogStays(t, u, Cancelled(c.serial));
      } else {
        var d :| d in t.requests && d.serial == c.serial && d.func == c.func;
        assert StaysOrCancelled(d, u);
      }
    }
  }

  lemma SparesKept(s: State, t: State)
    requires Extends(s, t) && forall c :: c in s.requests ==> c in t.requests
    ensures Spares(s, t)
  {
  }

  lemma CancelSpares(s: State, id: nat)
    ensures Spares(s, CancelId(s, id).0)
  {
    var i := FindId(s.requests, id);
    var t := CancelId(s, id).0;
    if i < |s.requests| {
      forall c | c in s.requests
        ensures StaysOrCancelled(c, t)
      {
        var j :| 0 <= j < |s.requests| && s.requests[j] == c;
        if j == i {
          assert Cancelled(c.serial) in t.log;
        } else if i == 0 && s.requests[0].sent {
          assert t.requests[j] == c;
        } else {
          assert t.requests[if j < i then j else j - 1] == c;
        }
      }
    }
  }

  lemma {:induction false} AllMarked(q: seq<Cmd>, c: Cmd)
    requires c in q
    ensures Cancelled(c.serial) in MarkAll(q) && Cancelled(c.serial) in DropAll(q)
  {
    if q[0] != c {
      AllMarked(q[1..], c);
    }
  }

  lemma CancelAllSpares(s: State)
    ensures Spares(s, CancelEvery(s))
  {
    hide MarkAll, DropAll, LeadSent;
    var t := CancelEvery(s);
    var n := LeadSent(s.requests);
    forall c | c in s.requests
      ensures Cancelled(c.serial) in t.log
    {
      var j :| 0 <= j < |s.requests| && s.requests[j] == c;
      if j < n {
        assert s.requests[..n][j] == c;
        AllMarked(s.requests[..n], c);
      } else {
        assert s.requests[n..][j - n] == c;
        AllMarked(s.requests[n..], c);
      }
    }
  }

  lemma ActSpares(s: State, a: Action)
    ensures Spares(s, Act(s, a))
  {
    hide CancelId, CancelEvery;
    match a {
      case ActSend(_, _, _) => SparesKept(s, Act(s, a));
      case ActCancel(id) => CancelSpares(s, id);
      case ActCancelAll => CancelAllSpares(s);
    }
  }

  lemma {:induction false} ActsSpare(s: State, acts: seq<Action>)
    ensures Spares(s, Acts(s, acts))
    decreases |acts|
  {
    hide Act, Spares;
    if acts == [] {
      SparesKept(s, s);
    } else {
      ActSpares(s, acts[0]);
      ActsSpare(Act(s, acts[0]), acts[1..]);
      SparesTrans(s, Act(s, acts[0]), Acts(s, acts));
    }
  }

  lemma FinishSpares(s: State, c: Cmd, status: nat, acts: seq<Action>)
    ensures Spares(s, Finish(s, c, status, acts))
  {
    hide Acts, Spares;
    var u := s.(log := s.log + [Called(c.serial, status)]);
    SparesKept(s, u);
    ActsSpare(u, acts);
    SparesTrans(s, u, Acts(u, acts));
    var v := if c.func then Acts(u, acts) else s;
    SparesKept(s, s);
    SparesKept(v, v.(log := v.log + [Destroyed(c.serial)]));
    SparesTrans(s, v, Finish(s, c, status, acts));
  }

  lemma TurnSpares(s: State, status: nat, scripts: seq<seq<Action>>)
    requires s.requests != []
    ensures Spares(s.(requests := s.requests[1..]), AbortTurn(s, status, scripts).0)
  {
    hide Finish, Spares;
    var c, t := s.requests[0], s.(requests := s.requests[1..]);
    FinishSpares(t, c, status, if c.func && scripts != [] then scripts[0] else []);
  }

  /** The command is among the effects as called back. */
  ghost predicate CalledIn(es: seq<Effect>, k: nat) {
    exists e :: e in es && e.Called? && e.serial == k
  }

  lemma SparedOne(s: State, t: State, c: Cmd)
    requires Spares(s, t) && c in s.requests
    ensures Cancelled(c.serial) in t.log || exists d :: d in t.requests && d.serial == c.serial && d.func == c.func
  {
    assert StaysOrCancelled(c, t);
  }

  /** A request that the abort loop finds with its callback is called back, or cancelled by a callback before it. */
  lemma {:induction false} AbortEach(s: State, status: nat, scripts: seq<seq<Action>>, c: Cmd)
    requires c in s.requests && c.func
    ensures var t := AbortAll(s, status, scripts);
      Extends(s, t) && (Cancelled(c.serial) in t.log || CalledIn(New(s, t), c.serial))
    decreases |scripts|, |s.requests|
  {
    hide AbortTurn, Calls, New, Extends, Spares;
    var (u, rest) := AbortTurn(s, status, scripts);
    var t := AbortAll(u, ATT_ECODE_ABORTED, rest);
    TurnDecreases(s, status, scripts);
    TurnCalls(s, status, scripts);
    AbortCalls(u, ATT_ECODE_ABORTED, rest);
    NewSplit(s, u, t);
    if s.requests[0] == c {
      assert Called(c.serial, status) in New(s, t);
    } else {
      TurnSpares(s, status, scripts);
      assert c in s.requests[1..];
      SparedOne(s.(requests := s.requests[1..]), u, c);
      if Cancelled(c.serial) in u.log {
        LogStays(u, t, Cancelled(c.serial));
      } else {
        var d :| d in u.requests && d.serial == c.serial && d.func == c.func;
        AbortEach(u, ATT_ECODE_ABORTED, rest, d);
      }
    }
  }

  // ----- the order of the requests -----

  ghost predicate Within(q: seq<Cmd>, k: nat) {
    exists i :: 0 <= i < |q| && q[i].serial == k
  }

  ghost predicate Before(q: seq<Cmd>, a: nat, b: nat) {
    exists i, j :: 0 <= i < j < |q| && q[i].serial == a && q[j].serial == b
  }

  ghost predicate Past(q: seq<Cmd>, next: nat) {
    forall c :: c in q ==> c.serial < next
  }

  /** Requests that are not new were there before, and stand in the order they stood in. */
  ghost predicate Inherits(s: State, t: State) {
    && t.nextSerial >= s.nextSerial
    && (forall k: nat :: Within(t.requests, k) && k < s.nextSerial ==> Within(s.requests, k))
    && (forall a: nat, b: nat :: Before(s.requests, a, b) && Within(t.requests, a) && Within(t.requests, b) ==>
          Before(t.requests, a, b))
  }

  lemma InheritsTrans(s: State, t: State, u: State)
    requires Inherits(s, t) && Inherits(t, u) && Past(s.requests, s.nextSerial)
    ensures Inherits(s, u)
  {
    forall a: nat, b: nat | Before(s.requests, a, b) && Within(u.requests, a) && Within(u.requests, b)
      ensures Before(u.requests, a, b)
    {
      var i, j :| 0 <= i < j < |s.requests| && s.requests[i].serial == a && s.requests[j].serial == b;
      assert s.requests[i] in s.requests && s.requests[j] in s.requests;
      assert Within(t.requests, a) && Within(t.requests, b);
    }
  }

  lemma SameRequests(s: State, t: State)
    requires t.requests == s.requests && t.nextSerial >= s.nextSerial
    ensures Inherits(s, t)
  {
  }

  /** One more command, in front or behind. */
  lemma BeforeWith(q: seq<Cmd>, c: Cmd, a: nat, b: nat)
    requires Before(q, a, b)
    ensures Before([c] + q, a, b) && Before(q + [c], a, b)
  {
    var i, j :| 0 <= i < j < |q| && q[i].serial == a && q[j].serial == b;
    var p, r := [c] + q, q + [c];
    assert p[i + 1].serial == a && p[j + 1].serial == b;
    assert r[i].serial == a && r[j].serial == b;
  }

  lemma WithinWith(q: seq<Cmd>, c: Cmd, k: nat)
    requires k != c.serial && (Within([c] + q, k) || Within(q + [c], k))
    ensures Within(q, k)
  {
    var p, r := [c] + q, q + [c];
    if Within(p, k) {
      var i :| 0 <= i < |p| && p[i].serial == k;
      assert q[i - 1].serial == k;
    } else {
      var i :| 0 <= i < |r| && r[i].serial == k;
      assert q[i].serial == k;
    }
  }

  lemma SendInherits(s: State, id: nat, opcode: nat, func: bool)
    ensures Inherits(s, Send(s, id, opcode, func).0)
  {
    hide IsResponse, OpcodeToExpected, Before, Within;
    var t, q := Send(s, id, opcode, func).0, s.requests;
    if t.requests == q {
      SameRequests(s, t);
    } else {
      var c := Cmd(s.nextSerial, if id != 0 then id else s.nextId + 1, opcode, OpcodeToExpected(opcode), false, func);
      forall a: nat, b: nat | Before(q, a, b)
        ensures Before(t.requests, a, b)
      {
        BeforeWith(q, c, a, b);
      }
      forall k: nat | Within(t.requests, k) && k < s.nextSerial
        ensures Within(q, k)
      {
        WithinWith(q, c, k);
      }
    }
  }

  lemma BeforeWithout(q: seq<Cmd>, i: nat, a: nat, b: nat)
    requires i < |q| && Before(q, a, b) && a != q[i].serial && b != q[i].serial
    ensures Before(q[..i] + q[i + 1..], a, b)
  {
    var x, y :| 0 <= x < y < |q| && q[x].serial == a && q[y].serial == b;
    var r := q[..i] + q[i + 1..];
    assert r[if x < i then x else x - 1] == q[x] && r[if y < i then y else y - 1] == q[y];
  }

  lemma WithinWithout(q: seq<Cmd>, i: nat, k: nat)
    requires i < |q| && DistinctSerials(q) && Within(q[..i] + q[i + 1..], k)
    ensures Within(q, k) && k != q[i].serial
  {
    var r := q[..i] + q[i + 1..];
    var j :| 0 <= j < |r| && r[j].serial == k;
    assert q[if j < i then j else j + 1] == r[j];
  }

  lemma SameSerials(q: seq<Cmd>, r: seq<Cmd>)
    requires |q| == |r| && forall i :: 0 <= i < |q| ==> q[i].serial == r[i].serial
    ensures forall k: nat :: Within(q, k) <==> Within(r, k)
    ensures forall a: nat, b: nat :: Before(q, a, b) ==> Before(r, a, b)
  {
  }

  lemma CancelInherits(s: State, id: nat)
    requires DistinctSerials(s.requests)
    ensures Inherits(s, CancelId(s, id).0)
  {
    hide Before, Within, DistinctSerials;
    var t, q := CancelId(s, id).0, s.requests;
    var i := FindId(q, id);
    if i == |q| {
      SameRequests(s, t);
    } else if i == 0 && q[0].sent {
      SameSerials(q, t.requests);
    } else {
      forall k: nat | Within(t.requests, k)
        ensures Within(q, k) && k != q[i].serial
      {
        WithinWithout(q, i, k);
      }
      forall a: nat, b: nat | Before(q, a, b) && Within(t.requests, a) && Within(t.requests, b)
        ensures Before(t.requests, a, b)
      {
        BeforeWithout(q, i, a, b);
      }
    }
  }

  lemma CancelAllInherits(s: State)
    requires DistinctSerials(s.requests)
    ensures Inherits(s, CancelEvery(s))
  {
    hide DropAll, MarkAll;
  }

  lemma ActInherits(s: State, a: Action)
    requires DistinctSerials(s.requests)
    ensures Inherits(s, Act(s, a))
  {
    hide Send, CancelId, CancelEvery;
    match a {
      case ActSend(id, opcode, func) => SendInherits(s, id, opcode, func);
      case ActCancel(id) => CancelInherits(s, id);
      case ActCancelAll => CancelAllInherits(s);
    }
  }

  lemma LedgerOrder(s: State, held: set<nat>)
    requires Ledger(s, held)
    ensures DistinctSerials(s.requests) && Past(s.requests, s.nextSerial)
  {
  }

  lemma {:induction false} ActsInherit(s: State, held: set<nat>, acts: seq<Action>)
    requires Ledger(s, held) && Sequential(s) && !HeadSent(s)
    ensures Inherits(s, Acts(s, acts))
    decreases |acts|
  {
    hide Ledger, Sequential, Act, Inherits;
    if acts == [] {
      SameRequests(s, s);
    } else {
      LedgerOrder(s, held);
      ActKeeps(s, held, acts[0]);
      ActInherits(s, acts[0]);
      ActsInherit(Act(s, acts[0]), held, acts[1..]);
      InheritsTrans(s, Act(s, acts[0]), Acts(s, acts));
    }
  }

  lemma FinishLedger(s: State, c: Cmd, status: nat)
    requires Ledger(s, {c.serial}) && CmdOk(c, s.log) && c.func
    ensures Ledger(s.(log := s.log + [Called(c.serial, status)]), {c.serial})
  {
    LedgerEffect(s, {c.serial}, Called(c.serial, status));
  }

  lemma FinishInherits(s: State, c: Cmd, status: nat, acts: seq<Action>)
    requires Ledger(s, {c.serial}) && Sequential(s) && CmdOk(c, s.log) && !HeadSent(s)
    ensures Inherits(s, Finish(s, c, status, acts))
  {
    hide Ledger, Sequential, Acts, Inherits, CmdOk;
    if c.func {
      var u := s.(log := s.log + [Called(c.serial, status)]);
      FinishLedger(s, c, status);
      LogOnly(s, u.log);
      ActsInherit(u, {c.serial}, acts);
      SameRequests(s, u);
      LedgerOrder(s, {c.serial});
      InheritsTrans(s, u, Acts(u, acts));
      SameRequests(Acts(u, acts), Finish(s, c, status, acts));
      InheritsTrans(s, Acts(u, acts), Finish(s, c, status, acts));
    } else {
      SameRequests(s, Finish(s, c, status, acts));
    }
  }

  lemma LastDestroyed(s: State, c: Cmd, status: nat, acts: seq<Action>)
    ensures Destroyed(c.serial) in Finish(s, c, status, acts).log
  {
  }

  /** One turn of the abort loop keeps the books, the order of the others, and forgets the head for good. */
  lemma TurnKeeps(s: State, status: nat, scripts: seq<seq<Action>>)
    requires Ledger(s, {}) && Sequential(s) && s.requests != []
    ensures var u := AbortTurn(s, status, scripts).0;
      && Ledger(u, {}) && Sequential(u)
      && Inherits(s.(requests := s.requests[1..]), u)
      && Destroyed(s.requests[0].serial) in u.log
  {
    hide Ledger, Sequential, Finish, Inherits, CmdOk;
    var c, t := s.requests[0], s.(requests := s.requests[1..]);
    var script := if c.func && scripts != [] then scripts[0] else [];
    PopHead(s);
    FinishKeeps(t, c, status, script);
    FinishInherits(t, c, status, script);
    LastDestroyed(t, c, status, script);
  }

  lemma DestroyedIsLast(s: State, t: State, k: nat)
    requires Extends(s, t) && LogOk(t.log) && Destroyed(k) in s.log
    ensures !CalledIn(New(s, t), k)
  {
    var i :| 0 <= i < |s.log| && s.log[i] == Destroyed(k);
    assert t.log[i] == Destroyed(k);
  }

  lemma LogOf(s: State)
    requires Ledger(s, {})
    ensures LogOk(s.log)
  {
  }

  lemma StillWithin(s: State, u: State, k: nat)
    requires s.requests != [] && Inherits(s.(requests := s.requests[1..]), u)
    requires Within(u.requests, k) || k >= u.nextSerial
    ensures Within(s.requests, k) || k >= s.nextSerial
  {
    if Within(u.requests, k) && k < s.nextSerial {
      var i :| 0 <= i < |s.requests| - 1 && s.requests[1..][i].serial == k;
      assert s.requests[i + 1].serial == k;
    }
  }

  lemma HeadWithin(q: seq<Cmd>)
    requires q != []
    ensures Within(q, q[0].serial)
  {
  }

  /** The abort loop calls back requests that were queued, or were queued by its own callbacks. */
  lemma {:induction false} AbortWho(s: State, status: nat, scripts: seq<seq<Action>>, e: Effect)
    requires Ledger(s, {}) && Sequential(s)
    requires Extends(s, AbortAll(s, status, scripts)) && e in Calls(New(s, AbortAll(s, status, scripts)))
    ensures Within(s.requests, e.serial) || e.serial >= s.nextSerial
    decreases |scripts|, |s.requests|
  {
    hide AbortTurn, Calls, New, Extends, Ledger, Sequential, Inherits, AbortAll, Within;
    if s.requests == [] {
      AbortNobody(s, status, scripts);
    } else {
      var (u, rest) := AbortTurn(s, status, scripts);
      var t := AbortAll(u, ATT_ECODE_ABORTED, rest);
      TurnDecreases(s, status, scripts);
      TurnCalls(s, status, scripts);
      TurnKeeps(s, status, scripts);
      AbortCalls(u, ATT_ECODE_ABORTED, rest);
      NewSplit(s, u, t);
      if e in Calls(New(u, t)) {
        AbortWho(u, ATT_ECODE_ABORTED, rest, e);
        StillWithin(s, u, e.serial);
      } else {
        HeadWithin(s.requests);
      }
    }
  }

  /** Behind the head nothing has its serial, and the order of the others is that without it. */
  lemma BehindHead(q: seq<Cmd>, a: nat, b: nat)
    requires DistinctSerials(q) && Before(q, a, b)
    ensures q != [] && b != q[0].serial && a != b && (a != q[0].serial ==> Before(q[1..], a, b))
  {
    var i, j :| 0 <= i < j < |q| && q[i].serial == a && q[j].serial == b;
    assert i > 0 ==> q[1..][i - 1].serial == a && q[1..][j - 1].serial == b;
  }

  lemma BothWithin(q: seq<Cmd>, a: nat, b: nat, next: nat)
    requires Before(q, a, b) && Past(q, next)
    ensures a < next && b < next
  {
    var i, j :| 0 <= i < j < |q| && q[i].serial == a && q[j].serial == b;
    assert q[i] in q && q[j] in q;
  }

  /** In a list of callbacks, a comes before b wherever both are called. */
  ghost predicate InTurn(calls: seq<Effect>, a: nat, b: nat) {
    forall p, q :: 0 <= p < |calls| && 0 <= q < |calls| && calls[p].serial == a && calls[q].serial == b ==> p < q
  }

  lemma Halves(m: seq<Effect>, n: seq<Effect>)
    ensures forall i :: 0 <= i < |m| ==> (m + n)[i] == m[i] && m[i] in m
    ensures forall i :: |m| <= i < |m + n| ==> (m + n)[i] == n[i - |m|] && n[i - |m|] in n
  {
  }

  lemma InTurnHead(m: seq<Effect>, n: seq<Effect>, a: nat, b: nat)
    requires |m| <= 1 && (forall e :: e in m ==> e.serial == a) && (forall e :: e in n ==> e.serial != a) && a != b
    ensures InTurn(m + n, a, b)
  {
    Halves(m, n);
  }

  lemma InTurnTail(m: seq<Effect>, n: seq<Effect>, a: nat, b: nat)
    requires InTurn(n, a, b) && forall e :: e in m ==> e.serial != a && e.serial != b
    ensures InTurn(m + n, a, b)
  {
    Halves(m, n);
  }

  lemma NotBoth(calls: seq<Effect>, a: nat, b: nat)
    requires (forall e :: e in calls ==> e.serial != a) || (forall e :: e in calls ==> e.serial != b)
    ensures InTurn(calls, a, b)
  {
  }

  /** A destroyed head is not called again. */
  lemma HeadIsOver(u: State, rest: seq<seq<Action>>, k: nat)
    requires Ledger(u, {}) && Sequential(u) && Destroyed(k) in u.log && Extends(u, AbortAll(u, ATT_ECODE_ABORTED, rest))
    ensures forall e :: e in Calls(New(u, AbortAll(u, ATT_ECODE_ABORTED, rest))) ==> e.serial != k
  {
    hide Calls, New, Extends, Ledger, Sequential, AbortAll;
    var t := AbortAll(u, ATT_ECODE_ABORTED, rest);
    AbortAllKeeps(u, ATT_ECODE_ABORTED, rest);
    LogOf(t);
    DestroyedIsLast(u, t, k);
    CallsAre(New(u, t));
  }

  lemma RestInTurn(s: State, u: State, rest: seq<seq<Action>>, a: nat, b: nat)
    requires Ledger(u, {}) && Sequential(u) && s.requests != [] && Inherits(s.(requests := s.requests[1..]), u)
    requires Before(s.requests[1..], a, b) && a < s.nextSerial && b < s.nextSerial
    ensures Extends(u, AbortAll(u, ATT_ECODE_ABORTED, rest))
    ensures InTurn(Calls(New(u, AbortAll(u, ATT_ECODE_ABORTED, rest))), a, b)
    decreases |rest|, |u.requests|, 1
  {
    hide Calls, New, Extends, Ledger, Sequential, AbortAll, InTurn;
    var t := AbortAll(u, ATT_ECODE_ABORTED, rest);
    AbortCalls(u, ATT_ECODE_ABORTED, rest);
    var calls := Calls(New(u, t));
    if Within(u.requests, a) && Within(u.requests, b) {
      AbortOrder(u, ATT_ECODE_ABORTED, rest, a, b);
    } else {
      forall e | e in calls
        ensures Within(u.requests, e.serial) || e.serial >= u.nextSerial
      {
        AbortWho(u, ATT_ECODE_ABORTED, rest, e);
      }
      NotBoth(calls, a, b);
    }
  }

  /** Requests that the abort loop calls back are called in the order in which they were queued. */
  lemma {:induction false} AbortOrder(s: State, status: nat, scripts: seq<seq<Action>>, a: nat, b: nat)
    requires Ledger(s, {}) && Sequential(s) && Before(s.requests, a, b)
    ensures Extends(s, AbortAll(s, status, scripts)) && InTurn(Calls(New(s, AbortAll(s, status, scripts))), a, b)
    decreases |scripts|, |s.requests|, 0
  {
    hide AbortTurn, Calls, New, Extends, Ledger, Sequential, Inherits, AbortAll, Within, Before, InTurn;
    hide DistinctSerials, Past;
    LedgerOrder(s, {});
    BehindHead(s.requests, a, b);
    BothWithin(s.requests, a, b, s.nextSerial);
    var k := s.requests[0].serial;
    var (u, rest) := AbortTurn(s, status, scripts);
    var t := AbortAll(u, ATT_ECODE_ABORTED, rest);
    TurnDecreases(s, status, scripts);
    TurnCalls(s, status, scripts);
    TurnKeeps(s, status, scripts);
    AbortCalls(u, ATT_ECODE_ABORTED, rest);
    NewSplit(s, u, t);
    var m, n := Calls(New(s, u)), Calls(New(u, t));
    if a == k {
      HeadIsOver(u, rest, k);
      InTurnHead(m, n, a, b);
    } else {
      RestInTurn(s, u, rest, a, b);
      InTurnTail(m, n, a, b);
    }
  }

  // ----- a timeout -----

  /**
   Whatever the callbacks do, a timeout tells the first request of the timeout and before all else,
   every other one it calls back of the abort, in queue order; and each request with its callback is
   called back, or was cancelled by a callback before its turn.
   */
  lemma TimeoutTells(s: State, scripts: seq<seq<Action>>)
    requires Inv(s) && s.requests != []
    ensures var t := Timeout(s, scripts);
      && Extends(s, t)
      && var es, calls := New(s, t), Calls(New(s, t));
      var told := s.requests[0].func;
      && (told ==> calls != [] && calls[0] == es[0] == Called(s.requests[0].serial, 0x81))
      && (forall i :: (if told then 1 else 0) <= i < |calls| ==> calls[i].Called? && calls[i].status == 0x82)
      && (forall c :: c in s.requests && c.func ==> Cancelled(c.serial) in t.log || CalledIn(es, c.serial))
      && (forall i, j :: 0 <= i < j < |s.requests| ==> InTurn(calls, s.requests[i].serial, s.requests[j].serial))
  {
    hide Ledger, Sequential, AbortAll, Calls, InTurn, CalledIn;
    var m, t := AbortAll(s, ATT_ECODE_TIMEOUT, scripts), Timeout(s, scripts);
    AbortCalls(s, ATT_ECODE_TIMEOUT, scripts);
    assert New(s, t) == New(s, m);
    forall c | c in s.requests && c.func
      ensures Cancelled(c.serial) in t.log || CalledIn(New(s, t), c.serial)
    {
      AbortEach(s, ATT_ECODE_TIMEOUT, scripts, c);
    }
    forall i, j | 0 <= i < j < |s.requests|
      ensures InTurn(Calls(New(s, t)), s.requests[i].serial, s.requests[j].serial)
    {
      assert Before(s.requests, s.requests[i].serial, s.requests[j].serial);
      AbortOrder(s, ATT_ECODE_TIMEOUT, scripts, s.requests[i].serial, s.requests[j].serial);
    }
  }
}

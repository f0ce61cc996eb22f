/** What every run of the ATT transport keeps: bookkeeping of commands, and the two watches. */
module AttribSafety {
  import opened AttCodes
  import opened AttribSpec

  ghost predicate DistinctSerials(q: seq<Cmd>) {
    forall i, j :: 0 <= i < j < |q| ==> q[i].serial != q[j].serial
  }

  ghost predicate NotCalled(log: seq<Effect>, k: nat) {
    forall e :: e in log && e.Called? ==> e.serial != k
  }

  /**
   After a command is destroyed nothing happens to it; it is written at most once, called back at
   most once, and not called back after a successful cancel.
   */
  ghost predicate LogOk(log: seq<Effect>) {
    forall i, j :: 0 <= i < j < |log| && log[i].serial == log[j].serial ==>
      && !log[i].Destroyed?
      && !(log[i].Wrote? && log[j].Wrote?)
      && !(log[i].Called? && log[j].Called?)
      && !(log[i].Cancelled? && log[j].Called?)
  }

  /** A command that is still owned: what has not happened to it yet. */
  ghost predicate CmdOk(c: Cmd, log: seq<Effect>) {
    && Destroyed(c.serial) !in log
    && NotCalled(log, c.serial)
    && (!c.sent ==> Wrote(c.serial) !in log)
    && (c.func ==> Cancelled(c.serial) !in log)
  }

  ghost predicate Queued(s: State, k: nat) {
    (exists c :: c in s.requests && c.serial == k) || (exists c :: c in s.responses && c.serial == k)
  }

  /** The commands popped and not yet destroyed are `held`. */
  ghost predicate Ledger(s: State, held: set<nat>) {
    && DistinctSerials(s.requests) && DistinctSerials(s.responses)
    && (forall c, d :: c in s.requests && d in s.responses ==> c.serial != d.serial)
    && (forall c :: c in s.requests || c in s.responses ==>
          c.serial < s.nextSerial && c.serial !in held && CmdOk(c, s.log))
    && (forall k :: k in held ==> k < s.nextSerial && Destroyed(k) !in s.log)
    && (forall e :: e in s.log ==> e.serial < s.nextSerial)
    && (forall k: nat :: k < s.nextSerial ==> Destroyed(k) in s.log || k in held || Queued(s, k))
    && LogOk(s.log)
  }

  /** Only the first request can be outstanding; responses never are. */
  ghost predicate Sequential(s: State) {
    && (forall c :: c in s.responses ==> !c.sent && c.expected == 0)
    && (forall i :: 1 <= i < |s.requests| ==> !s.requests[i].sent)
    && (forall c :: c in s.requests && c.sent ==> c.expected != 0)
  }

  predicate HeadSent(s: State) {
    s.requests != [] && s.requests[0].sent
  }

  lemma LogAppend(log: seq<Effect>, e: Effect)
    requires LogOk(log) && Destroyed(e.serial) !in log
    requires e.Wrote? ==> Wrote(e.serial) !in log
    requires e.Called? ==> NotCalled(log, e.serial) && Cancelled(e.serial) !in log
    ensures LogOk(log + [e])
  {
    var l := log + [e];
    forall i, j | 0 <= i < j < |l| && l[i].serial == l[j].serial
      ensures !l[i].Destroyed? && !(l[i].Wrote? && l[j].Wrote?) && !(l[i].Called? && l[j].Called?)
      ensures !(l[i].Cancelled? && l[j].Called?)
    {
      if j == |log| {
        assert l[i] in log;
      }
    }
  }

  lemma ResponsesExpectNothing(opcode: nat)
    requires IsResponse(opcode)
    ensures OpcodeToExpected(opcode) == 0
  {
  }

  // ----- the ledger, one primitive at a time -----

  predicate Holds(s: State, c: Cmd) {
    c in s.requests || c in s.responses
  }

  ghost predicate Apart(s: State) {
    forall c, d :: c in s.requests && d in s.responses ==> c.serial != d.serial
  }

  lemma LedgerGrow(s: State, t: State, held: set<nat>, c: Cmd)
    requires Ledger(s, held) && c.serial == s.nextSerial && !c.sent
    requires t.nextSerial == s.nextSerial + 1 && t.log == s.log
    requires DistinctSerials(t.requests) && DistinctSerials(t.responses) && Apart(t)
    requires forall x :: Holds(t, x) <==> x == c || Holds(s, x)
    ensures Ledger(t, held)
  {
    assert CmdOk(c, s.log);
    forall k: nat | k < t.nextSerial
      ensures Destroyed(k) in t.log || k in held || Queued(t, k)
    {
      if k == s.nextSerial {
        assert Holds(t, c);
      } else if Queued(s, k) {
        var x :| Holds(s, x) && x.serial == k;
        assert Holds(t, x);
      }
    }
    assert forall x :: x in t.requests || x in t.responses ==> Holds(t, x);
  }

  lemma SameSerial(s: State, held: set<nat>, c: Cmd, d: Cmd)
    requires Ledger(s, held) && Holds(s, c) && Holds(s, d) && c.serial == d.serial
    ensures c == d
  {
  }

  lemma LedgerPop(s: State, t: State, held: set<nat>, c: Cmd)
    requires Ledger(s, held) && Holds(s, c)
    requires t.nextSerial == s.nextSerial && t.log == s.log
    requires DistinctSerials(t.requests) && DistinctSerials(t.responses)
    requires forall x :: Holds(t, x) <==> Holds(s, x) && x != c
    requires forall x :: (x in t.requests ==> x in s.requests) && (x in t.responses ==> x in s.responses)
    ensures Ledger(t, held + {c.serial})
  {
    forall x | Holds(t, x)
      ensures x.serial != c.serial
    {
      if x.serial == c.serial {
        SameSerial(s, held, x, c);
      }
    }
    forall k: nat | k < t.nextSerial && k != c.serial && Queued(s, k)
      ensures Queued(t, k)
    {
      var x :| Holds(s, x) && x.serial == k;
      assert Holds(t, x);
    }
    assert forall x :: x in t.requests || x in t.responses ==> Holds(t, x) && Holds(s, x);
  }

  /** An effect on a held command. */
  lemma LedgerEffect(s: State, held: set<nat>, e: Effect)
    requires Ledger(s, held) && e.serial in held && !e.Destroyed?
    requires e.Wrote? ==> Wrote(e.serial) !in s.log
    requires e.Called? ==> NotCalled(s.log, e.serial) && Cancelled(e.serial) !in s.log
    ensures Ledger(s.(log := s.log + [e]), held)
  {
    LogAppend(s.log, e);
    var t := s.(log := s.log + [e]);
    forall c | c in t.requests || c in t.responses
      ensures CmdOk(c, t.log)
    {
      assert CmdOk(c, s.log) && c.serial != e.serial;
    }
    forall k: nat | k < t.nextSerial
      ensures Destroyed(k) in t.log || k in held || Queued(t, k)
    {
      assert Destroyed(k) in s.log || k in held || Queued(s, k);
    }
  }

  /** A held command is destroyed. */
  lemma LedgerDestroy(s: State, held: set<nat>, k: nat)
    requires Ledger(s, held) && k in held
    ensures Ledger(s.(log := s.log + [Destroyed(k)]), held - {k})
  {
    LogAppend(s.log, Destroyed(k));
    var t := s.(log := s.log + [Destroyed(k)]);
    forall c | c in t.requests || c in t.responses
      ensures CmdOk(c, t.log)
    {
      assert CmdOk(c, s.log) && c.serial != k;
    }
    forall j: nat | j < t.nextSerial
      ensures Destroyed(j) in t.log || j in held - {k} || Queued(t, j)
    {
      assert Destroyed(j) in s.log || j in held || Queued(s, j);
    }
  }

  lemma MarkQueue(q: seq<Cmd>, c: Cmd)
    requires DistinctSerials(q) && q != [] && c.serial == q[0].serial
    ensures DistinctSerials(q[0 := c])
    ensures forall x :: x in q[0 := c] ==> x == c || (x in q && x.serial != c.serial)
    ensures c in q[0 := c]
    ensures forall x :: x in q ==> x == q[0] || x in q[0 := c]
  {
    var r := q[0 := c];
    assert r[0] == c;
    forall x | x in q && x != q[0]
      ensures x in r
    {
      var i :| 0 <= i < |q| && q[i] == x;
      assert r[i] == x;
    }
  }

  /** The head request changes its flags and takes an effect. */
  lemma LedgerMark(s: State, held: set<nat>, c: Cmd, e: Effect)
    requires Ledger(s, held) && s.requests != [] && c.serial == s.requests[0].serial == e.serial && !e.Destroyed?
    requires
      || (e == Wrote(c.serial) && !s.requests[0].sent && c == s.requests[0].(sent := true))
      || (e == Cancelled(c.serial) && c == s.requests[0].(func := false))
    ensures Ledger(s.(requests := s.requests[0 := c], log := s.log + [e]), held)
  {
    var q := s.requests[0 := c];
    var t := s.(requests := q, log := s.log + [e]);
    assert CmdOk(s.requests[0], s.log);
    LogAppend(s.log, e);
    MarkQueue(s.requests, c);
    assert CmdOk(c, t.log);
    forall x | (x in q && x != c) || x in s.responses
      ensures CmdOk(x, t.log)
    {
      assert x.serial != c.serial;
      assert CmdOk(x, s.log);
    }
    forall k: nat | k < t.nextSerial && Queued(s, k)
      ensures Queued(t, k)
    {
      assert k == c.serial ==> c in q;
      assert forall x :: x in s.requests && x.serial == k ==> x in q || k == c.serial;
    }
    forall x, d | x in q && d in s.responses
      ensures x.serial != d.serial
    {
      assert s.requests[0] in s.requests;
    }
  }

  lemma RemoveQueue(q: seq<Cmd>, i: nat)
    requires DistinctSerials(q) && i < |q|
    ensures DistinctSerials(q[..i] + q[i + 1..])
    ensures forall x :: x in q[..i] + q[i + 1..] <==> x in q && x != q[i]
  {
    var r := q[..i] + q[i + 1..];
    assert forall j :: 0 <= j < |r| ==> r[j] == q[if j < i then j else j + 1];
    forall x | x in q && x != q[i]
      ensures x in r
    {
      var j :| 0 <= j < |q| && q[j] == x;
      assert r[if j < i then j else j - 1] == x;
    }
  }

  /** Popping the i-th request. */
  lemma PopRequest(s: State, held: set<nat>, i: nat)
    requires Ledger(s, held) && i < |s.requests|
    ensures Ledger(s.(requests := s.requests[..i] + s.requests[i + 1..]), held + {s.requests[i].serial})
  {
    var t := s.(requests := s.requests[..i] + s.requests[i + 1..]);
    var c := s.requests[i];
    RemoveQueue(s.requests, i);
    assert forall x :: Holds(t, x) <==> Holds(s, x) && x != c by {
      assert Holds(s, c);
    }
    LedgerPop(s, t, held, c);
  }

  /** Popping the i-th response. */
  lemma PopResponse(s: State, held: set<nat>, i: nat)
    requires Ledger(s, held) && i < |s.responses|
    ensures Ledger(s.(responses := s.responses[..i] + s.responses[i + 1..]), held + {s.responses[i].serial})
  {
    var t := s.(responses := s.responses[..i] + s.responses[i + 1..]);
    var c := s.responses[i];
    RemoveQueue(s.responses, i);
    assert forall x :: Holds(t, x) <==> Holds(s, x) && x != c by {
      assert Holds(s, c);
    }
    LedgerPop(s, t, held, c);
  }

  /** A held command is reported cancelled and destroyed. */
  lemma DropHeld(s: State, held: set<nat>, k: nat)
    requires Ledger(s, held + {k}) && k !in held
    ensures Ledger(s.(log := s.log + [Cancelled(k), Destroyed(k)]), held)
  {
    LedgerEffect(s, held + {k}, Cancelled(k));
    var t := s.(log := s.log + [Cancelled(k)]);
    LedgerDestroy(t, held + {k}, k);
    assert t.log + [Destroyed(k)] == s.log + [Cancelled(k), Destroyed(k)];
    assert held + {k} - {k} == held;
  }

  lemma LedgerSerials(s: State, held: set<nat>)
    requires Ledger(s, held)
    ensures DistinctSerials(s.requests) && DistinctSerials(s.responses) && Apart(s)
    ensures forall x :: x in s.requests || x in s.responses ==> x.serial < s.nextSerial
  {
  }

  lemma ApartGrow(s: State, t: State, c: Cmd)
    requires Apart(s) && forall x :: x in s.requests || x in s.responses ==> x.serial != c.serial
    requires
      || (t.requests == s.requests && t.responses == s.responses + [c])
      || (t.responses == s.responses && (t.requests == s.requests + [c] || t.requests == [c] + s.requests))
    ensures Apart(t) && forall x :: Holds(t, x) <==> x == c || Holds(s, x)
  {
  }

  lemma AppendQueue(q: seq<Cmd>, c: Cmd)
    requires DistinctSerials(q) && forall x :: x in q ==> x.serial != c.serial
    ensures DistinctSerials(q + [c])
  {
    assert forall i :: 0 <= i < |q| ==> q[i] in q;
  }

  lemma PrependQueue(q: seq<Cmd>, c: Cmd)
    requires DistinctSerials(q) && forall x :: x in q ==> x.serial != c.serial
    ensures DistinctSerials([c] + q)
  {
    assert forall i :: 0 <= i < |q| ==> q[i] in q;
    assert forall i :: 0 < i < |q| + 1 ==> ([c] + q)[i] == q[i - 1];
  }

  lemma SendLedger(s: State, held: set<nat>, id: nat, opcode: nat, func: bool)
    requires Ledger(s, held)
    ensures Ledger(Send(s, id, opcode, func).0, held)
  {
    hide Ledger, OpcodeToExpected, IsResponse, DistinctSerials, Apart;
    if !s.stale {
      var t := Send(s, id, opcode, func).0;
      var newId := if id != 0 then id else s.nextId + 1;
      var c := Cmd(s.nextSerial, newId, opcode, OpcodeToExpected(opcode), false, func);
      LedgerSerials(s, held);
      if IsResponse(opcode) {
        AppendQueue(s.responses, c);
      } else if id != 0 {
        PrependQueue(s.requests, c);
      } else {
        AppendQueue(s.requests, c);
      }
      ApartGrow(s, t, c);
      LedgerGrow(s, t, held, c);
    }
  }

  lemma NotHeld(s: State, held: set<nat>, c: Cmd)
    requires Ledger(s, held) && Holds(s, c)
    ensures c.serial !in held && CmdOk(c, s.log)
  {
  }

  lemma CancelLedger(s: State, held: set<nat>, id: nat)
    requires Ledger(s, held) && Sequential(s)
    ensures Ledger(CancelId(s, id).0, held)
  {
    hide Ledger;
    var i := FindId(s.requests, id);
    if i < |s.requests| {
      if i == 0 && s.requests[0].sent {
        var c := s.requests[0];
        LedgerMark(s, held, c.(func := false), Cancelled(c.serial));
      } else {
        var k := s.requests[i].serial;
        PopRequest(s, held, i);
        NotHeld(s, held, s.requests[i]);
        DropHeld(s.(requests := s.requests[..i] + s.requests[i + 1..]), held, k);
      }
    } else {
      var j := FindId(s.responses, id);
      if j < |s.responses| {
        var k := s.responses[j].serial;
        PopResponse(s, held, j);
        NotHeld(s, held, s.responses[j]);
        DropHeld(s.(responses := s.responses[..j] + s.responses[j + 1..]), held, k);
      }
    }
  }

  /** Dropping the requests from index n on, front to back. */
  lemma {:induction false} DropRequests(s: State, held: set<nat>, n: nat)
    requires Ledger(s, held) && n <= |s.requests|
    ensures Ledger(s.(requests := s.requests[..n], log := s.log + DropAll(s.requests[n..])), held)
    decreases |s.requests|
  {
    hide Ledger;
    if n == |s.requests| {
      assert s.log + DropAll(s.requests[n..]) == s.log && s.requests[..n] == s.requests;
    } else {
      var c := s.requests[n];
      var q := s.requests[..n] + s.requests[n + 1..];
      PopRequest(s, held, n);
      NotHeld(s, held, c);
      DropHeld(s.(requests := q), held, c.serial);
      var es := [Cancelled(c.serial), Destroyed(c.serial)];
      DropRequests(s.(requests := q, log := s.log + es), held, n);
      assert q[..n] == s.requests[..n] && q[n..] == s.requests[n..][1..];
      assert (s.log + es) + DropAll(q[n..]) == s.log + DropAll(s.requests[n..]);
    }
  }

  lemma {:induction false} DropResponses(s: State, held: set<nat>)
    requires Ledger(s, held)
    ensures Ledger(s.(responses := [], log := s.log + DropAll(s.responses)), held)
    decreases |s.responses|
  {
    hide Ledger;
    if s.responses == [] {
      assert s.log + DropAll(s.responses) == s.log;
    } else {
      var c := s.responses[0];
      var q := s.responses[..0] + s.responses[1..];
      PopResponse(s, held, 0);
      NotHeld(s, held, c);
      DropHeld(s.(responses := q), held, c.serial);
      var es := [Cancelled(c.serial), Destroyed(c.serial)];
      DropResponses(s.(responses := q, log := s.log + es), held);
      assert q == s.responses[1..];
      assert (s.log + es) + DropAll(q) == s.log + DropAll(s.responses);
    }
  }

  /** With one outstanding request at most, cancel_all keeps that one and drops the others. */
  lemma CancelQueueAtMostOne(q: seq<Cmd>)
    requires forall i :: 1 <= i < |q| ==> !q[i].sent
    ensures CancelQueue(q) ==
      if q != [] && q[0].sent then ([q[0].(func := false)], [Cancelled(q[0].serial)] + DropAll(q[1..]))
      else ([], DropAll(q))
  {
    if q != [] && q[0].sent {
      assert LeadSent(q) == 1;
      assert q[..1] == [q[0]] && MarkAll([q[0]]) == [Cancelled(q[0].serial)];
    } else {
      assert LeadSent(q) == 0;
      assert q[..0] == [] && q[0..] == q && MarkAll([]) == [];
      assert [] + DropAll(q) == DropAll(q);
    }
  }

  /** cancel_all_per_queue on the requests. */
  lemma CancelRequestsLedger(s: State, held: set<nat>)
    requires Ledger(s, held) && forall i :: 1 <= i < |s.requests| ==> !s.requests[i].sent
    ensures var (q, es) := CancelQueue(s.requests);
      Ledger(s.(requests := q, log := s.log + es), held)
  {
    hide Ledger, CancelQueue;
    CancelQueueAtMostOne(s.requests);
    var (q, es) := CancelQueue(s.requests);
    if HeadSent(s) {
      var c := s.requests[0].(func := false);
      LedgerMark(s, held, c, Cancelled(c.serial));
      var u := s.(requests := s.requests[0 := c], log := s.log + [Cancelled(c.serial)]);
      DropRequests(u, held, 1);
      assert u.requests[..1] == q && u.requests[1..] == s.requests[1..];
      assert u.log + DropAll(s.requests[1..]) == s.log + es;
    } else {
      DropRequests(s, held, 0);
      assert s.requests[..0] == [] && s.requests[0..] == s.requests;
    }
  }

  lemma CancelAllLedger(s: State, held: set<nat>)
    requires Ledger(s, held) && Sequential(s)
    ensures Ledger(CancelEvery(s), held)
  {
    hide Ledger, CancelQueue;
    assert forall c :: c in s.responses ==> !c.sent;
    CancelRequestsLedger(s, held);
    var (q, es) := CancelQueue(s.requests);
    CancelQueueAtMostOne(s.responses);
    DropResponses(s.(requests := q, log := s.log + es), held);
    assert s.responses != [] ==> s.responses[0] in s.responses;
  }

  // ----- the watches -----

  /** Something can be written: a response is queued, or the head request has not been sent. */
  predicate Pending(s: State) {
    s.responses != [] || (s.requests != [] && !s.requests[0].sent)
  }

  /** No lost wakeup. */
  predicate Awake(s: State) {
    !s.stale && Pending(s) ==> s.writeWatch
  }

  /** The transaction timer runs exactly while a request is outstanding. */
  predicate TimerOk(s: State) {
    !s.stale ==> (s.timeoutWatch <==> HeadSent(s))
  }

  ghost predicate Inv(s: State) {
    Ledger(s, {}) && Sequential(s) && TimerOk(s)
  }

  /**
   A nonzero id pushes a request to the front; that is safe exactly when no request is outstanding,
   as in a result callback.
   */
  predicate SafeAct(s: State, a: Action) {
    a.ActSend? && a.id != 0 && !IsResponse(a.opcode) && !s.stale ==> !HeadSent(s)
  }

  /** What one call leaves as it was. */
  ghost predicate SameMode(s: State, t: State) {
    && t.stale == s.stale && t.timeoutWatch == s.timeoutWatch
    && (s.writeWatch ==> t.writeWatch)
    && (HeadSent(t) <==> HeadSent(s))
  }

  /** A new command that is not sent joins a queue; one in front of an unsent head only. */
  lemma JoinSequential(s: State, t: State, c: Cmd)
    requires Sequential(s) && !c.sent
    requires
      || (t.requests == s.requests && t.responses == s.responses + [c] && c.expected == 0)
      || (t.responses == s.responses && t.requests == s.requests + [c])
      || (t.responses == s.responses && t.requests == [c] + s.requests && !HeadSent(s))
    ensures Sequential(t) && (HeadSent(t) <==> HeadSent(s))
  {
    assert forall x :: x in t.responses ==> x == c || x in s.responses;
    assert forall x :: x in t.requests ==> x == c || x in s.requests;
  }

  lemma SendSequential(s: State, id: nat, opcode: nat, func: bool)
    requires Sequential(s) && SafeAct(s, ActSend(id, opcode, func))
    ensures var t := Send(s, id, opcode, func).0;
      Sequential(t) && SameMode(s, t) && (Awake(s) ==> Awake(t))
  {
    hide Sequential, IsResponse, OpcodeToExpected;
    if !s.stale {
      var t := Send(s, id, opcode, func).0;
      var newId := if id != 0 then id else s.nextId + 1;
      var c := Cmd(s.nextSerial, newId, opcode, OpcodeToExpected(opcode), false, func);
      if IsResponse(opcode) {
        ResponsesExpectNothing(opcode);
      }
      JoinSequential(s, t, c);
    }
  }

  lemma CancelAtSequential(q: seq<Cmd>, i: nat)
    requires i < |q| && (forall j :: 1 <= j < |q| ==> !q[j].sent) && (forall c :: c in q && c.sent ==> c.expected != 0)
    ensures var r := CancelAt(q, i).0;
      && (forall j :: 1 <= j < |r| ==> !r[j].sent) && (forall c :: c in r && c.sent ==> c.expected != 0)
      && ((r != [] && r[0].sent) <==> q[0].sent)
      && (r != [] && !r[0].sent ==> !q[0].sent)
  {
    var r := CancelAt(q, i).0;
    if i == 0 && q[0].sent {
      assert q[0] in q;
      assert forall c :: c in r ==> c == r[0] || c in q;
    } else {
      assert forall j :: 0 <= j < |r| ==> r[j] == q[if j < i then j else j + 1];
      assert forall c :: c in r ==> c in q;
    }
  }

  lemma CancelSequential(s: State, id: nat)
    requires Sequential(s)
    ensures var t := CancelId(s, id).0;
      Sequential(t) && SameMode(s, t) && (Awake(s) ==> Awake(t))
  {
    var i := FindId(s.requests, id);
    if i < |s.requests| {
      CancelAtSequential(s.requests, i);
    } else {
      var j := FindId(s.responses, id);
      if j < |s.responses| {
        assert s.responses[0] in s.responses;
        assert forall x :: x in s.responses[..j] + s.responses[j + 1..] ==> x in s.responses;
      }
    }
  }

  lemma ActKeeps(s: State, held: set<nat>, a: Action)
    requires Ledger(s, held) && Sequential(s) && SafeAct(s, a)
    ensures var t := Act(s, a);
      Ledger(t, held) && Sequential(t) && SameMode(s, t) && (Awake(s) ==> Awake(t))
  {
    hide Ledger, DropAll, CancelQueue;
    match a {
      case ActSend(id, opcode, func) =>
        SendLedger(s, held, id, opcode, func);
        SendSequential(s, id, opcode, func);
      case ActCancel(id) =>
        CancelLedger(s, held, id);
        CancelSequential(s, id);
      case ActCancelAll =>
        CancelAllLedger(s, held);
        CancelQueueAtMostOne(s.requests);
        CancelQueueAtMostOne(s.responses);
        assert s.responses != [] ==> s.responses[0] in s.responses;
        assert s.requests != [] ==> s.requests[0] in s.requests;
    }
  }

  /** Every action of a callback keeps the books, as long as no request is outstanding or ids are zero. */
  lemma {:induction false} ActsKeep(s: State, held: set<nat>, acts: seq<Action>)
    requires Ledger(s, held) && Sequential(s)
    requires HeadSent(s) ==> forall a :: a in acts && a.ActSend? ==> a.id == 0
    ensures var t := Acts(s, acts);
      Ledger(t, held) && Sequential(t) && SameMode(s, t) && (Awake(s) ==> Awake(t))
    decreases |acts|
  {
    hide Ledger, Sequential, Act;
    if acts != [] {
      assert acts[0] in acts;
      ActKeeps(s, held, acts[0]);
      ActsKeep(Act(s, acts[0]), held, acts[1..]);
    }
  }

  // ----- the events -----

  lemma LogOnly(s: State, log: seq<Effect>)
    requires Sequential(s)
    ensures var t := s.(log := log);
      Sequential(t) && SameMode(s, t) && (Awake(s) ==> Awake(t)) && HeadSent(t) == HeadSent(s)
  {
  }

  /** The callback of a popped command and its destruction. */
  lemma FinishKeeps(s: State, c: Cmd, status: nat, acts: seq<Action>)
    requires Ledger(s, {c.serial}) && Sequential(s) && CmdOk(c, s.log) && !HeadSent(s)
    ensures var t := Finish(s, c, status, acts);
      Ledger(t, {}) && Sequential(t) && SameMode(s, t) && (Awake(s) ==> Awake(t))
  {
    hide Ledger, Sequential, Acts;
    var k := c.serial;
    var t := s;
    if c.func {
      LedgerEffect(s, {k}, Called(k, status));
      var u := s.(log := s.log + [Called(k, status)]);
      LogOnly(s, u.log);
      ActsKeep(u, {k}, acts);
      t := Acts(u, acts);
    }
    LedgerDestroy(t, {k}, k);
    LogOnly(t, t.log + [Destroyed(k)]);
    assert {k} - {k} == {};
  }

  /** Taking the head request off its queue. */
  lemma PopHead(s: State)
    requires Ledger(s, {}) && Sequential(s) && s.requests != []
    ensures var t := s.(requests := s.requests[1..]);
      Ledger(t, {s.requests[0].serial}) && Sequential(t) && !HeadSent(t)
    ensures CmdOk(s.requests[0], s.log)
  {
    var t := s.(requests := s.requests[1..]);
    PopRequest(s, {}, 0);
    NotHeld(s, {}, s.requests[0]);
    assert s.requests[..0] + s.requests[1..] == s.requests[1..];
    assert {} + {s.requests[0].serial} == {s.requests[0].serial};
    assert forall i :: 0 <= i < |t.requests| ==> t.requests[i] == s.requests[i + 1];
  }

  lemma PopHeadResponse(s: State)
    requires Ledger(s, {}) && Sequential(s) && s.responses != []
    ensures var t := s.(responses := s.responses[1..]);
      Ledger(t, {s.responses[0].serial}) && Sequential(t)
    ensures CmdOk(s.responses[0], s.log) && !s.responses[0].sent && s.responses[0].expected == 0
  {
    hide Ledger, CmdOk;
    PopResponse(s, {}, 0);
    assert s.responses[0] in s.responses;
    NotHeld(s, {}, s.responses[0]);
    assert s.responses[..0] + s.responses[1..] == s.responses[1..];
    assert {} + {s.responses[0].serial} == {s.responses[0].serial};
  }

  /** A popped command that was written and needs no answer. */
  lemma WroteAndDone(s: State, c: Cmd)
    requires Ledger(s, {c.serial}) && CmdOk(c, s.log) && !c.sent
    ensures Ledger(s.(log := s.log + [Wrote(c.serial)] + [Destroyed(c.serial)]), {})
  {
    LedgerEffect(s, {c.serial}, Wrote(c.serial));
    LedgerDestroy(s.(log := s.log + [Wrote(c.serial)]), {c.serial}, c.serial);
    assert {c.serial} - {c.serial} == {};
  }

  lemma WriteResponseKeeps(s: State)
    requires Inv(s) && s.writeWatch && !s.stale && s.responses != []
    ensures Inv(CanWrite(s, false, true))
  {
    hide Ledger;
    PopHeadResponse(s);
    WroteAndDone(s.(responses := s.responses[1..]), s.responses[0]);
  }

  /** The ledger looks at the queues, the counters and the log only. */
  lemma SameBooks(s: State, t: State)
    requires t.requests == s.requests && t.responses == s.responses && t.nextSerial == s.nextSerial && t.log == s.log
    ensures forall held :: Ledger(s, held) ==> Ledger(t, held)
  {
  }

  lemma WriteRequestKeeps(s: State)
    requires Inv(s) && s.writeWatch && !s.stale && s.responses == [] && s.requests != [] && !s.requests[0].sent
    ensures Inv(CanWrite(s, false, true))
  {
    hide Ledger;
    var c := s.requests[0];
    PopHead(s);
    if c.expected == 0 {
      WroteAndDone(s.(requests := s.requests[1..]), c);
    } else {
      var d := c.(sent := true);
      LedgerMark(s, {}, d, Wrote(c.serial));
      var t := s.(requests := s.requests[0 := d], log := s.log + [Wrote(c.serial)]);
      SameBooks(t, t.(writeWatch := false, timeoutWatch := true));
      assert forall x :: x in t.requests ==> x == d || x in s.requests;
    }
  }

  lemma CanWriteKeeps(s: State, hup: bool, ioOk: bool)
    requires Inv(s) && s.writeWatch
    ensures Inv(CanWrite(s, hup, ioOk))
  {
    hide Ledger;
    SameBooks(s, s.(writeWatch := false));
    if !s.stale && !hup && ioOk && s.responses != [] {
      WriteResponseKeeps(s);
    } else if !s.stale && !hup && ioOk && s.requests != [] && !s.requests[0].sent {
      WriteRequestKeeps(s);
    } else {
      assert s.responses != [] ==> s.responses[0] in s.responses;
    }
  }

  lemma ReceivedKeeps(s: State, hup: bool, rdOk: bool, opcode: nat, ecode: nat, events: seq<Action>, acts: seq<Action>)
    requires Inv(s)
    requires forall a :: a in events && a.ActSend? ==> a.id == 0
    ensures Inv(Received(s, hup, rdOk, opcode, ecode, events, acts))
  {
    hide Ledger, Acts;
    if !s.stale && !hup {
      if !rdOk {
        SameBooks(s, WakeUp(s));
      } else {
        ActsKeep(s, {}, events);
        var t := Acts(s, events);
        if IsResponse(opcode) {
          var u := t.(timeoutWatch := false);
          SameBooks(t, u);
          if u.requests != [] {
            var c := u.requests[0];
            PopHead(u);
            var v := u.(requests := u.requests[1..]);
            var w := if v.requests != [] || v.responses != [] then WakeUp(v) else v;
            SameBooks(v, w);
            FinishKeeps(w, c, ResultStatus(c, opcode, ecode), acts);
          }
        }
      }
    }
  }

  lemma {:induction false} AbortAllKeeps(s: State, status: nat, scripts: seq<seq<Action>>)
    requires Ledger(s, {}) && Sequential(s)
    ensures var t := AbortAll(s, status, scripts);
      Ledger(t, {}) && Sequential(t) && t.requests == []
    decreases |scripts|, |s.requests|
  {
    hide Ledger, Sequential, Finish;
    if s.requests != [] {
      var c := s.requests[0];
      var t := s.(requests := s.requests[1..]);
      PopHead(s);
      if c.func && scripts != [] {
        FinishKeeps(t, c, status, scripts[0]);
        AbortAllKeeps(Finish(t, c, status, scripts[0]), ATT_ECODE_ABORTED, scripts[1..]);
      } else {
        FinishKeeps(t, c, status, []);
        QuietFinish(t, c, status);
        AbortAllKeeps(Finish(t, c, status, []), ATT_ECODE_ABORTED, scripts);
      }
    }
  }

  lemma TimeoutKeeps(s: State, scripts: seq<seq<Action>>)
    requires Inv(s)
    ensures var t := Timeout(s, scripts);
      Inv(t) && t.requests == [] && t.stale
  {
    hide Ledger;
    AbortAllKeeps(s, ATT_ECODE_TIMEOUT, scripts);
    var t := AbortAll(s, ATT_ECODE_TIMEOUT, scripts);
    SameBooks(t, t.(stale := true));
  }

  /** Nonzero ids are passed from result callbacks only, or with responses, whose order they do not change. */
  predicate Allowed(e: Event) {
    match e
    case EvAct(a) => a.ActSend? && !IsResponse(a.opcode) ==> a.id == 0
    case EvReceived(_, _, _, _, events, _) => forall a :: a in events && a.ActSend? ==> a.id == 0
    case EvCanWrite(_, _) => true
    case EvTimeout(_) => true
  }

  lemma StepKeeps(s: State, e: Event)
    requires Inv(s) && Allowed(e)
    ensures Inv(Step(s, e))
  {
    hide Ledger, Sequential, Act, CanWrite, Received, Timeout;
    match e {
      case EvAct(a) =>
        ActKeeps(s, {}, a);
      case EvCanWrite(hup, ioOk) =>
        if s.writeWatch { CanWriteKeeps(s, hup, ioOk); }
      case EvReceived(hup, rdOk, op, ecode, events, acts) =>
        ReceivedKeeps(s, hup, rdOk, op, ecode, events, acts);
      case EvTimeout(scripts) =>
        if s.timeoutWatch && !s.stale { TimeoutKeeps(s, scripts); }
    }
  }

  /** Over every run: one outstanding request at most, no lost wakeup, the timer, and the books. */
  lemma {:induction false} RunKeeps(s: State, es: seq<Event>)
    requires Inv(s) && forall e :: e in es ==> Allowed(e)
    ensures Inv(Run(s, es))
    decreases |es|
  {
    hide Inv, Step;
    if es != [] {
      assert es[0] in es;
      StepKeeps(s, es[0]);
      RunKeeps(Step(s, es[0]), es[1..]);
    }
  }

  lemma InitInv()
    ensures Inv(INIT) && Awake(INIT)
  {
  }

  // ----- wake-ups -----

  /** The write watch fires in vain: the channel is gone or refuses the PDU while something waits to be written. */
  predicate Loses(s: State, e: Event) {
    e.EvCanWrite? && (e.hup || !e.ioOk) && s.writeWatch && !s.stale && Pending(s)
  }

  /** Exactly then does a write leave work behind with no watch armed. */
  lemma CanWriteAwake(s: State, hup: bool, ioOk: bool)
    requires Inv(s) && Awake(s) && s.writeWatch
    ensures Awake(CanWrite(s, hup, ioOk)) <==> !Loses(s, EvCanWrite(hup, ioOk))
  {
    hide Ledger;
    if s.responses != [] {
      assert s.responses[0] in s.responses;
    }
  }

  lemma AnswerAwake(s: State, opcode: nat, ecode: nat, acts: seq<Action>)
    requires Ledger(s, {}) && Sequential(s) && s.requests != []
    ensures Awake(Answer(s, opcode, ecode, acts))
  {
    hide Ledger, Finish;
    var u := s.(timeoutWatch := false);
    SameBooks(s, u);
    PopHead(u);
    var v := u.(requests := u.requests[1..]);
    var w := if v.requests != [] || v.responses != [] then WakeUp(v) else v;
    SameBooks(v, w);
    FinishKeeps(w, u.requests[0], ResultStatus(u.requests[0], opcode, ecode), acts);
  }

  lemma ReceivedAwake(s: State, hup: bool, rdOk: bool, opcode: nat, ecode: nat, events: seq<Action>, acts: seq<Action>)
    requires Inv(s) && Awake(s) && forall a :: a in events && a.ActSend? ==> a.id == 0
    ensures Awake(Received(s, hup, rdOk, opcode, ecode, events, acts))
  {
    hide Ledger, Acts, Finish;
    if !s.stale && !hup && rdOk {
      ActsKeep(s, {}, events);
      var t := Acts(s, events);
      if IsResponse(opcode) && t.requests != [] {
        AnswerAwake(t, opcode, ecode, acts);
      }
    }
  }

  /** A response that finishes a request, or a failed read, wakes the sender even if a wake-up had been lost. */
  lemma ReadWakes(s: State, rdOk: bool, opcode: nat, ecode: nat, events: seq<Action>, acts: seq<Action>)
    requires Inv(s) && !s.stale && forall a :: a in events && a.ActSend? ==> a.id == 0
    requires rdOk ==> IsResponse(opcode) && Acts(s, events).requests != []
    ensures Awake(Received(s, false, rdOk, opcode, ecode, events, acts))
  {
    hide Ledger, Acts, Answer;
    if rdOk {
      ActsKeep(s, {}, events);
      AnswerAwake(Acts(s, events), opcode, ecode, acts);
    }
  }

  lemma StepAwake(s: State, e: Event)
    requires Inv(s) && Awake(s) && Allowed(e)
    ensures Awake(Step(s, e)) <==> !Loses(s, e)
  {
    hide Ledger, Sequential, Act, CanWrite, Received, AbortAll;
    match e {
      case EvAct(a) => ActKeeps(s, {}, a);
      case EvCanWrite(hup, ioOk) => if s.writeWatch { CanWriteAwake(s, hup, ioOk); }
      case EvReceived(hup, rdOk, op, ecode, events, acts) => ReceivedAwake(s, hup, rdOk, op, ecode, events, acts);
      case EvTimeout(_) =>
    }
  }

  /** In every state of the run, work waiting to be written means that the write watch is armed. */
  predicate AlwaysAwake(s: State, es: seq<Event>)
    decreases |es|
  {
    Awake(s) && (es != [] ==> AlwaysAwake(Step(s, es[0]), es[1..]))
  }

  /** At no step of the run does the write watch fire in vain. */
  predicate NoneLost(s: State, es: seq<Event>)
    decreases |es|
  {
    es != [] ==> !Loses(s, es[0]) && NoneLost(Step(s, es[0]), es[1..])
  }

  lemma {:induction false} AwakeExactly(s: State, es: seq<Event>)
    requires Inv(s) && Awake(s) && forall e :: e in es ==> Allowed(e)
    ensures AlwaysAwake(s, es) <==> NoneLost(s, es)
    ensures NoneLost(s, es) ==> Awake(Run(s, es))
    decreases |es|
  {
    hide Inv, Awake, Step, Loses, Allowed;
    if es != [] {
      assert es[0] in es;
      StepKeeps(s, es[0]);
      StepAwake(s, es[0]);
      if Awake(Step(s, es[0])) {
        AwakeExactly(Step(s, es[0]), es[1..]);
      }
    }
  }

  /** No wake-up is lost in a run if and only if the write watch never fires in vain. */
  lemma NoLostWakeup(es: seq<Event>)
    requires forall e :: e in es ==> Allowed(e)
    ensures AlwaysAwake(INIT, es) <==> NoneLost(INIT, es)
  {
    InitInv();
    AwakeExactly(INIT, es);
  }

  /** Sections 3.3.2 and 3.3.3 of Volume 3 Part F of the Bluetooth Core Specification, over every run. */
  lemma OneOutstanding(es: seq<Event>, c: Cmd)
    requires forall e :: e in es ==> Allowed(e)
    ensures var s := Run(INIT, es);
      && (Holds(s, c) && c.sent ==> HeadSent(s) && c == s.requests[0])
      && (!s.stale ==> (s.timeoutWatch <==> HeadSent(s)))
      && (NoneLost(INIT, es) ==> Awake(s))
  {
    hide Ledger, Run;
    InitInv();
    RunKeeps(INIT, es);
    AwakeExactly(INIT, es);
    var s := Run(INIT, es);
    if c in s.requests && c.sent {
      var i :| 0 <= i < |s.requests| && s.requests[i] == c;
    }
  }

  /**
   Conservation over every run: an accepted command is queued in exactly one place or has been
   destroyed, and never both; it is destroyed once, written once at most, called back once at most
   and not after a cancel.
   */
  lemma Conserved(es: seq<Event>, k: nat)
    requires forall e :: e in es ==> Allowed(e)
    ensures var s := Run(INIT, es);
      && (k < s.nextSerial ==> (Queued(s, k) <==> Destroyed(k) !in s.log))
      && (Queued(s, k) ==>
            !((exists c :: c in s.requests && c.serial == k) && (exists c :: c in s.responses && c.serial == k)))
      && (Queued(s, k) ==> NotCalled(s.log, k))
      && LogOk(s.log)
  {
    hide Run;
    InitInv();
    RunKeeps(INIT, es);
  }

  /** Pushing to the front is safe exactly when no request is outstanding. */
  lemma SafeActExactly(s: State, a: Action)
    requires Inv(s)
    ensures SafeAct(s, a) <==> Sequential(Act(s, a))
  {
    hide Ledger;
    if SafeAct(s, a) {
      ActKeeps(s, {}, a);
    } else {
      var t := Act(s, a);
      assert t.requests[1] == s.requests[0];
    }
  }

  /** With the channel unwritable once, a queued request can stay unsent with no watch armed. */
  lemma FailedWriteStalls()
    ensures var s := Run(INIT, [EvAct(ActSend(0, ATT_OP_READ_REQ, true)), EvCanWrite(false, false)]);
      Pending(s) && !s.writeWatch && !s.stale
  {
    var e1, e2 := EvAct(ActSend(0, ATT_OP_READ_REQ, true)), EvCanWrite(false, false);
    var t := Step(Step(INIT, e1), e2);
    assert [e1, e2][1..] == [e2] && [e2][1..] == [];
    assert Run(t, []) == t && Run(Step(INIT, e1), [e2]) == t;
  }

  function FinishLog(c: Cmd, status: nat): seq<Effect> {
    if c.func then [Called(c.serial, status), Destroyed(c.serial)] else [Destroyed(c.serial)]
  }

  /** What the callbacks of the queued requests are told, in order. */
  function TimeoutLog(q: seq<Cmd>, status: nat): seq<Effect> {
    if q == [] then []
    else FinishLog(q[0], status) + TimeoutLog(q[1..], 0x82)
  }

  lemma FinishQuietly(s: State, c: Cmd, status: nat)
    ensures Finish(s, c, status, []) == s.(log := s.log + FinishLog(c, status))
  {
    var u := s.(log := s.log + [Called(c.serial, status)]);
    assert Acts(u, []) == u;
    if c.func {
      assert (s.log + [Called(c.serial, status)]) + [Destroyed(c.serial)] == s.log + FinishLog(c, status);
    }
  }

  /** The first request is told TIMEOUT, the others ABORTED, in queue order. */
  lemma {:induction false} TimeoutDelivers(s: State, status: nat)
    ensures AbortAll(s, status, []) == s.(requests := [], log := s.log + TimeoutLog(s.requests, status))
    decreases |s.requests|
  {
    hide Finish;
    if s.requests == [] {
      assert s.log + TimeoutLog(s.requests, status) == s.log;
    } else {
      var c := s.requests[0];
      var t := s.(requests := s.requests[1..]);
      FinishQuietly(t, c, status);
      var h := FinishLog(c, status);
      TimeoutDelivers(t.(log := s.log + h), ATT_ECODE_ABORTED);
      assert (s.log + h) + TimeoutLog(s.requests[1..], 0x82) == s.log + TimeoutLog(s.requests, status);
    }
  }

  lemma DestroyFirst(log: seq<Effect>, q: seq<Cmd>)
    requires q != []
    ensures (log + [Destroyed(q[0].serial)]) + DestroyEach(q[1..]) == log + DestroyEach(q)
  {
    assert log + ([Destroyed(q[0].serial)] + DestroyEach(q[1..]))
      == (log + [Destroyed(q[0].serial)]) + DestroyEach(q[1..]);
  }

  lemma {:induction false} DestroyResponses(s: State)
    requires Ledger(s, {})
    ensures Ledger(s.(responses := [], log := s.log + DestroyEach(s.responses)), {})
    decreases |s.responses|
  {
    hide Ledger;
    if s.responses == [] {
      assert s.log + DestroyEach(s.responses) == s.log;
    } else {
      var c := s.responses[0];
      hide DestroyEach;
      PopResponse(s, {}, 0);
      var q := s.responses[1..];
      assert s.responses[..0] + q == q;
      assert {} + {c.serial} == {c.serial} && {c.serial} - {c.serial} == {};
      LedgerDestroy(s.(responses := q), {c.serial}, c.serial);
      DestroyResponses(s.(responses := q, log := s.log + [Destroyed(c.serial)]));
      DestroyFirst(s.log, s.responses);
    }
  }

  lemma {:induction false} DestroyRequests(s: State)
    requires Ledger(s, {})
    ensures Ledger(s.(requests := [], log := s.log + DestroyEach(s.requests)), {})
    decreases |s.requests|
  {
    hide Ledger;
    if s.requests == [] {
      assert s.log + DestroyEach(s.requests) == s.log;
    } else {
      var c := s.requests[0];
      PopRequest(s, {}, 0);
      var q := s.requests[..0] + s.requests[1..];
      assert {} + {c.serial} == {c.serial} && {c.serial} - {c.serial} == {};
      LedgerDestroy(s.(requests := q), {c.serial}, c.serial);
      DestroyRequests(s.(requests := q, log := s.log + [Destroyed(c.serial)]));
      assert q == s.requests[1..];
      assert (s.log + [Destroyed(c.serial)]) + DestroyEach(q) == s.log + DestroyEach(s.requests);
    }
  }

  lemma AllDestroyed(s: State)
    requires Ledger(s, {}) && s.requests == [] && s.responses == []
    ensures LogOk(s.log) && forall k: nat :: k < s.nextSerial ==> Destroyed(k) in s.log
  {
  }

  /** Destroying the transport leaves every accepted command destroyed exactly once. */
  lemma DestroyFinishes(s: State)
    requires Inv(s)
    ensures var t := Destroy(s);
      LogOk(t.log) && forall k: nat :: k < t.nextSerial ==> Destroyed(k) in t.log
  {
    hide Ledger;
    DestroyRequests(s);
    var t := s.(requests := [], log := s.log + DestroyEach(s.requests));
    DestroyResponses(t);
    AllDestroyed(Destroy(s));
  }
}

/** The ATT transport object: two queues of commands, two watches and a stale flag, updated in place. */
module GAttrib {
  import opened AttCodes
  import Spec = AttribSpec

  class Command {
    ghost const serial: nat
    const id: nat
    const opcode: nat
    const expected: nat
    var sent: bool
    var func: bool  // the result callback is set

    constructor (ghost serial: nat, id: nat, opcode: nat, func: bool)
      ensures Val() == Spec.Cmd(serial, id, opcode, Spec.OpcodeToExpected(opcode), false, func)
    {
      this.serial, this.id, this.opcode, this.func := serial, id, opcode, func;
      expected := Spec.OpcodeToExpected(opcode);
      sent := false;
    }

    ghost function Val(): Spec.Cmd
      reads this
    {
      Spec.Cmd(serial, id, opcode, expected, sent, func)
    }
  }

  ghost function Vals(q: seq<Command>): (r: seq<Spec.Cmd>)
    reads q
    ensures |r| == |q| && forall i :: 0 <= i < |q| ==> r[i] == q[i].Val()
  {
    seq(|q|, i requires 0 <= i < |q| reads q => q[i].Val())
  }

  ghost predicate Distinct(q: seq<Command>) {
    forall i, j :: 0 <= i < j < |q| ==> q[i] != q[j]
  }

  lemma ValsConcat(p: seq<Command>, q: seq<Command>)
    ensures Vals(p + q) == Vals(p) + Vals(q)
  {
  }

  lemma DistinctGrow(q: seq<Command>, c: Command)
    requires Distinct(q) && c !in q
    ensures Distinct(q + [c]) && Distinct([c] + q)
  {
    assert forall i :: 0 <= i < |q| ==> q[i] in q && ([c] + q)[i + 1] == q[i];
  }

  lemma OthersDiffer(q: seq<Command>, n: nat)
    requires Distinct(q) && n < |q|
    ensures forall j :: n < j < |q| ==> q[j] != q[n]
  {
  }

  lemma DistinctOne(c: Command?)
    ensures Distinct([]) && (c != null ==> Distinct([c]))
  {
  }

  lemma ValsOne(c: Command)
    ensures Vals([c]) == [c.Val()]
  {
  }

  lemma {:induction false} FirstWithId(q: seq<Spec.Cmd>, id: nat, i: nat)
    requires i <= |q| && (forall j :: 0 <= j < i ==> q[j].id != id) && (i < |q| ==> q[i].id == id)
    ensures i == Spec.FindId(q, id)
  {
    if i > 0 {
      FirstWithId(q[1..], id, i - 1);
    }
  }

  /** g_queue_find_custom with command_cmp_by_id: the position of the first command with the id. */
  method FindCustom(q: seq<Command>, id: nat) returns (i: nat)
    ensures i == Spec.FindId(Vals(q), id)
  {
    i := 0;
    while i < |q|
      invariant 0 <= i <= |q|
      invariant forall j :: 0 <= j < i ==> q[j].id != id
    {
      if q[i].id == id {
        break;
      }
      i := i + 1;
    }
    FirstWithId(Vals(q), id, i);
  }

  lemma AbortOne(s: Spec.State, status: nat, scripts: seq<seq<Spec.Action>>)
    ensures s.requests == [] ==> Spec.AbortAll(s, status, scripts) == s
    ensures s.requests != [] ==>
      var c, t := s.requests[0], s.(requests := s.requests[1..]);
      Spec.AbortAll(s, status, scripts) ==
        if c.func && scripts != [] then
          Spec.AbortAll(Spec.Finish(t, c, status, scripts[0]), ATT_ECODE_ABORTED, scripts[1..])
        else Spec.AbortAll(Spec.Finish(t, c, status, []), ATT_ECODE_ABORTED, scripts)
  {
    hide Spec.Finish;
  }

  lemma DestroyOneRequest(s: Spec.State)
    requires s.requests != []
    ensures Spec.Destroy(s) ==
      Spec.Destroy(s.(requests := s.requests[1..], log := s.log + [Spec.Destroyed(s.requests[0].serial)]))
  {
    var d, e := [Spec.Destroyed(s.requests[0].serial)], Spec.DestroyEach(s.requests[1..]);
    var f := Spec.DestroyEach(s.responses);
    assert s.log + (d + e) + f == (s.log + d) + e + f;
  }

  lemma DestroyOneResponse(s: Spec.State)
    requires s.requests == [] && s.responses != []
    ensures Spec.Destroy(s) ==
      Spec.Destroy(s.(responses := s.responses[1..], log := s.log + [Spec.Destroyed(s.responses[0].serial)]))
  {
    var d, f := [Spec.Destroyed(s.responses[0].serial)], Spec.DestroyEach(s.responses[1..]);
    assert s.log + [] + (d + f) == (s.log + d) + [] + f;
  }

  lemma DestroyNothing(s: Spec.State)
    requires s.requests == [] && s.responses == []
    ensures Spec.Destroy(s) == s
  {
    assert s.log + [] + [] == s.log;
  }

  lemma ValsTail(q: seq<Command>)
    requires q != [] && Distinct(q)
    ensures Vals(q[1..]) == Vals(q)[1..] && Distinct(q[1..])
  {
  }

  /** The effects of cancel_all_per_queue after n commands. */
  ghost function Dropped(v: seq<Spec.Cmd>, n: nat): seq<Spec.Effect>
    requires n <= |v|
  {
    var k := Spec.LeadSent(v);
    if n <= k then Spec.MarkAll(v[..n]) else Spec.MarkAll(v[..k]) + Spec.DropAll(v[k..n])
  }

  lemma DropNil()
    ensures Spec.DropAll([]) == []
  {
  }

  lemma DroppedNone(v: seq<Spec.Cmd>)
    ensures Dropped(v, 0) == []
  {
  }

  lemma {:induction false} DropSnoc(q: seq<Spec.Cmd>, c: Spec.Cmd)
    ensures Spec.DropAll(q + [c]) == Spec.DropAll(q) + [Spec.Cancelled(c.serial), Spec.Destroyed(c.serial)]
    ensures Spec.MarkAll(q + [c]) == Spec.MarkAll(q) + [Spec.Cancelled(c.serial)]
  {
    if q == [] {
      assert q + [c] == [c] && [c][1..] == [];
    } else {
      assert (q + [c])[1..] == q[1..] + [c];
      DropSnoc(q[1..], c);
    }
  }

  lemma DropOneMore(v: seq<Spec.Cmd>, k: nat, n: nat, m: seq<Spec.Effect>)
    requires k <= n < |v|
    ensures m + Spec.DropAll(v[k..n + 1]) ==
      (m + Spec.DropAll(v[k..n])) + [Spec.Cancelled(v[n].serial), Spec.Destroyed(v[n].serial)]
  {
    hide Spec.DropAll;
    assert v[k..n + 1] == v[k..n] + [v[n]];
    DropSnoc(v[k..n], v[n]);
  }

  lemma DroppedLead(v: seq<Spec.Cmd>, n: nat)
    requires n < Spec.LeadSent(v)
    ensures Dropped(v, n + 1) == Dropped(v, n) + [Spec.Cancelled(v[n].serial)]
  {
    hide Spec.DropAll, Spec.MarkAll, Spec.LeadSent;
    assert v[..n + 1] == v[..n] + [v[n]];
    DropSnoc(v[..n], v[n]);
  }

  lemma DroppedAfter(v: seq<Spec.Cmd>, n: nat)
    requires Spec.LeadSent(v) <= n <= |v|
    ensures var k := Spec.LeadSent(v);
      Dropped(v, n) == Spec.MarkAll(v[..k]) + Spec.DropAll(v[k..n])
  {
    var k := Spec.LeadSent(v);
    if n == k {
      DropNil();
      assert v[k..n] == [];
    }
  }

  lemma DroppedStep(v: seq<Spec.Cmd>, n: nat)
    requires n < |v|
    ensures Dropped(v, n + 1) == Dropped(v, n) +
      if n < Spec.LeadSent(v) then [Spec.Cancelled(v[n].serial)]
      else [Spec.Cancelled(v[n].serial), Spec.Destroyed(v[n].serial)]
  {
    hide Spec.DropAll, Spec.MarkAll, Spec.LeadSent, Dropped;
    var k := Spec.LeadSent(v);
    if n < k {
      DroppedLead(v, n);
    } else {
      DropOneMore(v, k, n, Spec.MarkAll(v[..k]));
      DroppedAfter(v, n);
      DroppedAfter(v, n + 1);
    }
  }

  lemma DroppedAll(v: seq<Spec.Cmd>)
    ensures Dropped(v, |v|) == Spec.CancelQueue(v).1
  {
    var k := Spec.LeadSent(v);
    assert v[k..|v|] == v[k..];
    assert k == |v| ==> v[k..] == [] && Spec.DropAll([]) == [];
  }

  lemma ValsRemove(q: seq<Command>, i: nat)
    requires i < |q| && Distinct(q)
    ensures Vals(q[..i] + q[i + 1..]) == Vals(q)[..i] + Vals(q)[i + 1..]
    ensures Distinct(q[..i] + q[i + 1..])
  {
    var r := q[..i] + q[i + 1..];
    assert forall j :: 0 <= j < |r| ==> r[j] == q[if j < i then j else j + 1];
  }

  class GAttrib {
    var requests: seq<Command>
    var responses: seq<Command>
    var nextCmdId: nat
    var writeWatch: bool
    var timeoutWatch: bool
    var stale: bool

    ghost var nextSerial: nat
    ghost var log: seq<Spec.Effect>
    ghost var cmds: set<Command>  // every command this object ever created

    ghost predicate Valid()
      reads `requests, `responses, `cmds
    {
      && Distinct(requests) && Distinct(responses)
      && (forall c :: c in requests ==> c in cmds && c !in responses)
      && (forall c :: c in responses ==> c in cmds)
    }

    ghost function Abs(): Spec.State
      reads this, requests, responses
    {
      Spec.State(Vals(requests), Vals(responses), nextCmdId, nextSerial, writeWatch, timeoutWatch, stale, log)
    }

    constructor ()
      ensures Valid() && Abs() == Spec.INIT && fresh(cmds)
    {
      requests, responses, nextCmdId := [], [], 0;
      writeWatch, timeoutWatch, stale := false, false, false;
      nextSerial, log, cmds := 0, [], {};
    }

    method WakeUpSender()
      requires Valid()
      modifies `writeWatch
      ensures Valid() && Abs() == Spec.WakeUp(old(Abs()))
    {
      if writeWatch {
        return;
      }
      writeWatch := true;
    }

    /** command_destroy: runs the destroy notify. */
    method CommandDestroy(cmd: Command)
      modifies `log
      ensures log == old(log) + [Spec.Destroyed(cmd.serial)]
    {
      log := log + [Spec.Destroyed(cmd.serial)];
    }

    /** Put a new command on the queue its opcode selects: responses are never reordered. */
    method Enqueue(c: Command, atHead: bool) returns (length: nat)
      requires Valid() && c !in cmds
      modifies `requests, `responses, `cmds
      ensures Valid() && cmds == old(cmds) + {c}
      ensures Abs() == if Spec.IsResponse(c.opcode)
        then old(Abs()).(responses := old(Abs()).responses + [c.Val()])
        else old(Abs()).(
          requests := if atHead then [c.Val()] + old(Abs()).requests else old(Abs()).requests + [c.Val()])
      ensures length == if Spec.IsResponse(c.opcode) then |Abs().responses| else |Abs().requests|
    {
      hide Spec.IsResponse, Distinct, Vals;
      cmds := cmds + {c};
      ValsOne(c);
      if Spec.IsResponse(c.opcode) {
        ValsConcat(responses, [c]);
        DistinctGrow(responses, c);
        responses := responses + [c];
        length := |responses|;
      } else if atHead {
        ValsConcat([c], requests);
        DistinctGrow(requests, c);
        requests := [c] + requests;
        length := |requests|;
      } else {
        ValsConcat(requests, [c]);
        DistinctGrow(requests, c);
        requests := requests + [c];
        length := |requests|;
      }
    }

    /** Allocate a command with the next serial and, when the caller gives none, the next id. */
    method NewCommand(id: nat, opcode: nat, func: bool) returns (c: Command)
      requires Valid()
      modifies `nextSerial, `nextCmdId
      ensures fresh(c) && c !in cmds
      ensures c.Val() == Spec.Cmd(old(nextSerial), if id != 0 then id else old(nextCmdId) + 1, opcode,
                                  Spec.OpcodeToExpected(opcode), false, func)
      ensures Abs() == old(Abs()).(nextSerial := old(nextSerial) + 1,
                                   nextId := if id != 0 then old(nextCmdId) else old(nextCmdId) + 1)
    {
      c := new Command(nextSerial, if id != 0 then id else nextCmdId + 1, opcode, func);
      nextSerial := nextSerial + 1;
      if id == 0 {
        nextCmdId := nextCmdId + 1;
      }
      assert Vals(requests) == old(Vals(requests)) && Vals(responses) == old(Vals(responses));
    }

    /** g_attrib_send. */
    method Send(id: nat, opcode: nat, func: bool) returns (ret: nat)
      requires Valid()
      modifies this
      ensures Valid() && (Abs(), ret) == Spec.Send(old(Abs()), id, opcode, func)
      ensures fresh(cmds - old(cmds)) && old(cmds) <= cmds
    {
      hide Spec.OpcodeToExpected, Spec.IsResponse, Valid, Vals;
      if stale {
        return 0;
      }
      var c := NewCommand(id, opcode, func);
      var length := Enqueue(c, id != 0);
      if length == 1 {
        WakeUpSender();
      }
      return c.id;
    }

    /** Drop the callback of a sent head, or remove and destroy the i-th command. */
    method CancelAt(q: seq<Command>, i: nat) returns (q': seq<Command>)
      requires i < |q| && Distinct(q)
      modifies {q[i]}`func, `log
      ensures Vals(q') == Spec.CancelAt(old(Vals(q)), i).0
      ensures log == old(log) + Spec.CancelAt(old(Vals(q)), i).1
      ensures Distinct(q') && forall c :: c in q' ==> c in q
    {
      var cmd := q[i];
      ghost var v := Vals(q);
      log := log + [Spec.Cancelled(cmd.serial)];
      if cmd == q[0] && cmd.sent {
        cmd.func := false;
        q' := q;
        assert Vals(q) == v[0 := v[0].(func := false)];
      } else {
        q' := q[..i] + q[i + 1..];
        ValsRemove(q, i);
        CommandDestroy(cmd);
        assert Vals(q') == v[..i] + v[i + 1..];
        assert log == old(log) + [Spec.Cancelled(cmd.serial), Spec.Destroyed(cmd.serial)];
      }
    }

    /** Cancel the i-th request. */
    method CancelRequest(i: nat)
      requires Valid() && i < |requests|
      modifies `requests, `log, {requests[i]}`func
      ensures Valid()
      ensures var s := old(Abs());
        Abs() == s.(requests := Spec.CancelAt(s.requests, i).0, log := s.log + Spec.CancelAt(s.requests, i).1)
    {
      hide Vals, Distinct, Spec.CancelAt;
      ghost var rs := Vals(responses);
      assert requests[i] in requests && requests[i] !in responses;
      requests := CancelAt(requests, i);
      assert Vals(responses) == rs;
    }

    method CancelResponse(i: nat)
      requires Valid() && i < |responses|
      modifies `responses, `log, {responses[i]}`func
      ensures Valid()
      ensures var s := old(Abs());
        Abs() == s.(responses := Spec.CancelAt(s.responses, i).0, log := s.log + Spec.CancelAt(s.responses, i).1)
    {
      hide Vals, Distinct, Spec.CancelAt;
      ghost var vs := Vals(requests);
      assert responses[i] in responses && responses[i] !in requests;
      responses := CancelAt(responses, i);
      assert Vals(requests) == vs;
    }

    /** g_attrib_cancel. */
    method Cancel(id: nat) returns (found: bool)
      requires Valid()
      modifies `requests, `responses, `log, cmds`func
      ensures Valid() && (Abs(), found) == Spec.CancelId(old(Abs()), id)
    {
      hide Vals, Distinct, Spec.CancelAt, Spec.FindId;
      var i := FindCustom(requests, id);
      if i < |requests| {
        assert requests[i] in requests;
        CancelRequest(i);
        return true;
      }
      i := FindCustom(responses, id);
      if i == |responses| {
        return false;
      }
      assert responses[i] in responses;
      CancelResponse(i);
      return true;
    }

    /** The destroy of a command that a cancel takes out. */
    method CancelDestroy(cmd: Command)
      modifies `log
      ensures log == old(log) + [Spec.Cancelled(cmd.serial), Spec.Destroyed(cmd.serial)]
    {
      log := log + [Spec.Cancelled(cmd.serial)];
      CommandDestroy(cmd);
    }

    /** cancel_all_per_queue: pop everything; a sent head loses its callback and goes back. */
    method CancelAllPerQueue(queue: seq<Command>) returns (q': seq<Command>)
      requires Distinct(queue)
      modifies `log, queue`func
      ensures Vals(q') == Spec.CancelQueue(old(Vals(queue))).0
      ensures log == old(log) + Spec.CancelQueue(old(Vals(queue))).1
      ensures Distinct(q') && forall c :: c in q' ==> c in queue
    {
      hide Spec.DropAll, Spec.MarkAll, Spec.LeadSent, Dropped, Vals, Distinct;
      ghost var v := Vals(queue);
      ghost var k := Spec.LeadSent(v);
      ghost var l := log;
      var head: Command? := null;
      var first := true;
      var rest := queue;
      ghost var n := 0;
      DroppedNone(v);
      while rest != []
        invariant n <= |queue| && rest == queue[n..] && (first <==> n <= k)
        invariant forall j :: n <= j < |queue| ==> queue[j].Val() == v[j]
        invariant head == if n == 0 || k == 0 then null else queue[(if n <= k then n else k) - 1]
        invariant head != null ==> head.Val() == v[(if n <= k then n else k) - 1].(func := false)
        invariant log == l + Dropped(v, n)
        decreases |rest|
      {
        var c := rest[0];
        assert c == queue[n] && c.Val() == v[n];
        OthersDiffer(queue, n);
        rest := rest[1..];
        if first && c.sent {
          log := log + [Spec.Cancelled(c.serial)];
          c.func := false;
          head := c;
        } else {
          first := false;
          CancelDestroy(c);
        }
        DroppedStep(v, n);
        n := n + 1;
      }
      DroppedAll(v);
      DistinctOne(head);
      q' := if head != null then [head] else [];
    }

    method CancelRequests()
      requires Valid()
      modifies `requests, `log, cmds`func
      ensures Valid()
      ensures var s, (q, es) := old(Abs()), Spec.CancelQueue(old(Abs()).requests);
        Abs() == s.(requests := q, log := s.log + es)
    {
      hide Distinct, Spec.CancelQueue;
      ghost var rs := Vals(responses);
      assert forall j :: 0 <= j < |responses| ==> responses[j] in responses && responses[j] !in requests;
      requests := CancelAllPerQueue(requests);
      assert Vals(responses) == rs;
    }

    method CancelResponses()
      requires Valid()
      modifies `responses, `log, cmds`func
      ensures Valid()
      ensures var s, (q, es) := old(Abs()), Spec.CancelQueue(old(Abs()).responses);
        Abs() == s.(responses := q, log := s.log + es)
    {
      hide Distinct, Spec.CancelQueue;
      ghost var qs := Vals(requests);
      assert forall j :: 0 <= j < |requests| ==> requests[j] in requests && requests[j] !in responses;
      responses := CancelAllPerQueue(responses);
      assert Vals(requests) == qs;
    }

    /** g_attrib_cancel_all. */
    method CancelAll()
      requires Valid()
      modifies `requests, `responses, `log, cmds`func
      ensures Valid() && Abs() == Spec.CancelEvery(old(Abs()))
    {
      hide Vals, Valid, Spec.CancelQueue;
      CancelRequests();
      CancelResponses();
    }

    /** What user code does from inside a callback: calls back into this object. */
    method Perform(a: Spec.Action)
      requires Valid()
      modifies this, cmds
      ensures Valid() && Abs() == Spec.Act(old(Abs()), a)
      ensures fresh(cmds - old(cmds)) && old(cmds) <= cmds
    {
      hide Valid, Spec.Send, Spec.CancelId, Spec.CancelEvery, Vals;
      match a {
        case ActSend(id, opcode, func) =>
          var _ := Send(id, opcode, func);
        case ActCancel(id) =>
          var _ := Cancel(id);
        case ActCancelAll =>
          CancelAll();
      }
    }

    method PerformAll(acts: seq<Spec.Action>)
      requires Valid()
      modifies this, cmds
      ensures Valid() && Abs() == Spec.Acts(old(Abs()), acts)
      ensures fresh(cmds - old(cmds)) && old(cmds) <= cmds
    {
      hide Valid, Spec.Act, Vals, Abs;
      ghost var s := Abs();
      assert acts[0..] == acts;
      for i := 0 to |acts|
        invariant Valid() && Spec.Acts(Abs(), acts[i..]) == Spec.Acts(s, acts)
        invariant fresh(cmds - old(cmds)) && old(cmds) <= cmds
      {
        assert acts[i..][1..] == acts[i + 1..];
        Perform(acts[i]);
      }
      assert acts[|acts|..] == [];
    }

    method MarkSent(cmd: Command, ghost q: seq<Command>, ghost other: seq<Command>)
      requires q != [] && cmd == q[0] && Distinct(q) && cmd !in other
      modifies {cmd}`sent
      ensures Vals(q) == old(Vals(q))[0 := old(Vals(q))[0].(sent := true)]
      ensures Vals(other) == old(Vals(other))
    {
      cmd.sent := true;
    }

    /** g_queue_pop_head on the requests. */
    method PopRequest() returns (c: Command)
      requires Valid() && requests != []
      modifies `requests
      ensures Valid() && c in cmds && c == old(requests[0])
      ensures Abs() == old(Abs()).(requests := old(Abs()).requests[1..]) && c.Val() == old(Abs()).requests[0]
    {
      c := requests[0];
      ValsTail(requests);
      requests := requests[1..];
    }

    /** g_queue_pop_head on the responses. */
    method PopResponse() returns (c: Command)
      requires Valid() && responses != []
      modifies `responses
      ensures Valid() && c in cmds && c == old(responses[0])
      ensures Abs() == old(Abs()).(responses := old(Abs()).responses[1..]) && c.Val() == old(Abs()).responses[0]
    {
      c := responses[0];
      ValsTail(responses);
      responses := responses[1..];
    }

    method RequestSent()
      requires Valid() && requests != []
      modifies `log, `timeoutWatch, {requests[0]}`sent
      ensures var s := old(Abs()); var c := s.requests[0];
        Abs() == s.(requests := s.requests[0 := c.(sent := true)], timeoutWatch := true,
          log := s.log + [Spec.Wrote(c.serial)])
    {
      hide Vals, Distinct;
      var cmd := requests[0];
      assert cmd in requests && cmd !in responses;
      log := log + [Spec.Wrote(cmd.serial)];
      MarkSent(cmd, requests, responses);
      if !timeoutWatch {
        timeoutWatch := true;
      }
    }

    method ResponseSent()
      requires Valid() && responses != []
      modifies `log, `timeoutWatch, {responses[0]}`sent
      ensures var s := old(Abs()); var c := s.responses[0];
        Abs() == s.(responses := s.responses[0 := c.(sent := true)], timeoutWatch := true,
          log := s.log + [Spec.Wrote(c.serial)])
    {
      hide Vals, Distinct;
      var cmd := responses[0];
      assert cmd in responses && cmd !in requests;
      log := log + [Spec.Wrote(cmd.serial)];
      MarkSent(cmd, responses, requests);
      if !timeoutWatch {
        timeoutWatch := true;
      }
    }

    method WrittenRequest()
      requires Valid() && requests != []
      modifies `requests, `log
      ensures Valid()
      ensures var s, k := old(Abs()), old(requests[0].serial);
        Abs() == s.(requests := s.requests[1..], log := s.log + [Spec.Wrote(k)] + [Spec.Destroyed(k)])
    {
      hide Vals, Valid;
      var c := PopRequest();
      log := log + [Spec.Wrote(c.serial)];
      CommandDestroy(c);
    }

    method WrittenResponse()
      requires Valid() && responses != []
      modifies `responses, `log
      ensures Valid()
      ensures var s, k := old(Abs()), old(responses[0].serial);
        Abs() == s.(responses := s.responses[1..], log := s.log + [Spec.Wrote(k)] + [Spec.Destroyed(k)])
    {
      hide Vals, Valid;
      var c := PopResponse();
      log := log + [Spec.Wrote(c.serial)];
      CommandDestroy(c);
    }

    /** The PDU went out: forget a command that expects no answer, otherwise mark it and start the timer. */
    method Written(cmd: Command, fromResponses: bool) returns (keep: bool)
      requires Valid() && !stale
      requires fromResponses == (responses != [])
      requires if fromResponses then cmd == responses[0] else requests != [] && cmd == requests[0]
      requires !cmd.sent
      modifies `requests, `responses, `log, `timeoutWatch, {cmd}`sent
      ensures Valid()
      ensures (if keep then Abs() else Abs().(writeWatch := false)) == Spec.CanWrite(old(Abs()), false, true)
    {
      hide Vals, Valid;
      keep := cmd.expected == 0;
      if keep {
        if fromResponses {
          WrittenResponse();
        } else {
          WrittenRequest();
        }
      } else if fromResponses {
        ResponseSent();
      } else {
        RequestSent();
      }
    }

    /** can_write_data: returns whether the watch stays. */
    method CanWriteData(hup: bool, ioOk: bool) returns (keep: bool)
      requires Valid()
      modifies `requests, `responses, `log, `timeoutWatch, cmds`sent
      ensures Valid()
      ensures (if keep then Abs() else Abs().(writeWatch := false)) == Spec.CanWrite(old(Abs()), hup, ioOk)
    {
      hide Vals, Distinct;
      if stale {
        return false;
      }
      if hup {
        return false;
      }
      var fromResponses := |responses| > 0;
      if !fromResponses && |requests| == 0 {
        return false;
      }
      var cmd := if fromResponses then responses[0] else requests[0];
      if cmd.sent {
        return false;
      }
      if !ioOk {
        return false;
      }
      keep := Written(cmd, fromResponses);
    }

    /** The write watch fires; when can_write_data returns FALSE the watch goes and destroy_sender clears it. */
    method WriteWatchFires(hup: bool, ioOk: bool)
      requires Valid()
      modifies `requests, `responses, `log, `timeoutWatch, `writeWatch, cmds`sent
      ensures Valid() && Abs() == Spec.CanWrite(old(Abs()), hup, ioOk)
    {
      hide Vals, Spec.CanWrite;
      var keep := CanWriteData(hup, ioOk);
      if !keep {
        writeWatch := false;
      }
    }

    /** Run the callback of a popped command, with the calls it makes back, and destroy the command. */
    method Finish(cmd: Command, status: nat, acts: seq<Spec.Action>)
      requires Valid() && cmd in cmds
      modifies this, cmds
      ensures Valid() && Abs() == Spec.Finish(old(Abs()), old(cmd.Val()), status, acts)
      ensures fresh(cmds - old(cmds)) && old(cmds) <= cmds
    {
      hide Vals, Valid, Spec.Acts;
      if cmd.func {
        log := log + [Spec.Called(cmd.serial, status)];
        PerformAll(acts);
      }
      CommandDestroy(cmd);
    }

    /** The head request leaves, and what waits behind it may be written. */
    method TakeAnswered() returns (cmd: Command)
      requires Valid() && requests != []
      modifies `requests, `writeWatch
      ensures Valid() && cmd in cmds && cmd.Val() == old(Abs()).requests[0]
      ensures
        var v := old(Abs()).(requests := old(Abs()).requests[1..]);
        Abs() == if v.requests != [] || v.responses != [] then Spec.WakeUp(v) else v
    {
      hide Vals, Valid;
      cmd := PopRequest();
      if |requests| > 0 || |responses| > 0 {
        WakeUpSender();
      }
    }

    method HandleResponse(opcode: nat, ecode: nat, hasEvents: bool, acts: seq<Spec.Action>) returns (keep: bool)
      requires Valid()
      modifies this, cmds
      ensures Valid() && Abs() == Spec.Answer(old(Abs()), opcode, ecode, acts)
      ensures keep == (old(Abs()).requests == [] ==> hasEvents)
      ensures fresh(cmds - old(cmds)) && old(cmds) <= cmds
    {
      hide Vals, Valid, Spec.Finish, Spec.WakeUp;
      if timeoutWatch {
        timeoutWatch := false;
      }
      if |requests| == 0 {
        return hasEvents;
      }
      var cmd := TakeAnswered();
      var status := if opcode == ATT_OP_ERROR then ecode
                    else if cmd.expected != opcode then ATT_ECODE_IO
                    else 0;
      Finish(cmd, status, acts);
      return true;
    }

    /** received_data: returns whether the read watch stays. `hasEvents` says whether handlers are registered. */
    method ReceivedData(hup: bool, rdOk: bool, opcode: nat, ecode: nat, hasEvents: bool,
                        events: seq<Spec.Action>, acts: seq<Spec.Action>)
      returns (keep: bool)
      requires Valid()
      modifies this, cmds
      ensures Valid() && Abs() == Spec.Received(old(Abs()), hup, rdOk, opcode, ecode, events, acts)
      ensures keep == Spec.KeepsReading(old(Abs()), hup, rdOk, opcode, hasEvents, events)
      ensures fresh(cmds - old(cmds)) && old(cmds) <= cmds
    {
      hide Vals, Valid, Spec.Acts, Spec.Answer, Spec.IsResponse;
      if stale || hup {
        return false;
      }
      if !rdOk {
        if |requests| > 0 || |responses| > 0 {
          WakeUpSender();
        }
        return true;
      }
      PerformAll(events);
      if !Spec.IsResponse(opcode) {
        return true;
      }
      keep := HandleResponse(opcode, ecode, hasEvents, acts);
    }

    /**
     disconnect_timeout. Callbacks may queue further commands before the object is marked stale; the
     loop aborts those too. `scripts` holds what each callback in turn does.
     */
    method DisconnectTimeout(scripts: seq<seq<Spec.Action>>)
      requires Valid()
      modifies this, cmds
      ensures Valid() && Abs() == Spec.Timeout(old(Abs()), scripts)
      ensures fresh(cmds - old(cmds)) && old(cmds) <= cmds
    {
      hide Vals, Valid, Spec.Finish, Spec.AbortAll;
      ghost var s := Abs();
      var status := ATT_ECODE_TIMEOUT;
      var todo := scripts;
      while |requests| > 0
        invariant Valid() && Spec.AbortAll(Abs(), status, todo) == Spec.AbortAll(s, ATT_ECODE_TIMEOUT, scripts)
        invariant fresh(cmds - old(cmds)) && old(cmds) <= cmds
        decreases |todo|, |requests|
      {
        AbortOne(Abs(), status, todo);
        var c := PopRequest();
        if c.func && todo != [] {
          var script := todo[0];
          todo := todo[1..];
          Finish(c, status, script);
        } else {
          Spec.QuietFinish(Abs(), c.Val(), status);
          Finish(c, status, []);
        }
        status := ATT_ECODE_ABORTED;
      }
      AbortOne(Abs(), status, todo);
      stale := true;
    }

    method DestroyRequests()
      requires Valid()
      modifies `requests, `log
      ensures Valid() && requests == [] && Spec.Destroy(Abs()) == Spec.Destroy(old(Abs()))
    {
      hide Vals, Valid, Spec.Destroy;
      ghost var s := Abs();
      while |requests| > 0
        invariant Valid() && Spec.Destroy(Abs()) == Spec.Destroy(s)
        decreases |requests|
      {
        DestroyOneRequest(Abs());
        var c := PopRequest();
        CommandDestroy(c);
      }
    }

    method DestroyResponses()
      requires Valid() && requests == []
      modifies `responses, `log
      ensures Valid() && responses == [] && Spec.Destroy(Abs()) == Spec.Destroy(old(Abs()))
    {
      hide Vals, Valid, Spec.Destroy;
      ghost var s := Abs();
      while |responses| > 0
        invariant Valid() && Spec.Destroy(Abs()) == Spec.Destroy(s)
        decreases |responses|
      {
        DestroyOneResponse(Abs());
        var c := PopResponse();
        CommandDestroy(c);
      }
    }

    /** attrib_destroy. */
    method AttribDestroy()
      requires Valid()
      modifies `requests, `responses, `log
      ensures Valid() && Abs() == Spec.Destroy(old(Abs()))
    {
      hide Vals, Valid, Spec.Destroy;
      DestroyRequests();
      DestroyResponses();
      DestroyNothing(Abs());
    }
  }
}

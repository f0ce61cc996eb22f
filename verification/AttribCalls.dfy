/**
 What one call or event does, told by what it returns, what is left in the queues and what the outside sees:
 the sends, the cancels, the write watch and the read watch.
 */
module AttribCalls {
  import opened AttribAnswers
  import opened AttribSafety
  import opened AttribSpec

  /** All commands in the order in which a cancel looks at them. */
  function Both(s: State): seq<Cmd> {
    s.requests + s.responses
  }

  // ----- sends -----

  /** A response or the Error Response, by its opcode. */
  predicate Responds(opcode: nat) {
    opcode == 0x01 || (opcode > 0 && Asks(opcode - 1))
  }

  /**
   A send returns zero exactly on a stale transport, and otherwise the id of the command it queued, which carries
   what the caller gave; the write watch is armed if nothing was in that queue before.
   */
  lemma SendReturns(s: State, id: nat, opcode: nat, func: bool)
    ensures var (t, ret) := Send(s, id, opcode, func);
      && (ret == 0 <==> s.stale)
      && (s.stale ==> t == s)
      && (!s.stale ==>
           var was, now := if Responds(opcode) then s.responses else s.requests,
                           if Responds(opcode) then t.responses else t.requests;
           var c := now[if id == 0 || Responds(opcode) then |was| else 0];
           && |now| == |was| + 1 && now == (if id == 0 || Responds(opcode) then was + [c] else [c] + was)
           && (if Responds(opcode) then t.requests == s.requests else t.responses == s.responses)
           && c.serial == s.nextSerial && c.id == ret == (if id != 0 then id else t.nextId)
           && c.opcode == opcode && c.func == func && !c.sent && Matched(c)
           && (t.writeWatch <==> s.writeWatch || was == []) && t.log == s.log)
  {
    hide Asks, IsResponse, OpcodeToExpected;
    OpcodesPair(opcode);
  }

  lemma FoundAt(q: seq<Cmd>, id: nat, i: nat)
    requires i <= |q| && (forall j :: 0 <= j < i ==> q[j].id != id) && (i < |q| ==> q[i].id == id)
    ensures FindId(q, id) == i
  {
  }

  lemma TailOut(q: seq<Cmd>, c: Cmd, id: nat)
    requires !c.sent && c.id == id && forall x :: x in q ==> x.id != id
    ensures FindId(q, id) == |q| && FindId(q + [c], id) == |q|
    ensures CancelAt(q + [c], |q|) == (q, [Cancelled(c.serial), Destroyed(c.serial)])
  {
    FoundAt(q, id, |q|);
    FoundAt(q + [c], id, |q|);
    assert (q + [c])[..|q|] + (q + [c])[|q| + 1..] == q;
  }

  lemma Queued(s: State, opcode: nat, func: bool)
    requires !s.stale
    ensures var (t, id) := Send(s, 0, opcode, func);
      var c := Cmd(s.nextSerial, s.nextId + 1, opcode, OpcodeToExpected(opcode), false, func);
      && id == s.nextId + 1
      && t == s.(nextId := s.nextId + 1, nextSerial := s.nextSerial + 1, writeWatch := t.writeWatch,
                 requests := if IsResponse(opcode) then s.requests else s.requests + [c],
                 responses := if IsResponse(opcode) then s.responses + [c] else s.responses)
  {
    hide IsResponse, OpcodeToExpected;
  }

  /** Cancelling what was just sent undoes the send: only the counters and the armed watch are left of it. */
  lemma CancelUndoesSend(s: State, opcode: nat, func: bool)
    requires !s.stale && forall c :: c in s.requests || c in s.responses ==> c.id != s.nextId + 1
    ensures var (t, id) := Send(s, 0, opcode, func);
      var (u, found) := CancelId(t, id);
      && found
      && u == s.(nextId := s.nextId + 1, nextSerial := s.nextSerial + 1, writeWatch := t.writeWatch,
                 log := s.log + [Cancelled(s.nextSerial), Destroyed(s.nextSerial)])
  {
    hide IsResponse, OpcodeToExpected, FindId, CancelAt, Send;
    Queued(s, opcode, func);
    var (t, id) := Send(s, 0, opcode, func);
    var q := if IsResponse(opcode) then s.responses else s.requests;
    var c := if IsResponse(opcode) then t.responses[|q|] else t.requests[|q|];
    TailOut(q, c, id);
    FoundAt(s.requests, id, |s.requests|);
  }

  // ----- cancels -----

  /** The i-th of both queues is the first with the id. */
  ghost predicate FirstWith(s: State, id: nat, i: nat) {
    i < |Both(s)| && Both(s)[i].id == id && forall j :: 0 <= j < i ==> Both(s)[j].id != id
  }

  /** The i-th of both queues is taken out, or loses its callback if it is outstanding. */
  ghost predicate TakenOut(s: State, t: State, i: nat)
    requires i < |Both(s)|
  {
    var q, c := Both(s), Both(s)[i];
    if HeadSent(s) && i == 0 then
      t == s.(requests := s.requests[0 := c.(func := false)], log := s.log + [Cancelled(c.serial)])
    else
      && Both(t) == q[..i] + q[i + 1..]
      && |t.requests| == |s.requests| - (if i < |s.requests| then 1 else 0)
      && t == s.(requests := t.requests, responses := t.responses,
                 log := s.log + [Cancelled(c.serial), Destroyed(c.serial)])
  }

  lemma RequestOut(s: State, i: nat)
    requires i < |s.requests|
    ensures var (q, es) := CancelAt(s.requests, i);
      TakenOut(s, s.(requests := q, log := s.log + es), i)
  {
    var q := s.requests[..i] + s.requests[i + 1..];
    assert q + s.responses == Both(s)[..i] + Both(s)[i + 1..];
  }

  lemma ResponseOut(s: State, i: nat)
    requires Sequential(s) && i < |s.responses|
    ensures var (q, es) := CancelAt(s.responses, i);
      TakenOut(s, s.(responses := q, log := s.log + es), |s.requests| + i)
  {
    assert s.responses[i] in s.responses && s.responses[0] in s.responses;
    var k, q := |s.requests| + i, s.responses[..i] + s.responses[i + 1..];
    assert Both(s)[k] == s.responses[i];
    assert s.requests + q == Both(s)[..k] + Both(s)[k + 1..];
  }

  /**
   A cancel says yes exactly if a queued command has the id, requests before responses, and then hits the first
   such command and no other; a no leaves everything as it was.
   */
  lemma CancelExactly(s: State, id: nat)
    requires Sequential(s)
    ensures var (t, found) := CancelId(s, id);
      && (found <==> exists c :: c in Both(s) && c.id == id)
      && (!found ==> t == s)
      && (found ==> exists i: nat :: FirstWith(s, id, i) && TakenOut(s, t, i))
  {
    hide CancelAt, FindId, Sequential, TakenOut;
    var (t, found) := CancelId(s, id);
    var q, i, j := Both(s), FindId(s.requests, id), FindId(s.responses, id);
    if i < |s.requests| {
      assert q[i] in q && FirstWith(s, id, i);
      RequestOut(s, i);
    } else if j < |s.responses| {
      assert q[|s.requests| + j] in q && FirstWith(s, id, |s.requests| + j);
      ResponseOut(s, j);
    } else {
      forall c | c in q
        ensures c.id != id
      {
        var k :| 0 <= k < |q| && q[k] == c;
        assert c == if k < |s.requests| then s.requests[k] else s.responses[k - |s.requests|];
      }
    }
  }

  /** Each command's pair of effects, in order. */
  function Drops(q: seq<Cmd>): (es: seq<Effect>)
    ensures |es| == 2 * |q|
  {
    seq(2 * |q|, i requires 0 <= i < 2 * |q| =>
      if i % 2 == 0 then Cancelled(q[i / 2].serial) else Destroyed(q[i / 2].serial))
  }

  lemma {:induction false} DropAllIs(q: seq<Cmd>)
    ensures DropAll(q) == Drops(q)
  {
    if q != [] {
      DropAllIs(q[1..]);
      var es, rest := Drops(q), Drops(q[1..]);
      forall i | 2 <= i < |es|
        ensures es[i] == rest[i - 2]
      {
        assert (i - 2) / 2 == i / 2 - 1 && (i - 2) % 2 == i % 2;
        assert q[1..][i / 2 - 1] == q[i / 2];
      }
      assert es == [es[0], es[1]] + rest;
    }
  }

  lemma DropsConcat(p: seq<Cmd>, q: seq<Cmd>)
    ensures Drops(p + q) == Drops(p) + Drops(q)
  {
    forall i | 0 <= i < 2 * |p + q|
      ensures Drops(p + q)[i] == (Drops(p) + Drops(q))[i]
    {
      if i >= 2 * |p| {
        assert (i - 2 * |p|) / 2 == i / 2 - |p| && (i - 2 * |p|) % 2 == i % 2;
      }
    }
  }

  lemma OnlyHeadSent(s: State)
    requires Sequential(s)
    ensures (forall i :: 1 <= i < |s.requests| ==> !s.requests[i].sent)
    ensures (forall i :: 0 <= i < |s.responses| ==> !s.responses[i].sent)
  {
  }

  /**
   Cancelling everything drops the requests and then the responses, each in queue order; only an outstanding
   request stays, without its callback.
   */
  lemma CancelAllExactly(s: State)
    requires Sequential(s)
    ensures var t := CancelEvery(s);
      var kept := if HeadSent(s) then [s.requests[0].(func := false)] else [];
      var marks := if HeadSent(s) then [Cancelled(s.requests[0].serial)] else [];
      t == s.(requests := kept, responses := [], log := s.log + marks + Drops(Both(s)[|kept|..]))
  {
    hide Drops, DropAll, CancelQueue, Sequential;
    var h := if HeadSent(s) then 1 else 0;
    OnlyHeadSent(s);
    CancelQueueAtMostOne(s.requests);
    CancelQueueAtMostOne(s.responses);
    DropAllIs(s.requests[h..]);
    DropAllIs(s.responses);
    DropsConcat(s.requests[h..], s.responses);
    assert s.requests[0..] == s.requests;
    assert Both(s)[h..] == s.requests[h..] + s.responses;
    var marks := if HeadSent(s) then [Cancelled(s.requests[0].serial)] else [];
    assert CancelEvery(s).log == (s.log + (marks + Drops(s.requests[h..]))) + Drops(s.responses);
    assert (s.log + (marks + Drops(s.requests[h..]))) + Drops(s.responses)
      == s.log + marks + (Drops(s.requests[h..]) + Drops(s.responses));
  }

  lemma {:induction false} DestroyEachIs(q: seq<Cmd>)
    ensures DestroyEach(q) == seq(|q|, i requires 0 <= i < |q| => Destroyed(q[i].serial))
  {
    if q != [] {
      DestroyEachIs(q[1..]);
    }
  }

  /** Destroying the transport destroys the requests and then the responses, each in queue order, and calls nobody. */
  lemma DestroyExactly(s: State)
    ensures var q := Both(s);
      Destroy(s) == s.(requests := [], responses := [],
                       log := s.log + seq(|q|, i requires 0 <= i < |q| => Destroyed(q[i].serial)))
  {
    DestroyEachIs(s.requests);
    DestroyEachIs(s.responses);
    var q := Both(s);
    assert DestroyEach(s.requests) + DestroyEach(s.responses)
      == seq(|q|, i requires 0 <= i < |q| => Destroyed(q[i].serial));
    assert s.log + DestroyEach(s.requests) + DestroyEach(s.responses)
      == s.log + (DestroyEach(s.requests) + DestroyEach(s.responses));
  }

  // ----- the watches -----

  /**
   When the channel takes the PDU, the first response is written, and without responses the head request if it was
   not sent before. What nobody answers is then done with and the watch stays; a request that is answered is marked,
   the timer runs and the watch goes. In every other case the watch goes and nothing else happens.
   */
  lemma WritesExactly(s: State, hup: bool, ioOk: bool)
    requires Sequential(s) && AllMatched(s)
    ensures var t := CanWrite(s, hup, ioOk);
      if s.stale || hup || !ioOk || !Pending(s) then t == s.(writeWatch := false)
      else if s.responses != [] then
        var k := s.responses[0].serial;
        t == s.(responses := s.responses[1..], log := s.log + [Wrote(k), Destroyed(k)])
      else
        var c := s.requests[0];
        if Asks(c.opcode) then
          t == s.(requests := s.requests[0 := c.(sent := true)], writeWatch := false, timeoutWatch := true,
                  log := s.log + [Wrote(c.serial)])
        else t == s.(requests := s.requests[1..], log := s.log + [Wrote(c.serial), Destroyed(c.serial)])
  {
    hide Asks;
    if s.responses != [] {
      assert s.responses[0] in s.responses;
    } else if s.requests != [] {
      assert s.requests[0] in s.requests;
    }
    assert forall k: nat :: s.log + [Wrote(k)] + [Destroyed(k)] == s.log + [Wrote(k), Destroyed(k)];
  }

  /**
   The read watch stays on a live channel unless a response comes that no request waits for and no handler is
   registered. Where nothing calls back, a read arms the write watch exactly if it failed or finished a request,
   and something is left in a queue.
   */
  lemma ReadKeepsWatches(s: State, rdOk: bool, opcode: nat, ecode: nat, hasEvents: bool)
    ensures KeepsReading(s, false, rdOk, opcode, hasEvents, []) <==>
      !s.stale && (hasEvents || !rdOk || !Responds(opcode) || s.requests != [])
    ensures !KeepsReading(s, true, rdOk, opcode, hasEvents, [])
    ensures var t := Received(s, false, rdOk, opcode, ecode, [], []);
      t.writeWatch <==>
        s.writeWatch ||
        (!s.stale && !rdOk && Both(s) != []) ||
        (!s.stale && rdOk && Responds(opcode) && s.requests != [] && |Both(s)| > 1)
    ensures Received(s, true, rdOk, opcode, ecode, [], []) == s
  {
    hide Asks, IsResponse;
    OpcodesPair(opcode);
  }
}

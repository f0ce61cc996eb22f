/**
 Writing a characteristic value of any length: one write if it fits, otherwise prepared parts and one
 execute, and what the whole exchange with a server that queues the parts leaves behind.
 */
module GattWrite {
  import opened Basics
  import opened Bytes
  import opened AttCodes
  import opened Att

  const ATT_WRITE_ALL_PREP_WRITES: nat := 1
  const ATT_ECODE_INVALID_HANDLE: Byte := 0x01
  const ATT_ECODE_INVALID_PDU: Byte := 0x04

  /** A request; the answer to a Prepare goes to prepare_write_cb, the others to the user. */
  datatype Request = Write(pdu: seq<Byte>) | Prepare(pdu: seq<Byte>) | Execute(pdu: seq<Byte>)

  /** What a step does: report to the user, hand a request to the transport, or find no room for one. */
  datatype Outcome = Report(status: nat) | Issue(request: Request) | NoRoom

  /** enc_write_req. */
  function WriteReq(handle: U16, value: seq<Byte>, room: nat): seq<Byte> {
    if room < 3 then [] else [ATT_OP_WRITE_REQ as Byte] + Put16(handle) + value[..Min(|value|, room - 3)]
  }

  /** enc_exec_write_req. */
  function ExecReq(flags: nat, room: nat): seq<Byte> {
    if room < 2 || flags > 1 then [] else [ATT_OP_EXEC_WRITE_REQ as Byte, flags as Byte]
  }

  const EXECUTE: Request := Execute(ExecReq(ATT_WRITE_ALL_PREP_WRITES, 2))

  /** prepare_write: the part of the value from the offset on. */
  function OnPart(handle: U16, v: seq<Byte>, offset: U16, room: nat): Outcome
    requires offset <= |v|
  {
    var pdu := PrepWrite(ATT_OP_PREP_WRITE_REQ, handle, offset, v[offset..], room);
    if pdu == [] then NoRoom else Issue(Prepare(pdu))
  }

  /** execute_write of all parts. */
  function OnEnd(room: nat): Outcome {
    var pdu := ExecReq(ATT_WRITE_ALL_PREP_WRITES, room);
    if pdu == [] then NoRoom else Issue(Execute(pdu))
  }

  /** The offset after a response of `rlen` bytes, in 16 bits. */
  function Advance(offset: U16, rlen: nat): U16 {
    (offset + rlen - 5) % 0x1_0000
  }

  /** The response moves the write to an offset inside the value. */
  predicate Moves(v: seq<Byte>, offset: U16, rlen: nat) {
    Advance(offset, rlen) <= |v|
  }

  /** prepare_write_cb: the new offset and what is done. */
  function OnPrepared(handle: U16, v: seq<Byte>, offset: U16, status: nat, rlen: nat, room: nat): (U16, Outcome)
    requires status == 0 ==> Moves(v, offset, rlen)
  {
    if status != 0 then (offset, Report(status))
    else
      var next := Advance(offset, rlen);
      (next, if next == |v| then OnEnd(room) else OnPart(handle, v, next, room))
  }

  /** gatt_write_char. */
  function OnWrite(handle: U16, v: seq<Byte>, room: nat): Outcome
    requires room >= 3
  {
    if |v| <= room - 3 then Issue(Write(WriteReq(handle, v, room))) else OnPart(handle, v, 0, room)
  }

  /** struct write_long_data, as prepare_write and its callback update it. */
  class WriteLongData {
    const handle: U16
    const value: seq<Byte>
    var offset: U16

    constructor (handle: U16, value: seq<Byte>)
      ensures this.handle == handle && this.value == value && offset == 0
    {
      this.handle, this.value, offset := handle, value, 0;
    }

    method PrepareWrite(buflen: nat) returns (o: Outcome)
      requires offset <= |value|
      ensures o == OnPart(handle, value, offset, buflen)
    {
      var vlen := |value| - offset;
      assert value[offset..][..vlen] == value[offset..];
      var pdu := PrepWrite(ATT_OP_PREP_WRITE_REQ, handle, offset, value[offset..][..vlen], buflen);
      if |pdu| == 0 {
        return NoRoom;
      }
      return Issue(Prepare(pdu));
    }

    method PrepareWriteCb(status: nat, rlen: nat, buflen: nat) returns (o: Outcome)
      requires status == 0 ==> Moves(value, offset, rlen)
      modifies this`offset
      ensures (offset, o) == OnPrepared(handle, value, old(offset), status, rlen, buflen)
    {
      if status != 0 {
        return Report(status);
      }
      offset := (offset + rlen - 5) % 0x1_0000;
      if offset == |value| {
        var pdu := ExecReq(ATT_WRITE_ALL_PREP_WRITES, buflen);
        return if |pdu| == 0 then NoRoom else Issue(Execute(pdu));
      }
      o := PrepareWrite(buflen);
    }
  }

  lemma WriteRoundTrip(handle: U16, v: seq<Byte>, room: nat)
    requires |v| + 3 <= room
    ensures DecodeWriteReq(WriteReq(handle, v, room)) == Some((handle, v))
  {
    var pdu := WriteReq(handle, v, room);
    assert v[..|v|] == v;
    assert pdu[1..] == Put16(handle) + v && pdu[3..] == v;
    Get16OfPut16(handle, v);
  }

  /** gatt_write_char: one write exactly if the value fits, otherwise the first part. */
  method WriteChar(handle: U16, value: seq<Byte>, buflen: nat) returns (o: Outcome)
    requires buflen >= 3
    ensures o == OnWrite(handle, value, buflen)
    ensures |value| <= buflen - 3 <==> o.Issue? && o.request.Write?
    ensures o.Issue? && o.request.Write? ==> DecodeWriteReq(o.request.pdu) == Some((handle, value))
    ensures o.NoRoom? <==> |value| > buflen - 3 && buflen < 5
    ensures o.Issue? && o.request.Prepare? ==>
      DecodePrepWriteReq(o.request.pdu) == Some((handle, 0, value[..Min(|value|, buflen - 5)]))
  {
    if |value| <= buflen - 3 {
      WriteRoundTrip(handle, value, buflen);
      return Issue(Write(WriteReq(handle, value, buflen)));
    }
    var w := new WriteLongData(handle, value);
    o := w.PrepareWrite(buflen);
    if buflen >= 5 {
      PrepWriteRoundTrip(handle, 0, value, buflen);
      assert value[0..] == value;
    }
  }

  // ----- the server: an attribute, and the parts queued for it -----

  datatype Part = Part(offset: U16, bytes: seq<Byte>)

  datatype Server = Server(handle: U16, value: seq<Byte>, queue: seq<Part>)

  /** What a value has from an offset on. */
  function Tail(was: seq<Byte>, offset: nat): seq<Byte> {
    if offset < |was| then was[offset..] else []
  }

  /** The value after executing one part at its offset. */
  function Overwrite(was: seq<Byte>, p: Part): seq<Byte> {
    if p.offset > |was| then was else was[..p.offset] + p.bytes + Tail(was, p.offset + |p.bytes|)
  }

  function Commit(was: seq<Byte>, parts: seq<Part>): seq<Byte>
    decreases |parts|
  {
    if parts == [] then was else Commit(Overwrite(was, parts[0]), parts[1..])
  }

  /** What an execute request asks for, by section 3.4.6.3 of Volume 3 Part F of the Bluetooth Core Specification. */
  datatype Wish = WriteAll | CancelAll | NotAFlag

  /** The server's own reading of an execute request: the opcode and one byte of flags. */
  function DecodeExecute(pdu: seq<Byte>): Option<Wish> {
    if |pdu| != 2 || pdu[0] != 0x18 then None
    else if pdu[1] == 0x01 then Some(WriteAll)
    else if pdu[1] == 0x00 then Some(CancelAll)
    else Some(NotAFlag)
  }

  /**
   A write stores the value, a prepare queues its part and is echoed, and an execute commits the queue or drops it
   as its flags say.
   */
  function Serve(s: Server, pdu: seq<Byte>): (Server, seq<Byte>) {
    var write, prepare := DecodeWriteReq(pdu), DecodePrepWriteReq(pdu);
    if write.Some? then
      if write.value.0 != s.handle then (s, ErrorPdu(ATT_OP_WRITE_REQ, write.value.0, ATT_ECODE_INVALID_HANDLE))
      else (s.(value := write.value.1), [ATT_OP_WRITE_RESP])
    else if prepare.Some? then
      var (handle, offset, bytes) := prepare.value;
      if handle != s.handle then (s, ErrorPdu(ATT_OP_PREP_WRITE_REQ, handle, ATT_ECODE_INVALID_HANDLE))
      else (s.(queue := s.queue + [Part(offset, bytes)]),
            PrepWrite(ATT_OP_PREP_WRITE_RESP, handle, offset, bytes, |pdu|))
    else if DecodeExecute(pdu).Some? then
      match DecodeExecute(pdu).value
      case WriteAll => (s.(value := Commit(s.value, s.queue), queue := []), [ATT_OP_EXEC_WRITE_RESP])
      case CancelAll => (s.(queue := []), [ATT_OP_EXEC_WRITE_RESP])
      case NotAFlag => (s, ErrorPdu(ATT_OP_EXEC_WRITE_REQ, s.handle, ATT_ECODE_INVALID_PDU))
    else (s, ErrorPdu(if pdu == [] then 0 else pdu[0], s.handle, ATT_ECODE_REQ_NOT_SUPP))
  }

  /** Unless it answers with an error, which changes nothing. */
  function Answer(s: Server, pdu: seq<Byte>, fault: Byte): (Server, seq<Byte>) {
    if fault != 0 then (s, ErrorPdu(if pdu == [] then 0 else pdu[0], s.handle, fault)) else Serve(s, pdu)
  }

  /** The execute request encodes in any buffer of two bytes, and the server reads from it what its flags ask for. */
  lemma ExecRoundTrip(flags: nat, room: nat)
    ensures ExecReq(flags, room) == [] <==> room < 2 || flags > 1
    ensures room >= 2 && flags <= 1 ==>
      DecodeExecute(ExecReq(flags, room)) == Some(if flags == 1 then WriteAll else CancelAll)
  {
  }

  /** The request that ends a long write asks for all that was prepared to be written. */
  lemma EndsByWriting(room: nat)
    requires room >= 2
    ensures var o := OnEnd(room);
      && o == Issue(EXECUTE) && o.request.Execute? && DecodeExecute(o.request.pdu) == Some(WriteAll)
      && DecodeWriteReq(o.request.pdu) == None && DecodePrepWriteReq(o.request.pdu) == None
  {
    ExecRoundTrip(ATT_WRITE_ALL_PREP_WRITES, room);
    ExecRoundTrip(ATT_WRITE_ALL_PREP_WRITES, 2);
  }

  // ----- the whole exchange -----

  /** The requests issued, the status the user is told, and the server afterwards. */
  datatype Finished = Finished(issued: seq<Request>, status: nat, server: Server)

  function After(r: Request, f: Option<Finished>): Option<Finished> {
    if f.None? then None else Some(f.value.(issued := [r] + f.value.issued))
  }

  /**
   The exchange from request i on, which has just been issued; rooms(k) is the size of the buffer when
   request k is encoded. None if it does not end within n requests.
   */
  function Writes(handle: U16, v: seq<Byte>, offset: U16, r: Request, s: Server, rooms: nat -> nat, faults: Faults,
                  i: nat, n: nat): Option<Finished>
    decreases n
  {
    if n == 0 then None
    else
      var (t, rpdu) := Answer(s, r.pdu, faults(i));
      var status, rlen := StatusOf(Clip(rpdu)), |Clip(rpdu)|;
      if !r.Prepare? then Some(Finished([r], status, t))
      else if status == 0 && !Moves(v, offset, rlen) then None
      else
        var (next, o) := OnPrepared(handle, v, offset, status, rlen, rooms(i + 1));
        match o
        case Report(code) => Some(Finished([r], code, t))
        case Issue(q) => After(r, Writes(handle, v, next, q, t, rooms, faults, i + 1, n - 1))
        case NoRoom => None
  }

  /** gatt_write_char of v against a server. */
  function Written(v: seq<Byte>, s: Server, rooms: nat -> nat, faults: Faults, n: nat): Option<Finished>
    requires rooms(0) >= 3
  {
    var o := OnWrite(s.handle, v, rooms(0));
    if o.Issue? then Writes(s.handle, v, 0, o.request, s, rooms, faults, 0, n) else None
  }

  // ----- the parts of a value -----

  /** How far a part takes the write: the echoed response is cut by the receive buffer. */
  function Taken(part: nat): nat {
    Min(part + 5, RX_BUFFER) - 5
  }

  function PartAt(v: seq<Byte>, offset: U16, room: nat): Part
    requires room >= 23 && offset <= |v|
  {
    Part(offset, v[offset..][..Min(|v| - offset, room - 5)])
  }

  /**
   The parts from an offset on, with the i-th in a buffer of rooms(i) bytes; None if n of them do not reach the
   end.
   */
  function Parts(v: seq<Byte>, offset: U16, rooms: nat -> nat, i: nat, n: nat): Option<seq<Part>>
    requires (forall k :: rooms(k) >= 23) && offset <= |v|
    decreases n
  {
    if n == 0 then None
    else
      var part := PartAt(v, offset, rooms(i));
      var next := Advance(offset, 5 + Taken(|part.bytes|));
      if next == |v| then Some([part])
      else if next > |v| then None
      else
        var rest := Parts(v, next, rooms, i + 1, n - 1);
        if rest.None? then None else Some([part] + rest.value)
  }

  /** The request for a part. */
  function Asked(handle: U16, p: Part): Request {
    Prepare(HandleOffset(ATT_OP_PREP_WRITE_REQ, handle, p.offset) + p.bytes)
  }

  function AllAsked(handle: U16, parts: seq<Part>): (r: seq<Request>)
    ensures |r| == |parts| && forall i :: 0 <= i < |r| ==> r[i] == Asked(handle, parts[i])
  {
    if parts == [] then [] else [Asked(handle, parts[0])] + AllAsked(handle, parts[1..])
  }

  lemma PartAsked(handle: U16, v: seq<Byte>, offset: U16, room: nat)
    requires room >= 23 && offset <= |v|
    ensures OnPart(handle, v, offset, room) == Issue(Asked(handle, PartAt(v, offset, room)))
  {
    assert v[offset..][..|v| - offset] == v[offset..];
  }

  /** The server reads back from the request exactly this part. */
  lemma ServerReads(handle: U16, p: Part)
    ensures DecodePrepWriteReq(Asked(handle, p).pdu) == Some((handle, p.offset, p.bytes))
  {
    assert p.bytes[..|p.bytes|] == p.bytes;
    PrepWriteRoundTrip(handle, p.offset, p.bytes, 5 + |p.bytes|);
  }

  /** It queues the part; the response moves the write by what the receive buffer keeps of the echo. */
  lemma ServerQueues(s: Server, p: Part)
    ensures var (t, rpdu) := Serve(s, Asked(s.handle, p).pdu);
      t == s.(queue := s.queue + [p]) && StatusOf(Clip(rpdu)) == 0 && |Clip(rpdu)| == 5 + Taken(|p.bytes|)
  {
    ServerReads(s.handle, p);
    var pdu := Asked(s.handle, p).pdu;
    assert |pdu| == 5 + |p.bytes| && pdu[0] == ATT_OP_PREP_WRITE_REQ;
    assert p.bytes[..|p.bytes|] == p.bytes;
  }

  lemma ServerFails(s: Server, pdu: seq<Byte>, fault: Byte)
    requires fault != 0
    ensures var (t, rpdu) := Answer(s, pdu, fault);
      t == s && StatusOf(Clip(rpdu)) == fault
  {
  }

  /** Every part moves the write forward, and never past the end. */
  lemma Forward(v: seq<Byte>, offset: U16, room: nat)
    requires room >= 23 && offset < |v| < 0x1_0000
    ensures var part := PartAt(v, offset, room);
      var next := Advance(offset, 5 + Taken(|part.bytes|));
      next == offset + Taken(|part.bytes|) && offset < next <= |v| && offset + |part.bytes| <= |v|
        && next <= offset + |part.bytes|
  {
  }

  /** From any offset below the end, the write reaches its execute. */
  lemma {:induction false} PartsEnd(v: seq<Byte>, offset: U16, rooms: nat -> nat, i: nat, n: nat)
    requires (forall k :: rooms(k) >= 23) && offset < |v| < 0x1_0000 && n >= |v| - offset
    ensures Parts(v, offset, rooms, i, n).Some? && 0 < |Parts(v, offset, rooms, i, n).value| <= |v| - offset
    decreases n
  {
    hide PartAt, Advance, Taken;
    Forward(v, offset, rooms(i));
    var next := Advance(offset, 5 + Taken(|PartAt(v, offset, rooms(i)).bytes|));
    if next < |v| {
      PartsEnd(v, next, rooms, i + 1, n - 1);
    }
  }

  // ----- what executing the parts leaves -----

  /** v up to e, and what the old value had behind it. */
  function Over(v: seq<Byte>, e: nat, was: seq<Byte>): seq<Byte>
    requires e <= |v|
  {
    v[..e] + Tail(was, e)
  }

  lemma OverFront(v: seq<Byte>, e: nat, was: seq<Byte>, o: nat)
    requires o <= e <= |v|
    ensures o <= |Over(v, e, was)| && Over(v, e, was)[..o] == v[..o]
  {
  }

  lemma OverBack(v: seq<Byte>, e: nat, was: seq<Byte>, m: nat)
    requires e <= |v|
    ensures e <= m ==> Tail(Over(v, e, was), m) == Tail(was, m)
    ensures m < e ==> Tail(Over(v, e, was), m) == v[m..e] + Tail(was, e)
  {
  }

  lemma Join(v: seq<Byte>, o: nat, m: nat, rest: seq<Byte>)
    requires o <= m <= |v|
    ensures v[..o] + v[o..m] == v[..m] && v[..o] + (v[o..m] + rest) == v[..m] + rest && v[o..][..m - o] == v[o..m]
  {
  }

  /** A part of v from inside what is already written extends it. */
  lemma OverwriteOver(v: seq<Byte>, e: nat, was: seq<Byte>, o: U16, len: nat)
    requires o <= e <= |v| && o + len <= |v|
    ensures var f := if e > o + len then e else o + len;
      Overwrite(Over(v, e, was), Part(o, v[o..][..len])) == Over(v, f, was)
  {
    hide Tail;
    OverFront(v, e, was, o);
    OverBack(v, e, was, o + len);
    Join(v, o, o + len, []);
    if e > o + len {
      Join(v, o + len, e, Tail(was, e));
    }
  }

  /** Executing the prepared parts leaves the value, and behind it what was there before. */
  lemma {:induction false} PartsCommit(v: seq<Byte>, offset: U16, rooms: nat -> nat, i: nat, n: nat, e: nat,
                                       was: seq<Byte>)
    requires (forall k :: rooms(k) >= 23) && offset < |v| < 0x1_0000 && offset <= e <= |v|
    requires Parts(v, offset, rooms, i, n).Some?
    ensures Commit(Over(v, e, was), Parts(v, offset, rooms, i, n).value) == Over(v, |v|, was)
    decreases n
  {
    hide Advance, Taken, Overwrite, Over;
    Forward(v, offset, rooms(i));
    var part := PartAt(v, offset, rooms(i));
    var parts := Parts(v, offset, rooms, i, n).value;
    var next := Advance(offset, 5 + Taken(|part.bytes|));
    OverwriteOver(v, e, was, offset, |part.bytes|);
    var f := if e > offset + |part.bytes| then e else offset + |part.bytes|;
    if next == |v| {
      assert parts == [part] && parts[1..] == [];
      assert Commit(Over(v, f, was), []) == Over(v, f, was);
    } else {
      PartsCommit(v, next, rooms, i + 1, n - 1, f, was);
      assert parts[1..] == Parts(v, next, rooms, i + 1, n - 1).value;
    }
  }

  // ----- the exchange issues exactly the parts -----

  lemma IsPrepare(handle: U16, p: Part)
    ensures Asked(handle, p).Prepare?
  {
  }

  /** One answered prepare: the part is queued and the next request is the execute or the next part. */
  lemma PrepareStep(v: seq<Byte>, offset: U16, s: Server, rooms: nat -> nat, faults: Faults, i: nat, n: nat)
    requires (forall k :: rooms(k) >= 23) && offset < |v| && faults(i) == 0 && n > 0
    requires Advance(offset, 5 + Taken(|PartAt(v, offset, rooms(i)).bytes|)) <= |v|
    ensures var part := PartAt(v, offset, rooms(i));
      var next := Advance(offset, 5 + Taken(|part.bytes|));
      var q := if next == |v| then EXECUTE else Asked(s.handle, PartAt(v, next, rooms(i + 1)));
      Writes(s.handle, v, offset, Asked(s.handle, part), s, rooms, faults, i, n)
        == After(Asked(s.handle, part),
                 Writes(s.handle, v, next, q, s.(queue := s.queue + [part]), rooms, faults, i + 1, n - 1))
  {
    hide PartAt, Asked, Serve, StatusOf, OnPart, Taken, Clip;
    var part := PartAt(v, offset, rooms(i));
    var next := Advance(offset, 5 + Taken(|part.bytes|));
    ServerQueues(s, part);
    assert Asked(s.handle, part).Prepare? by {
      IsPrepare(s.handle, part);
    }
    if next != |v| {
      PartAsked(s.handle, v, next, rooms(i + 1));
    }
  }

  /** An error on a prepare is reported, and the server keeps what it has. */
  lemma PrepareFails(v: seq<Byte>, offset: U16, s: Server, p: Part, rooms: nat -> nat, faults: Faults, i: nat, n: nat)
    requires faults(i) != 0 && n > 0
    ensures Writes(s.handle, v, offset, Asked(s.handle, p), s, rooms, faults, i, n)
      == Some(Finished([Asked(s.handle, p)], faults(i), s))
  {
    hide Asked, Answer, StatusOf, OnPart, Clip;
    ServerFails(s, Asked(s.handle, p).pdu, faults(i));
    IsPrepare(s.handle, p);
  }

  /** The execute, answered or failing. */
  lemma ExecuteStep(v: seq<Byte>, s: Server, rooms: nat -> nat, faults: Faults, i: nat, n: nat, offset: U16)
    requires n > 0
    ensures Writes(s.handle, v, offset, EXECUTE, s, rooms, faults, i, n) == Some(Finished([EXECUTE], faults(i),
      if faults(i) == 0 then s.(value := Commit(s.value, s.queue), queue := []) else s))
  {
    hide Commit;
    EndsByWriting(2);
    if faults(i) != 0 {
      ServerFails(s, EXECUTE.pdu, faults(i));
    }
  }

  /** What an exchange leaves whose k-th request from here is the first to fail; none fails if k is past the execute. */
  function Ended(s: Server, parts: seq<Part>, k: nat, fault: Byte): Finished {
    var all := AllAsked(s.handle, parts) + [EXECUTE];
    if k < |all| then Finished(all[..k + 1], fault, s.(queue := s.queue + parts[..k]))
    else Finished(all, 0, s.(value := Commit(s.value, s.queue + parts), queue := []))
  }

  lemma SeqStep<T>(x: T, xs: seq<T>, k: nat)
    ensures 0 < k <= |xs| ==> ([x] + xs)[..k + 1] == [x] + xs[..k] && ([x] + xs)[..k] == [x] + xs[..k - 1]
  {
  }

  lemma AskedStep(handle: U16, p: Part, rest: seq<Part>)
    ensures AllAsked(handle, [p] + rest) == [Asked(handle, p)] + AllAsked(handle, rest)
  {
    assert ([p] + rest)[1..] == rest;
  }

  lemma EndedStep(s: Server, p: Part, rest: seq<Part>, k: nat, fault: Byte)
    requires k > 0
    ensures After(Asked(s.handle, p), Some(Ended(s.(queue := s.queue + [p]), rest, k - 1, fault)))
      == Some(Ended(s, [p] + rest, k, fault))
  {
    hide Asked, Commit, AllAsked;
    var asked := Asked(s.handle, p);
    var tail := AllAsked(s.handle, rest) + [EXECUTE];
    var all := AllAsked(s.handle, [p] + rest) + [EXECUTE];
    AskedStep(s.handle, p, rest);
    assert all == [asked] + tail;
    SeqStep(asked, tail, k);
    SeqStep(p, rest, k);
    assert s.queue + [p] + rest == s.queue + ([p] + rest);
    if k < |all| {
      assert s.queue + [p] + rest[..k - 1] == s.queue + ([p] + rest)[..k];
    }
  }

  lemma FailedFirst(s: Server, parts: seq<Part>, fault: Byte)
    requires parts != []
    ensures Ended(s, parts, 0, fault) == Finished([Asked(s.handle, parts[0])], fault, s)
  {
    var all := AllAsked(s.handle, parts) + [EXECUTE];
    assert all[..1] == [all[0]];
    assert s.queue + parts[..0] == s.queue;
  }

  lemma NoParts(s: Server, k: nat, first: Byte, fault: Byte)
    requires k == 0 ==> first == fault != 0
    requires k > 0 ==> first == 0
    ensures Ended(s, [], k, fault) == Finished([EXECUTE], first,
      if first == 0 then s.(value := Commit(s.value, s.queue), queue := []) else s)
  {
    hide Commit;
    assert AllAsked(s.handle, []) + [EXECUTE] == [EXECUTE];
    assert s.queue + [] == s.queue;
    assert [EXECUTE][..1] == [EXECUTE];
  }

  /** From the request for a part on, the exchange issues the parts and one execute, up to the first error. */
  lemma {:induction false} WritesAreParts(v: seq<Byte>, offset: U16, s: Server, rooms: nat -> nat, faults: Faults,
                                          i: nat, n: nat, k: nat)
    requires (forall j :: rooms(j) >= 23) && offset < |v| < 0x1_0000 && Parts(v, offset, rooms, i, n).Some?
    requires forall j :: i <= j < i + k ==> faults(j) == 0
    requires k <= |Parts(v, offset, rooms, i, n).value| ==> faults(i + k) != 0
    ensures Writes(s.handle, v, offset, Asked(s.handle, PartAt(v, offset, rooms(i))), s, rooms, faults, i, n + 1)
      == Some(Ended(s, Parts(v, offset, rooms, i, n).value, k, faults(i + k)))
    decreases n
  {
    hide Advance, Taken, PartAt, Asked, Writes, After, Ended;
    Forward(v, offset, rooms(i));
    var part := PartAt(v, offset, rooms(i));
    var parts := Parts(v, offset, rooms, i, n).value;
    var next := Advance(offset, 5 + Taken(|part.bytes|));
    if k == 0 {
      PrepareFails(v, offset, s, part, rooms, faults, i, n + 1);
      FailedFirst(s, parts, faults(i));
    } else {
      assert faults(i) == 0;
      PrepareStep(v, offset, s, rooms, faults, i, n + 1);
      var t := s.(queue := s.queue + [part]);
      if next == |v| {
        assert k == 1 ==> faults(i + 1) != 0;
        assert k > 1 ==> faults(i + 1) == 0;
        ExecuteStep(v, t, rooms, faults, i + 1, n, next);
        NoParts(t, k - 1, faults(i + 1), faults(i + k));
        EndedStep(s, part, [], k, faults(i + k));
        assert [part] + [] == [part];
      } else {
        WritesAreParts(v, next, t, rooms, faults, i + 1, n - 1, k - 1);
        EndedStep(s, part, Parts(v, next, rooms, i + 1, n - 1).value, k, faults(i + k));
      }
    }
  }

  // ----- what a whole write does -----

  /** The parts of a value too long for one write, and the execute. */
  lemma LongIs(v: seq<Byte>, s: Server, rooms: nat -> nat, faults: Faults, n: nat, k: nat)
    requires (forall j :: rooms(j) >= 23) && rooms(0) - 3 < |v| < 0x1_0000 && n > |v|
    requires forall j :: 0 <= j < k ==> faults(j) == 0
    requires Parts(v, 0, rooms, 0, n - 1).Some? && k <= |Parts(v, 0, rooms, 0, n - 1).value| ==> faults(k) != 0
    ensures Parts(v, 0, rooms, 0, n - 1).Some? && |Parts(v, 0, rooms, 0, n - 1).value| < n
    ensures Written(v, s, rooms, faults, n) == Some(Ended(s, Parts(v, 0, rooms, 0, n - 1).value, k, faults(k)))
  {
    hide PartAt, Asked, Writes, OnPart, Ended;
    PartsEnd(v, 0, rooms, 0, n - 1);
    PartAsked(s.handle, v, 0, rooms(0));
    WritesAreParts(v, 0, s, rooms, faults, 0, n - 1, k);
  }

  /** A value that fits one write is stored by it, or the error is reported. */
  lemma ShortIs(v: seq<Byte>, s: Server, rooms: nat -> nat, faults: Faults, n: nat)
    requires rooms(0) >= 3 && |v| <= rooms(0) - 3 && n > 0
    ensures Written(v, s, rooms, faults, n) == Some(Finished([Write(WriteReq(s.handle, v, rooms(0)))], faults(0),
      if faults(0) == 0 then s.(value := v) else s))
  {
    var pdu := WriteReq(s.handle, v, rooms(0));
    if faults(0) == 0 {
      WriteRoundTrip(s.handle, v, rooms(0));
    } else {
      ServerFails(s, pdu, faults(0));
    }
  }

  /** Prepares, then one execute. */
  predicate PartsThenExecute(rs: seq<Request>) {
    |rs| > 1 && rs[|rs| - 1].Execute? && forall i :: 0 <= i < |rs| - 1 ==> rs[i].Prepare?
  }

  lemma AllPrepare(handle: U16, parts: seq<Part>)
    requires parts != []
    ensures PartsThenExecute(AllAsked(handle, parts) + [EXECUTE])
  {
    var all := AllAsked(handle, parts) + [EXECUTE];
    forall i | 0 <= i < |all| - 1
      ensures all[i].Prepare?
    {
      assert all[i] == Asked(handle, parts[i]);
    }
  }

  /**
   For every value of less than 65536 bytes and every sequence of buffer sizes, if no request fails the
   write ends: a value that fits goes out in one write and becomes the server's, a longer one in prepares
   followed by exactly one execute, which makes the server's value v and what the old one had behind it.
   */
  lemma WriteDelivers(v: seq<Byte>, s: Server, rooms: nat -> nat, faults: Faults, n: nat)
    requires (forall k :: rooms(k) >= 23) && |v| < 0x1_0000 && n > |v| && s.queue == []
    requires forall i :: 0 <= i <= |v| ==> faults(i) == 0
    ensures Written(v, s, rooms, faults, n).Some?
    ensures var w := Written(v, s, rooms, faults, n).value;
      && w.status == 0
      && (|v| <= rooms(0) - 3 ==> |w.issued| == 1 && w.issued[0].Write? && w.server == s.(value := v))
      && (|v| > rooms(0) - 3 ==> PartsThenExecute(w.issued) && w.server == s.(value := v + Tail(s.value, |v|)))
  {
    hide Parts, Written, Asked, Commit;
    if |v| <= rooms(0) - 3 {
      ShortIs(v, s, rooms, faults, n);
    } else {
      PartsEnd(v, 0, rooms, 0, n - 1);
      var parts := Parts(v, 0, rooms, 0, n - 1).value;
      LongIs(v, s, rooms, faults, n, |parts| + 1);
      PartsCommit(v, 0, rooms, 0, n - 1, 0, s.value);
      assert Over(v, 0, s.value) == s.value;
      assert v[..|v|] == v;
      assert s.queue + parts == parts;
      AllPrepare(s.handle, parts);
    }
  }

  /** The value and the status before and behind the first error. */
  lemma WriteFails(v: seq<Byte>, s: Server, rooms: nat -> nat, faults: Faults, n: nat, k: nat)
    requires (forall j :: rooms(j) >= 23) && |v| < 0x1_0000 && n > |v| && Written(v, s, rooms, NEVER, n).Some?
    requires k < |Written(v, s, rooms, NEVER, n).value.issued| && faults(k) != 0
    requires forall j :: 0 <= j < k ==> faults(j) == 0
    ensures var w := Written(v, s, rooms, faults, n);
      && w.Some? && w.value.status == faults(k) && w.value.server.value == s.value
      && w.value.issued == Written(v, s, rooms, NEVER, n).value.issued[..k + 1]
  {
    hide Parts, Written, AllAsked, Commit;
    if |v| <= rooms(0) - 3 {
      ShortIs(v, s, rooms, NEVER, n);
      ShortIs(v, s, rooms, faults, n);
    } else {
      PartsEnd(v, 0, rooms, 0, n - 1);
      LongIs(v, s, rooms, NEVER, n, n);
      LongIs(v, s, rooms, faults, n, k);
    }
  }

  lemma IssuedCount(s: Server, parts: seq<Part>, k: nat)
    requires k > |parts|
    ensures |Ended(s, parts, k, 0).issued| == |parts| + 1 && Ended(s, parts, k, 0).status == 0
  {
  }

  lemma EndedClean(s: Server, parts: seq<Part>, k: nat, n: nat, fault: Byte)
    requires k > |parts| && n > |parts|
    ensures Ended(s, parts, k, fault) == Ended(s, parts, n, 0)
  {
  }

  /**
   A write tells its user of an error exactly if one of its requests failed, and then the first such error;
   nothing is issued after it and the value on the server stays. Otherwise it is the write without errors.
   */
  lemma WriteErrorsExactly(v: seq<Byte>, s: Server, rooms: nat -> nat, faults: Faults, n: nat)
    requires (forall j :: rooms(j) >= 23) && |v| < 0x1_0000 && n > |v|
    ensures Written(v, s, rooms, NEVER, n).Some? && Written(v, s, rooms, faults, n).Some?
    ensures var w, clean := Written(v, s, rooms, faults, n).value, Written(v, s, rooms, NEVER, n).value;
      && (w.status != 0 <==> exists k :: 0 <= k < |clean.issued| && faults(k) != 0)
      && (w.status != 0 ==> w.issued <= clean.issued && w.server.value == s.value && faults(|w.issued| - 1) == w.status)
      && (w.status == 0 ==> w == clean)
  {
    hide Written, Parts, Ended;
    var long := |v| > rooms(0) - 3;
    if long {
      PartsEnd(v, 0, rooms, 0, n - 1);
      LongIs(v, s, rooms, NEVER, n, n);
    } else {
      ShortIs(v, s, rooms, NEVER, n);
    }
    var clean := Written(v, s, rooms, NEVER, n).value;
    var m := |clean.issued|;
    if exists k :: 0 <= k < m && faults(k) != 0 {
      var k := FirstFault(faults, m);
      WriteFails(v, s, rooms, faults, n, k);
    } else if long {
      var parts := Parts(v, 0, rooms, 0, n - 1).value;
      IssuedCount(s, parts, n);
      LongIs(v, s, rooms, faults, n, m);
      EndedClean(s, parts, m, n, faults(m));
    } else {
      ShortIs(v, s, rooms, faults, n);
    }
  }

  // ----- exactly when it ends -----

  lemma OutOfRequests(v: seq<Byte>, offset: U16, s: Server, rooms: nat -> nat, i: nat)
    requires (forall k :: rooms(k) >= 23) && |v| >= 0x1_0000
    ensures Writes(s.handle, v, offset, Asked(s.handle, PartAt(v, offset, rooms(i))), s, rooms, NEVER, i, 0) == None
  {
  }

  /** The offset has 16 bits, so it never equals a length of 65536 or more. */
  lemma {:induction false} NeverEnds(v: seq<Byte>, offset: U16, s: Server, rooms: nat -> nat, i: nat, n: nat)
    requires (forall k :: rooms(k) >= 23) && |v| >= 0x1_0000
    ensures Writes(s.handle, v, offset, Asked(s.handle, PartAt(v, offset, rooms(i))), s, rooms, NEVER, i, n) == None
    decreases n
  {
    hide PartAt, Asked, Writes;
    if n == 0 {
      OutOfRequests(v, offset, s, rooms, i);
    } else {
      var part := PartAt(v, offset, rooms(i));
      PrepareStep(v, offset, s, rooms, NEVER, i, n);
      NeverEnds(v, Advance(offset, 5 + Taken(|part.bytes|)), s.(queue := s.queue + [part]), rooms, i + 1, n - 1);
    }
  }

  lemma NotWritten(v: seq<Byte>, s: Server, rooms: nat -> nat, n: nat)
    requires (forall k :: rooms(k) >= 23) && |v| > rooms(0) - 3 && |v| >= 0x1_0000
    ensures Written(v, s, rooms, NEVER, n) == None
  {
    hide PartAt, Asked, Writes, OnPart;
    PartAsked(s.handle, v, 0, rooms(0));
    NeverEnds(v, 0, s, rooms, 0, n);
  }

  /** Without errors, the write ends if and only if the value fits one request or 16 bits count it. */
  lemma EndsExactly(v: seq<Byte>, s: Server, rooms: nat -> nat)
    requires forall k :: rooms(k) >= 23
    ensures (exists n :: Written(v, s, rooms, NEVER, n).Some?) <==> |v| <= rooms(0) - 3 || |v| < 0x1_0000
  {
    hide Written, Writes, PartAt, Asked;
    if |v| <= rooms(0) - 3 {
      ShortIs(v, s, rooms, NEVER, 1);
    } else if |v| < 0x1_0000 {
      PartsEnd(v, 0, rooms, 0, |v|);
      LongIs(v, s, rooms, NEVER, |v| + 1, |v| + 1);
    } else {
      forall n
        ensures Written(v, s, rooms, NEVER, n) == None
      {
        NotWritten(v, s, rooms, n);
      }
    }
  }

  // ----- exactly when the parts tile the value -----

  /** The bytes that the server decodes from the prepares. */
  function Carried(rs: seq<Request>): seq<Byte> {
    if rs == [] then []
    else
      var part := DecodePrepWriteReq(rs[0].pdu);
      (if part.Some? then part.value.2 else []) + Carried(rs[1..])
  }

  function Payload(parts: seq<Part>): seq<Byte> {
    if parts == [] then [] else parts[0].bytes + Payload(parts[1..])
  }

  lemma {:induction false} CarriedIs(handle: U16, parts: seq<Part>)
    ensures Carried(AllAsked(handle, parts) + [EXECUTE]) == Payload(parts)
  {
    hide Asked;
    var all := AllAsked(handle, parts) + [EXECUTE];
    if parts == [] {
      assert all == [EXECUTE] && all[1..] == [];
      assert DecodePrepWriteReq(EXECUTE.pdu) == None;
    } else {
      assert all[1..] == AllAsked(handle, parts[1..]) + [EXECUTE];
      ServerReads(handle, parts[0]);
      CarriedIs(handle, parts[1..]);
    }
  }

  /** How far k parts that fill their buffers take the write, from the i-th on. */
  function Sent(rooms: nat -> nat, i: nat, k: nat): nat
    requires forall j :: rooms(j) >= 23
    decreases k
  {
    if k == 0 then 0 else rooms(i) - 5 + Sent(rooms, i + 1, k - 1)
  }

  /** Part k from the i-th on, of `len` bytes, is short enough for the receive buffer to keep its whole echo. */
  predicate FitsAt(rooms: nat -> nat, i: nat, len: nat, k: nat)
    requires forall j :: rooms(j) >= 23
  {
    Sent(rooms, i, k) < len ==> Min(rooms(i + k) - 5, len - Sent(rooms, i, k)) <= RX_BUFFER - 5
  }

  ghost predicate Echoed(rooms: nat -> nat, i: nat, len: nat)
    requires forall j :: rooms(j) >= 23
  {
    forall k: nat :: FitsAt(rooms, i, len, k)
  }

  /** Of the parts behind the first, the same is asked with the first taken off. */
  lemma FitsShift(rooms: nat -> nat, i: nat, len: nat, k: nat)
    requires (forall j :: rooms(j) >= 23) && len > 0
    ensures FitsAt(rooms, i, len, k + 1) <==> FitsAt(rooms, i + 1, len - Min(len, rooms(i) - 5), k)
  {
    assert i + (k + 1) == i + 1 + k;
    assert Sent(rooms, i, k + 1) == rooms(i) - 5 + Sent(rooms, i + 1, k);
  }

  lemma FitsFirst(rooms: nat -> nat, i: nat, len: nat)
    requires (forall j :: rooms(j) >= 23) && len > 0
    ensures FitsAt(rooms, i, len, 0) <==> Min(len, rooms(i) - 5) <= RX_BUFFER - 5
  {
    assert i + 0 == i;
  }

  lemma EchoedStep(rooms: nat -> nat, i: nat, len: nat)
    requires (forall j :: rooms(j) >= 23) && len > 0
    ensures var part := Min(len, rooms(i) - 5);
      Echoed(rooms, i, len) <==> part <= RX_BUFFER - 5 && Echoed(rooms, i + 1, len - part)
  {
    hide FitsAt;
    var part := Min(len, rooms(i) - 5);
    FitsFirst(rooms, i, len);
    if Echoed(rooms, i, len) {
      var j, rest := i + 1, len - part;
      forall k: nat
        ensures FitsAt(rooms, j, rest, k)
      {
        FitsShift(rooms, i, len, k);
      }
    } else {
      var k: nat :| !FitsAt(rooms, i, len, k);
      if k > 0 {
        FitsShift(rooms, i, len, k - 1);
      }
    }
  }

  lemma OnePart(p: Part)
    ensures Payload([p]) == p.bytes + []
  {
    assert [p][1..] == [];
  }

  lemma PartIs(v: seq<Byte>, offset: U16, room: nat)
    requires room >= 23 && offset <= |v|
    ensures var part := PartAt(v, offset, room);
      part.offset == offset && |part.bytes| == Min(|v| - offset, room - 5) && part.bytes == v[offset..][..|part.bytes|]
  {
  }

  /** Bytes that are the value from an offset on exactly if `tiled`, and more of them otherwise. */
  predicate Carries(v: seq<Byte>, offset: nat, carried: seq<Byte>, tiled: bool)
    requires offset <= |v|
  {
    && |carried| >= |v| - offset
    && (tiled ==> carried == v[offset..])
    && (|carried| == |v| - offset ==> tiled)
  }

  lemma TakenWhole(p: Part)
    ensures |p.bytes| <= RX_BUFFER - 5 <==> Taken(|p.bytes|) == |p.bytes|
  {
  }

  lemma NothingLeft(v: seq<Byte>, rooms: nat -> nat, i: nat)
    requires forall j :: rooms(j) >= 23
    ensures Echoed(rooms, i, 0) && Carries(v, |v|, [], true)
  {
  }

  lemma CarriesOn(v: seq<Byte>, part: Part, next: nat, rest: seq<Byte>, tiled: bool, all: bool)
    requires part.offset <= next <= part.offset + |part.bytes| <= |v|
    requires part.bytes == v[part.offset..][..|part.bytes|]
    requires Carries(v, next, rest, tiled)
    requires next < part.offset + |part.bytes| ==> !all
    requires next == part.offset + |part.bytes| ==> (all <==> tiled)
    ensures Carries(v, part.offset, part.bytes + rest, all)
  {
    if next == part.offset + |part.bytes| {
      assert part.bytes + v[next..] == v[part.offset..];
    }
  }

  lemma {:induction false} PayloadIs(v: seq<Byte>, offset: U16, rooms: nat -> nat, i: nat, n: nat)
    requires (forall k :: rooms(k) >= 23) && offset < |v| < 0x1_0000 && Parts(v, offset, rooms, i, n).Some?
    ensures Carries(v, offset, Payload(Parts(v, offset, rooms, i, n).value), Echoed(rooms, i, |v| - offset))
    decreases n
  {
    hide Advance, Taken, Echoed, Carries, PartAt;
    Forward(v, offset, rooms(i));
    var part := PartAt(v, offset, rooms(i));
    var parts := Parts(v, offset, rooms, i, n).value;
    var next := Advance(offset, 5 + Taken(|part.bytes|));
    PartIs(v, offset, rooms(i));
    EchoedStep(rooms, i, |v| - offset);
    TakenWhole(part);
    if next == |v| {
      NothingLeft(v, rooms, i + 1);
      OnePart(part);
      CarriesOn(v, part, next, [], Echoed(rooms, i + 1, |v| - next), Echoed(rooms, i, |v| - offset));
    } else {
      PayloadIs(v, next, rooms, i + 1, n - 1);
      var rest := Parts(v, next, rooms, i + 1, n - 1).value;
      assert parts[1..] == rest;
      CarriesOn(v, part, next, Payload(rest), Echoed(rooms, i + 1, |v| - next), Echoed(rooms, i, |v| - offset));
    }
  }

  /**
   The prepares of a long write carry the value without gap or overlap if and only if no part is longer
   than the receive buffer can echo; otherwise they carry more bytes than the value has.
   */
  lemma TilesExactly(v: seq<Byte>, s: Server, rooms: nat -> nat, n: nat)
    requires (forall k :: rooms(k) >= 23) && rooms(0) - 3 < |v| < 0x1_0000 && n > |v|
    ensures Written(v, s, rooms, NEVER, n).Some?
    ensures var carried := Carried(Written(v, s, rooms, NEVER, n).value.issued);
      (carried == v <==> Echoed(rooms, 0, |v|)) && (carried != v ==> |carried| > |v|)
  {
    hide Written, Echoed, Parts, AllAsked;
    PartsEnd(v, 0, rooms, 0, n - 1);
    LongIs(v, s, rooms, NEVER, n, n);
    var parts := Parts(v, 0, rooms, 0, n - 1).value;
    CarriedIs(s.handle, parts);
    PayloadIs(v, 0, rooms, 0, n - 1);
    assert v[0..] == v;
  }

  /** Buffers of one size. */
  function Always(room: nat): nat -> nat {
    k => room
  }

  /**
   With one buffer size: if and only if the buffer is no larger than the receive buffer, or the whole value can
   be echoed.
   */
  lemma TilesAtOneSize(v: seq<Byte>, s: Server, room: nat, n: nat)
    requires room >= 23 && room - 3 < |v| < 0x1_0000 && n > |v|
    ensures var w := Written(v, s, Always(room), NEVER, n);
      w.Some? && (Carried(w.value.issued) == v <==> room <= 512 || |v| <= 507)
  {
    hide Written, Sent;
    var rooms := Always(room);
    TilesExactly(v, s, rooms, n);
    FitsFirst(rooms, 0, |v|);
    if room > RX_BUFFER && |v| > RX_BUFFER - 5 {
      assert !FitsAt(rooms, 0, |v|, 0);
    } else {
      assert Echoed(rooms, 0, |v|);
    }
  }

  lemma PartsAt(v: seq<Byte>)
    requires |v| == 600
    ensures PartAt(v, 0, 517) == Part(0, v[..512]) && PartAt(v, 507, 517) == Part(507, v[507..])
  {
    assert v[0..][..512] == v[..512];
    assert v[507..][..93] == v[507..];
  }

  lemma NextPart(v: seq<Byte>, offset: U16, rooms: nat -> nat, i: nat, n: nat)
    requires (forall k :: rooms(k) >= 23) && offset <= |v| && n > 0
    requires Advance(offset, 5 + Taken(|PartAt(v, offset, rooms(i)).bytes|)) < |v|
    requires Parts(v, Advance(offset, 5 + Taken(|PartAt(v, offset, rooms(i)).bytes|)), rooms, i + 1, n - 1).Some?
    ensures var part := PartAt(v, offset, rooms(i));
      Parts(v, offset, rooms, i, n)
        == Some([part] + Parts(v, Advance(offset, 5 + Taken(|part.bytes|)), rooms, i + 1, n - 1).value)
  {
  }

  lemma LastPart(v: seq<Byte>, offset: U16, rooms: nat -> nat, i: nat, n: nat)
    requires (forall k :: rooms(k) >= 23) && offset <= |v| && n > 0
    requires Advance(offset, 5 + Taken(|PartAt(v, offset, rooms(i)).bytes|)) == |v|
    ensures Parts(v, offset, rooms, i, n) == Some([PartAt(v, offset, rooms(i))])
  {
  }

  lemma TwoParts(v: seq<Byte>, rooms: nat -> nat)
    requires |v| == 600 && forall k :: rooms(k) == 517
    ensures PartAt(v, 0, 517).bytes == v[..512] && PartAt(v, 507, 517).bytes == v[507..]
    ensures Parts(v, 0, rooms, 0, 600) == Some([PartAt(v, 0, 517), PartAt(v, 507, 517)])
  {
    hide PartAt, Parts;
    assert PartAt(v, 0, 517) == Part(0, v[..512]) && PartAt(v, 507, 517) == Part(507, v[507..]) by {
      PartsAt(v);
    }
    LastPart(v, 507, rooms, 1, 599);
    NextPart(v, 0, rooms, 0, 600);
    assert [PartAt(v, 0, 517)] + [PartAt(v, 507, 517)] == [PartAt(v, 0, 517), PartAt(v, 507, 517)];
  }

  /** A value of 600 bytes in buffers of 517: five bytes are sent twice. */
  lemma RepeatsBytes(v: seq<Byte>, s: Server)
    requires |v| == 600
    ensures var w := Written(v, s, Always(517), NEVER, 601);
      w.Some? && Carried(w.value.issued) == v[..512] + v[507..]
  {
    hide Written, Parts, AllAsked, PartAt;
    var rooms := Always(517);
    PartsEnd(v, 0, rooms, 0, 600);
    LongIs(v, s, rooms, NEVER, 601, 601);
    TwoParts(v, rooms);
    var first, second := PartAt(v, 0, 517), PartAt(v, 507, 517);
    CarriedIs(s.handle, [first, second]);
    assert [first, second][1..] == [second] && [second][1..] == [];
    assert Payload([second]) == second.bytes + [] == second.bytes;
  }
}

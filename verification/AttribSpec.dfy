/**
 The ATT transport as a state machine on values: what each call and each main-loop event does
 to the two queues, the watches and the stale flag, and which effects it has, in order.
 */
module AttribSpec {
  import opened AttCodes

  function OpcodeToExpected(opcode: nat): nat {
    if opcode == ATT_OP_MTU_REQ then ATT_OP_MTU_RESP
    else if opcode == ATT_OP_FIND_INFO_REQ then ATT_OP_FIND_INFO_RESP
    else if opcode == ATT_OP_FIND_BY_TYPE_REQ then ATT_OP_FIND_BY_TYPE_RESP
    else if opcode == ATT_OP_READ_BY_TYPE_REQ then ATT_OP_READ_BY_TYPE_RESP
    else if opcode == ATT_OP_READ_REQ then ATT_OP_READ_RESP
    else if opcode == ATT_OP_READ_BLOB_REQ then ATT_OP_READ_BLOB_RESP
    else if opcode == ATT_OP_READ_MULTI_REQ then ATT_OP_READ_MULTI_RESP
    else if opcode == ATT_OP_READ_BY_GROUP_REQ then ATT_OP_READ_BY_GROUP_RESP
    else if opcode == ATT_OP_WRITE_REQ then ATT_OP_WRITE_RESP
    else if opcode == ATT_OP_PREP_WRITE_REQ then ATT_OP_PREP_WRITE_RESP
    else if opcode == ATT_OP_EXEC_WRITE_REQ then ATT_OP_EXEC_WRITE_RESP
    else if opcode == ATT_OP_HANDLE_IND then ATT_OP_HANDLE_CNF
    else 0
  }

  predicate IsResponse(opcode: nat) {
    opcode in [ATT_OP_ERROR, ATT_OP_MTU_RESP, ATT_OP_FIND_INFO_RESP, ATT_OP_FIND_BY_TYPE_RESP,
      ATT_OP_READ_BY_TYPE_RESP, ATT_OP_READ_RESP, ATT_OP_READ_BLOB_RESP, ATT_OP_READ_MULTI_RESP,
      ATT_OP_READ_BY_GROUP_RESP, ATT_OP_WRITE_RESP, ATT_OP_PREP_WRITE_RESP, ATT_OP_EXEC_WRITE_RESP,
      ATT_OP_HANDLE_CNF]
  }

  /** A queued command. `func` says whether its result callback is (still) set. */
  datatype Cmd = Cmd(serial: nat, id: nat, opcode: nat, expected: nat, sent: bool, func: bool)

  /** What the outside world sees, in order. */
  datatype Effect =
    | Wrote(serial: nat)                // the PDU went to the channel
    | Called(serial: nat, status: nat)  // the result callback ran
    | Cancelled(serial: nat)            // a cancel call succeeded on the command
    | Destroyed(serial: nat)            // the destroy notify ran and the command was freed

  datatype State = State(
    requests: seq<Cmd>, responses: seq<Cmd>,
    nextId: nat, nextSerial: nat,
    writeWatch: bool, timeoutWatch: bool, stale: bool,
    log: seq<Effect>)

  const INIT: State := State([], [], 0, 0, false, false, false, [])

  /** What user code does from inside a callback. */
  datatype Action = ActSend(id: nat, opcode: nat, func: bool) | ActCancel(id: nat) | ActCancelAll

  function WakeUp(s: State): State { s.(writeWatch := true) }

  /** g_attrib_send: the new state and the returned id. */
  function Send(s: State, id: nat, opcode: nat, func: bool): (State, nat) {
    if s.stale then (s, 0)
    else
      var newId := if id != 0 then id else s.nextId + 1;
      var c := Cmd(s.nextSerial, newId, opcode, OpcodeToExpected(opcode), false, func);
      var t := s.(nextSerial := s.nextSerial + 1, nextId := if id != 0 then s.nextId else s.nextId + 1);
      if IsResponse(opcode) then
        var u := t.(responses := s.responses + [c]);
        (if |u.responses| == 1 then WakeUp(u) else u, newId)
      else
        var u := t.(requests := if id != 0 then [c] + s.requests else s.requests + [c]);
        (if |u.requests| == 1 then WakeUp(u) else u, newId)
  }

  /** Index of the first command with the id, or the length of the queue. */
  function FindId(q: seq<Cmd>, id: nat): (i: nat)
    ensures i <= |q|
    ensures i < |q| ==> q[i].id == id
    ensures forall j :: 0 <= j < i ==> q[j].id != id
  {
    if q == [] || q[0].id == id then 0 else 1 + FindId(q[1..], id)
  }

  /** Cancel the i-th command of a queue: the new queue and the effects. */
  function CancelAt(q: seq<Cmd>, i: nat): (seq<Cmd>, seq<Effect>)
    requires i < |q|
  {
    if i == 0 && q[0].sent then (q[0 := q[0].(func := false)], [Cancelled(q[0].serial)])
    else (q[..i] + q[i + 1..], [Cancelled(q[i].serial), Destroyed(q[i].serial)])
  }

  /** g_attrib_cancel. */
  function CancelId(s: State, id: nat): (State, bool) {
    var i := FindId(s.requests, id);
    if i < |s.requests| then
      var (q, es) := CancelAt(s.requests, i);
      (s.(requests := q, log := s.log + es), true)
    else
      var j := FindId(s.responses, id);
      if j < |s.responses| then
        var (q, es) := CancelAt(s.responses, j);
        (s.(responses := q, log := s.log + es), true)
      else (s, false)
  }

  /** The effects of dropping every command of a queue, in order. */
  function DropAll(q: seq<Cmd>): seq<Effect> {
    if q == [] then [] else [Cancelled(q[0].serial), Destroyed(q[0].serial)] + DropAll(q[1..])
  }

  /** How many commands at the front of a queue are marked sent. */
  function LeadSent(q: seq<Cmd>): (n: nat)
    ensures n <= |q| && (forall i :: 0 <= i < n ==> q[i].sent) && (n < |q| ==> !q[n].sent)
  {
    if q == [] || !q[0].sent then 0 else 1 + LeadSent(q[1..])
  }

  function MarkAll(q: seq<Cmd>): seq<Effect> {
    if q == [] then [] else [Cancelled(q[0].serial)] + MarkAll(q[1..])
  }

  /** cancel_all_per_queue: a sent head stays, without its callback. (Of several, only the last would.) */
  function CancelQueue(q: seq<Cmd>): (seq<Cmd>, seq<Effect>) {
    var n := LeadSent(q);
    (if n == 0 then [] else [q[n - 1].(func := false)], MarkAll(q[..n]) + DropAll(q[n..]))
  }

  /** g_attrib_cancel_all. */
  function CancelEvery(s: State): State {
    var (q, es) := CancelQueue(s.requests);
    var (r, fs) := CancelQueue(s.responses);
    s.(requests := q, responses := r, log := s.log + es + fs)
  }

  function Act(s: State, a: Action): State {
    match a
    case ActSend(id, opcode, func) => Send(s, id, opcode, func).0
    case ActCancel(id) => CancelId(s, id).0
    case ActCancelAll => CancelEvery(s)
  }

  function Acts(s: State, acts: seq<Action>): State
    decreases |acts|
  {
    if acts == [] then s else Acts(Act(s, acts[0]), acts[1..])
  }

  /** can_write_data followed, when it returns FALSE, by destroy_sender. */
  function CanWrite(s: State, hup: bool, ioOk: bool): State {
    var off := s.(writeWatch := false);
    if s.stale then off
    else if hup then off
    else if s.responses == [] && s.requests == [] then off
    else
      var fromResponses := s.responses != [];
      var cmd := if fromResponses then s.responses[0] else s.requests[0];
      if cmd.sent then off
      else if !ioOk then off
      else
        var log := s.log + [Wrote(cmd.serial)];
        if cmd.expected == 0 then
          // fire and forget: the watch stays
          if fromResponses then s.(responses := s.responses[1..], log := log + [Destroyed(cmd.serial)])
          else s.(requests := s.requests[1..], log := log + [Destroyed(cmd.serial)])
        else if fromResponses then
          off.(responses := s.responses[0 := cmd.(sent := true)], timeoutWatch := true, log := log)
        else off.(requests := s.requests[0 := cmd.(sent := true)], timeoutWatch := true, log := log)
  }

  /** Run a command's callback with what it does inside, then destroy the command. */
  function Finish(s: State, c: Cmd, status: nat, acts: seq<Action>): State {
    var t := if c.func then Acts(s.(log := s.log + [Called(c.serial, status)]), acts) else s;
    t.(log := t.log + [Destroyed(c.serial)])
  }

  /** A callback that calls nothing back leaves the queue alone. */
  lemma QuietFinish(s: State, c: Cmd, status: nat)
    ensures Finish(s, c, status, []).requests == s.requests
  {
  }

  function ResultStatus(c: Cmd, opcode: nat, ecode: nat): nat {
    if opcode == ATT_OP_ERROR then ecode
    else if c.expected != opcode then ATT_ECODE_IO
    else 0
  }

  /** A response PDU stops the timer and finishes the head request, whether or not it was sent. */
  function Answer(s: State, opcode: nat, ecode: nat, acts: seq<Action>): State {
    var u := s.(timeoutWatch := false);
    if u.requests == [] then u
    else
      var c := u.requests[0];
      var v := u.(requests := u.requests[1..]);
      var w := if v.requests != [] || v.responses != [] then WakeUp(v) else v;
      Finish(w, c, ResultStatus(c, opcode, ecode), acts)
  }

  /**
   received_data. `events` is what the event handlers do with the PDU, `acts` what the result
   callback does.
   */
  function Received(s: State, hup: bool, ioOk: bool, opcode: nat, ecode: nat,
                    events: seq<Action>, acts: seq<Action>): State
  {
    if s.stale || hup then s
    else if !ioOk then
      if s.requests != [] || s.responses != [] then WakeUp(s) else s
    else
      var t := Acts(s, events);
      if IsResponse(opcode) then Answer(t, opcode, ecode, acts) else t
  }

  /**
   Whether the read watch stays: it goes with the channel, and with a response nobody waits for and no handler
   to see.
   */
  predicate KeepsReading(s: State, hup: bool, ioOk: bool, opcode: nat, hasEvents: bool, events: seq<Action>) {
    !s.stale && !hup && (ioOk && IsResponse(opcode) && Acts(s, events).requests == [] ==> hasEvents)
  }

  /** The loops of disconnect_timeout; one script per callback that runs, none once they are used up. */
  function AbortAll(s: State, status: nat, scripts: seq<seq<Action>>): State
    decreases |scripts|, |s.requests|
  {
    if s.requests == [] then s
    else
      var c := s.requests[0];
      var t := s.(requests := s.requests[1..]);
      if c.func && scripts != [] then
        AbortAll(Finish(t, c, status, scripts[0]), ATT_ECODE_ABORTED, scripts[1..])
      else
        AbortAll(Finish(t, c, status, []), ATT_ECODE_ABORTED, scripts)
  }

  /** disconnect_timeout. */
  function Timeout(s: State, scripts: seq<seq<Action>>): State {
    AbortAll(s, ATT_ECODE_TIMEOUT, scripts).(stale := true)
  }

  function DestroyEach(q: seq<Cmd>): seq<Effect> {
    if q == [] then [] else [Destroyed(q[0].serial)] + DestroyEach(q[1..])
  }

  /** attrib_destroy: every queued command is destroyed, requests first, and no callback runs. */
  function Destroy(s: State): State {
    s.(requests := [], responses := [], log := s.log + DestroyEach(s.requests) + DestroyEach(s.responses))
  }

  /** Main-loop events and calls. The watches fire only while they are armed. */
  datatype Event =
    | EvAct(act: Action)
    | EvCanWrite(hup: bool, ioOk: bool)
    | EvReceived(hup: bool, rdOk: bool, opcode: nat, ecode: nat, events: seq<Action>, acts: seq<Action>)
    | EvTimeout(scripts: seq<seq<Action>>)

  function Step(s: State, e: Event): State {
    match e
    case EvAct(a) => Act(s, a)
    case EvCanWrite(hup, ioOk) => if s.writeWatch then CanWrite(s, hup, ioOk) else s
    case EvReceived(hup, rdOk, op, ecode, events, acts) => Received(s, hup, rdOk, op, ecode, events, acts)
    case EvTimeout(scripts) => if s.timeoutWatch && !s.stale then Timeout(s, scripts) else s
  }

  function Run(s: State, es: seq<Event>): State
    decreases |es|
  {
    if es == [] then s else Run(Step(s, es[0]), es[1..])
  }
}

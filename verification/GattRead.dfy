/**
 Reading a characteristic value of any length: one READ, then BLOB requests while responses fill
 the buffer, and what the whole exchange with a server delivers.
 */
module GattRead {
  import opened Basics
  import opened Bytes
  import opened AttCodes
  import opened Att

  const ATT_ECODE_INVALID_OFFSET: nat := 0x07

  /** What a callback does: ask for the value from an offset on, or report to the user. */
  datatype Outcome = Ask(offset: U16) | Report(status: nat, pdu: seq<Byte>)

  datatype Progress = Progress(buffer: seq<Byte>, size: U16) {
    predicate Valid() {
      size <= |buffer|
    }
  }

  /** The offset is computed in int and stored in 16 bits. */
  function Before(size: int): U16
    requires 0 <= size
  {
    (size + 0xFFFF) % 0x1_0000
  }

  /** read_char_helper; `accepted` says whether the transport takes the next request. */
  function OnRead(status: nat, rpdu: seq<Byte>, buflen: nat, accepted: bool): (Progress, Outcome)
    requires |rpdu| < 0x1_0000
  {
    if status != 0 || |rpdu| < buflen then (Progress([], 0), Report(status, rpdu))
    else (Progress(rpdu, |rpdu|), if accepted then Ask(Before(|rpdu|)) else Report(ATT_ECODE_IO, rpdu))
  }

  /** read_blob_helper: an error, like an empty part, ends the read with status zero. */
  function OnBlob(p: Progress, status: nat, rpdu: seq<Byte>, buflen: nat, accepted: bool): (r: (Progress, Outcome))
    requires p.Valid() && (status == 0 ==> 1 <= |rpdu|) && |rpdu| < 0x1_0000
    ensures r.0.Valid()
  {
    if status != 0 || |rpdu| == 1 then (p, Report(0, p.buffer[..p.size]))
    else
      var q := Progress(p.buffer[..p.size] + rpdu[1..], (p.size + |rpdu| - 1) % 0x1_0000);
      if |rpdu| < buflen then (q, Report(0, q.buffer[..q.size]))
      else (q, if accepted then Ask(Before(q.size)) else Report(ATT_ECODE_IO, q.buffer[..q.size]))
  }

  /** struct read_long_data, as the callbacks update it. */
  class ReadLongData {
    var buffer: seq<Byte>
    var size: U16

    constructor ()
      ensures Val() == Progress([], 0)
    {
      buffer, size := [], 0;
    }

    ghost function Val(): Progress
      reads this
    {
      Progress(buffer, size)
    }

    method ReadCharHelper(status: nat, rpdu: seq<Byte>, buflen: nat, accepted: bool) returns (o: Outcome)
      requires |rpdu| < 0x1_0000 && Val() == Progress([], 0)
      modifies this
      ensures (Val(), o) == OnRead(status, rpdu, buflen, accepted)
    {
      if status != 0 || |rpdu| < buflen {
        return Report(status, rpdu);
      }
      buffer := rpdu;
      size := |rpdu|;
      if accepted {
        return Ask(Before(|rpdu|));
      }
      return Report(ATT_ECODE_IO, rpdu);
    }

    method ReadBlobHelper(status: nat, rpdu: seq<Byte>, buflen: nat, accepted: bool) returns (o: Outcome)
      requires (status == 0 ==> 1 <= |rpdu|) && |rpdu| < 0x1_0000 && Val().Valid()
      modifies this
      ensures (Val(), o) == OnBlob(old(Val()), status, rpdu, buflen, accepted)
    {
      if status != 0 || |rpdu| == 1 {
        return Report(0, buffer[..size]);
      }
      buffer := buffer[..size] + rpdu[1..];
      size := (size + |rpdu| - 1) % 0x1_0000;
      if |rpdu| < buflen {
        return Report(0, buffer[..size]);
      }
      if accepted {
        return Ask(Before(size));
      }
      return Report(ATT_ECODE_IO, buffer[..size]);
    }
  }

  /** What the user is told, and after how many requests. */
  datatype Delivery = Delivery(status: nat, pdu: seq<Byte>, requests: nat)

  function Count(d: Option<Delivery>): Option<Delivery> {
    if d.None? then None else Some(d.value.(requests := d.value.requests + 1))
  }

  /** The server's response to a request PDU. */
  function Serve(handle: U16, v: seq<Byte>, request: seq<Byte>, mtu: nat): (r: seq<Byte>)
    requires mtu >= 23
    ensures r != []
  {
    var read, blob := DecodeReadReq(request), DecodeBlobReq(request);
    if read == Some(handle) then ReadResp(v, mtu)
    else if blob.Some? && blob.value.0 == handle then
      var offset := blob.value.1;
      if offset > |v| then ErrorPdu(ATT_OP_READ_BLOB_REQ, handle, ATT_ECODE_INVALID_OFFSET)
      else ReadBlobResp(v, offset, mtu)
    else ErrorPdu(if request == [] then 0 else request[0], handle, ATT_ECODE_REQ_NOT_SUPP)
  }

  /** What a callback is told of a request: the status and the response as the transport receives them. */
  function Answer(handle: U16, v: seq<Byte>, request: seq<Byte>, mtu: nat, fault: Byte): (r: (nat, seq<Byte>))
    requires mtu >= 23
    ensures 1 <= |r.1| <= RX_BUFFER
  {
    var opcode := if request == [] then 0 else request[0];
    var rpdu := if fault != 0 then ErrorPdu(opcode, handle, fault) else Serve(handle, v, request, mtu);
    (StatusOf(Clip(rpdu)), Clip(rpdu))
  }

  function BlobAnswer(handle: U16, v: seq<Byte>, offset: U16, mtu: nat, fault: Byte): (r: (nat, seq<Byte>))
    requires mtu >= 23
    ensures 1 <= |r.1| <= RX_BUFFER
  {
    Answer(handle, v, BlobReq(handle, offset, mtu), mtu, fault)
  }

  function ReadAnswer(handle: U16, v: seq<Byte>, mtu: nat, fault: Byte): (r: (nat, seq<Byte>))
    requires mtu >= 23
    ensures 1 <= |r.1| <= RX_BUFFER
  {
    Answer(handle, v, ReadReq(handle, mtu), mtu, fault)
  }

  /** The server reads its part of the value for the offset it decodes. */
  lemma BlobAsked(handle: U16, v: seq<Byte>, offset: U16, mtu: nat, fault: Byte)
    requires mtu >= 23 && offset <= |v|
    ensures fault == 0 ==> BlobAnswer(handle, v, offset, mtu, fault) == (0, Clip(ReadBlobResp(v, offset, mtu)))
    ensures fault != 0 ==> BlobAnswer(handle, v, offset, mtu, fault).0 == fault
  {
    BlobReqRoundTrip(handle, offset, mtu);
    assert DecodeReadReq(BlobReq(handle, offset, mtu)) == None;
  }

  lemma ReadAsked(handle: U16, v: seq<Byte>, mtu: nat, fault: Byte)
    requires mtu >= 23
    ensures fault == 0 ==> ReadAnswer(handle, v, mtu, fault) == (0, Clip(ReadResp(v, mtu)))
    ensures fault != 0 ==> ReadAnswer(handle, v, mtu, fault).0 == fault
  {
    ReadReqRoundTrip(handle, mtu);
  }

  /** The exchange from the i-th request, a BLOB, on, for at most n requests. */
  function Blobs(handle: U16, v: seq<Byte>, p: Progress, offset: U16, mtu: nat, faults: Faults, i: nat, n: nat):
      Option<Delivery>
    requires p.Valid() && mtu >= 23
    decreases n
  {
    if n == 0 then None
    else
      var (status, rpdu) := BlobAnswer(handle, v, offset, mtu, faults(i));
      var (q, o) := OnBlob(p, status, rpdu, mtu, true);
      match o
      case Report(code, pdu) => Some(Delivery(code, pdu, 1))
      case Ask(next) => Count(Blobs(handle, v, q, next, mtu, faults, i + 1, n - 1))
  }

  /** gatt_read_char of a value v from a server with this MTU, for at most n requests. */
  function Reads(handle: U16, v: seq<Byte>, mtu: nat, faults: Faults, n: nat): Option<Delivery>
    requires mtu >= 23
  {
    if n == 0 then None
    else
      var (status, rpdu) := ReadAnswer(handle, v, mtu, faults(0));
      var (p, o) := OnRead(status, rpdu, mtu, true);
      match o
      case Report(code, pdu) => Some(Delivery(code, pdu, 1))
      case Ask(next) => Count(Blobs(handle, v, p, next, mtu, faults, 1, n - 1))
  }

  /** What a read of the whole value hands to the user. */
  function Whole(v: seq<Byte>): seq<Byte> {
    [ATT_OP_READ_RESP as Byte] + v
  }

  /** One request for every full response, and one more. */
  function Requests(len: nat, mtu: nat): nat
    requires mtu >= 2
  {
    len / (mtu - 1) + 1
  }

  lemma RequestsStep(len: nat, mtu: nat)
    requires mtu >= 2
    ensures len < mtu - 1 ==> Requests(len, mtu) == 1
    ensures len >= mtu - 1 ==> Requests(len, mtu) == 1 + Requests(len - (mtu - 1), mtu)
  {
    if len < mtu - 1 {
      DivModUnique(len, mtu - 1, 0, len);
    } else {
      DivStep(len, mtu - 1);
    }
  }

  /** The read so far: the first `offset` bytes of the value. */
  function SoFar(v: seq<Byte>, offset: nat): (p: Progress)
    requires offset <= |v| < 0xFFFF
    ensures p.Valid() && p.buffer[..p.size] == p.buffer
  {
    Progress(Whole(v[..offset]), offset + 1)
  }

  /** A full part moves the read on. */
  lemma FullPart(v: seq<Byte>, offset: nat, mtu: nat)
    requires offset + mtu - 1 <= |v| < 0xFFFF && 23 <= mtu <= RX_BUFFER
    ensures OnBlob(SoFar(v, offset), 0, Clip(ReadBlobResp(v, offset, mtu)), mtu, true)
      == (SoFar(v, offset + mtu - 1), Ask(offset + mtu - 1))
  {
    var next := offset + mtu - 1;
    var rpdu := ReadBlobResp(v, offset, mtu);
    assert Clip(rpdu) == rpdu && |rpdu| == mtu;
    assert rpdu[1..] == v[offset..next];
    assert Whole(v[..offset]) + v[offset..next] == Whole(v[..next]);
  }

  /** A short part, or an empty one, ends it. */
  lemma LastPart(v: seq<Byte>, offset: nat, mtu: nat)
    requires offset <= |v| < offset + mtu - 1 && |v| < 0xFFFF && 23 <= mtu <= RX_BUFFER
    ensures OnBlob(SoFar(v, offset), 0, Clip(ReadBlobResp(v, offset, mtu)), mtu, true).1 == Report(0, Whole(v))
  {
    var rpdu := ReadBlobResp(v, offset, mtu);
    assert Clip(rpdu) == rpdu && |rpdu| == 1 + |v| - offset;
    assert rpdu[1..] == v[offset..];
    assert v[..offset] + v[offset..] == v;
    assert Whole(v[..offset]) + v[offset..] == Whole(v);
    if offset == |v| {
      assert v[..offset] == v;
    } else {
      assert (Whole(v[..offset]) + v[offset..])[..|v| + 1] == Whole(v);
    }
  }

  /** An error ends it as well: what was fetched is reported, with status zero. */
  lemma FaultyPart(handle: U16, v: seq<Byte>, offset: nat, mtu: nat, fault: Byte)
    requires offset <= |v| < 0xFFFF && mtu >= 23 && fault != 0
    ensures var (status, rpdu) := BlobAnswer(handle, v, offset, mtu, fault);
      OnBlob(SoFar(v, offset), status, rpdu, mtu, true).1 == Report(0, Whole(v[..offset]))
  {
    var p := SoFar(v, offset);
    BlobAsked(handle, v, offset, mtu, fault);
    assert p.buffer[..p.size] == p.buffer;
  }

  /** With the first `offset` bytes in the buffer, BLOB requests that do not fail fetch the rest. */
  lemma {:induction false} BlobsFetch(handle: U16, v: seq<Byte>, offset: nat, mtu: nat, faults: Faults, i: nat, n: nat)
    requires offset <= |v| < 0xFFFF && 23 <= mtu <= RX_BUFFER && n >= Requests(|v| - offset, mtu)
    requires forall j :: i <= j < i + Requests(|v| - offset, mtu) ==> faults(j) == 0
    ensures Blobs(handle, v, SoFar(v, offset), offset, mtu, faults, i, n)
      == Some(Delivery(0, Whole(v), Requests(|v| - offset, mtu)))
    decreases n
  {
    hide OnBlob, Requests, ReadBlobResp, Whole, BlobAnswer;
    RequestsStep(|v| - offset, mtu);
    BlobAsked(handle, v, offset, mtu, faults(i));
    if |v| - offset < mtu - 1 {
      LastPart(v, offset, mtu);
    } else {
      FullPart(v, offset, mtu);
      BlobsFetch(handle, v, offset + mtu - 1, mtu, faults, i + 1, n - 1);
    }
  }

  /** The bytes fetched by k full responses. */
  function Fetched(k: nat, mtu: nat): nat
    requires mtu >= 2
  {
    if k == 0 then 0 else mtu - 1 + Fetched(k - 1, mtu)
  }

  lemma {:induction false} FetchedIs(k: nat, mtu: nat)
    requires mtu >= 2
    ensures Fetched(k, mtu) == k * (mtu - 1)
  {
    if k > 0 {
      FetchedIs(k - 1, mtu);
      assert (k - 1) * (mtu - 1) + (mtu - 1) == k * (mtu - 1);
    }
  }

  /**
   If the k-th BLOB request from here is the first to fail, the user gets what was fetched before it, with
   status zero.
   */
  lemma {:induction false} BlobsFail(handle: U16, v: seq<Byte>, offset: nat, mtu: nat, faults: Faults, i: nat, k: nat,
                                     n: nat)
    requires offset <= |v| < 0xFFFF && 23 <= mtu <= RX_BUFFER && n >= Requests(|v| - offset, mtu)
    requires k < Requests(|v| - offset, mtu) && faults(i + k) != 0 && forall j :: i <= j < i + k ==> faults(j) == 0
    ensures offset + Fetched(k, mtu) <= |v|
    ensures Blobs(handle, v, SoFar(v, offset), offset, mtu, faults, i, n)
      == Some(Delivery(0, Whole(v[..offset + Fetched(k, mtu)]), k + 1))
    decreases n
  {
    hide OnBlob, Requests, ReadBlobResp, Whole, BlobAnswer;
    RequestsStep(|v| - offset, mtu);
    BlobAsked(handle, v, offset, mtu, faults(i));
    if k == 0 {
      FaultyPart(handle, v, offset, mtu, faults(i));
    } else {
      assert faults(i) == 0;
      FullPart(v, offset, mtu);
      BlobsFail(handle, v, offset + mtu - 1, mtu, faults, i + 1, k - 1, n - 1);
    }
  }

  lemma FirstFull(v: seq<Byte>, mtu: nat)
    requires mtu - 1 <= |v| < 0xFFFF && 23 <= mtu <= RX_BUFFER
    ensures OnRead(0, Clip(ReadResp(v, mtu)), mtu, true) == (SoFar(v, mtu - 1), Ask(mtu - 1))
  {
    var rpdu := ReadResp(v, mtu);
    assert Clip(rpdu) == rpdu == Whole(v[..mtu - 1]);
  }

  lemma FirstShort(v: seq<Byte>, mtu: nat)
    requires |v| < mtu - 1 && 23 <= mtu <= RX_BUFFER
    ensures OnRead(0, Clip(ReadResp(v, mtu)), mtu, true).1 == Report(0, Whole(v))
  {
    var rpdu := ReadResp(v, mtu);
    assert Clip(rpdu) == rpdu == Whole(v);
  }

  /**
   Where the transport refuses the next request the user is told of an I/O error, with exactly the part of the
   value that the full responses so far have brought.
   */
  lemma RefusalTold(v: seq<Byte>, offset: nat, mtu: nat)
    requires offset + mtu - 1 <= |v| < 0xFFFF && 23 <= mtu <= RX_BUFFER
    ensures OnRead(0, Clip(ReadResp(v, mtu)), mtu, false) == (SoFar(v, mtu - 1), Report(0x80, Whole(v[..mtu - 1])))
    ensures OnBlob(SoFar(v, offset), 0, Clip(ReadBlobResp(v, offset, mtu)), mtu, false)
      == (SoFar(v, offset + mtu - 1), Report(0x80, Whole(v[..offset + mtu - 1])))
  {
    hide Whole, ReadResp, ReadBlobResp;
    FirstFull(v, mtu);
    FullPart(v, offset, mtu);
  }

  lemma ReadsFetch(handle: U16, v: seq<Byte>, mtu: nat, faults: Faults, n: nat)
    requires |v| < 0xFFFF && 23 <= mtu <= RX_BUFFER && n >= Requests(|v|, mtu)
    requires forall i :: 0 <= i < Requests(|v|, mtu) ==> faults(i) == 0
    ensures Reads(handle, v, mtu, faults, n) == Some(Delivery(0, Whole(v), Requests(|v|, mtu)))
  {
    hide Requests, Blobs, ReadAnswer;
    RequestsStep(|v|, mtu);
    ReadAsked(handle, v, mtu, faults(0));
    if |v| < mtu - 1 {
      FirstShort(v, mtu);
    } else {
      FirstFull(v, mtu);
      BlobsFetch(handle, v, mtu - 1, mtu, faults, 1, n - 1);
    }
  }

  /**
   For every value and MTU, a read whose requests do not fail delivers the opcode and exactly the
   value, after one request for every full response and one more; a value that fills its last response
   costs an empty BLOB.
   */
  lemma ReadsDeliver(handle: U16, v: seq<Byte>, mtu: nat, faults: Faults, n: nat)
    requires |v| < 0xFFFF && 23 <= mtu <= RX_BUFFER && n >= |v| / (mtu - 1) + 1
    requires forall i :: 0 <= i <= |v| / (mtu - 1) ==> faults(i) == 0
    ensures var d := Reads(handle, v, mtu, faults, n);
      d.Some? && d.value.status == 0 && d.value.pdu == [0x0B] + v && d.value.requests == |v| / (mtu - 1) + 1
  {
    assert Requests(|v|, mtu) == |v| / (mtu - 1) + 1;
    ReadsFetch(handle, v, mtu, faults, n);
  }

  /**
   If request k > 0 is the first to fail, the error is not reported: the user gets exactly the part
   fetched so far, k full responses, with status zero.
   */
  lemma ErrorHidden(handle: U16, v: seq<Byte>, mtu: nat, faults: Faults, k: nat, n: nat)
    requires |v| < 0xFFFF && 23 <= mtu <= RX_BUFFER && n >= Requests(|v|, mtu)
    requires 0 < k < Requests(|v|, mtu) && faults(k) != 0 && forall i :: 0 <= i < k ==> faults(i) == 0
    ensures Fetched(k, mtu) <= |v|
    ensures Reads(handle, v, mtu, faults, n) == Some(Delivery(0, Whole(v[..Fetched(k, mtu)]), k + 1))
    ensures Fetched(k, mtu) == k * (mtu - 1)
  {
    hide Requests, Blobs, OnRead, Whole, ReadAnswer;
    RequestsStep(|v|, mtu);
    ReadAsked(handle, v, mtu, faults(0));
    FirstFull(v, mtu);
    BlobsFail(handle, v, mtu - 1, mtu, faults, 1, k - 1, n - 1);
    FetchedIs(k, mtu);
  }

  /** The user sees an error if and only if the very first request failed, and then that error. */
  lemma ErrorsReportedExactly(handle: U16, v: seq<Byte>, mtu: nat, faults: Faults, n: nat)
    requires |v| < 0xFFFF && 23 <= mtu <= RX_BUFFER && n >= Requests(|v|, mtu)
    ensures Reads(handle, v, mtu, faults, n).Some?
    ensures Reads(handle, v, mtu, faults, n).value.status != 0 <==> faults(0) != 0
    ensures faults(0) != 0 ==> Reads(handle, v, mtu, faults, n).value.status == faults(0)
  {
    RequestsStep(|v|, mtu);
    ReadAsked(handle, v, mtu, faults(0));
    if faults(0) == 0 {
      hide Reads, Requests;
      if forall i :: 0 <= i < Requests(|v|, mtu) ==> faults(i) == 0 {
        ReadsFetch(handle, v, mtu, faults, n);
      } else {
        var k := FirstFault(faults, Requests(|v|, mtu));
        ErrorHidden(handle, v, mtu, faults, k, n);
      }
    }
  }

  /** A value of a hundred bytes whose third request fails: the user is handed 44 bytes as a success. */
  lemma ErrorTakenForSuccess(handle: U16, v: seq<Byte>)
    requires |v| == 100
    ensures Reads(handle, v, 23, i => if i == 2 then 0x0E else 0, 5) == Some(Delivery(0, Whole(v[..44]), 3))
  {
    assert Requests(100, 23) == 5;
    ErrorHidden(handle, v, 23, i => if i == 2 then 0x0E else 0, 2, 5);
  }

  /** dec_read_resp then recovers the value. */
  lemma ReadRecovers(handle: U16, v: seq<Byte>, mtu: nat, n: nat, room: nat)
    requires |v| < 0xFFFF && 23 <= mtu <= RX_BUFFER && |v| <= room && n >= Requests(|v|, mtu)
    ensures var d := Reads(handle, v, mtu, NEVER, n);
      d.Some? && d.value.status == 0 && d.value.pdu != [] && DecodeReadResp(d.value.pdu, room) == Read(v)
  {
    hide Reads, Requests;
    ReadsFetch(handle, v, mtu, NEVER, n);
    assert Whole(v)[1..] == v;
  }

  /** A length of 16 bits bounds every report. */
  lemma {:induction false} BlobsShort(handle: U16, v: seq<Byte>, p: Progress, offset: U16, mtu: nat, faults: Faults,
                                      i: nat, n: nat)
    requires p.Valid() && mtu >= 23
    ensures var d := Blobs(handle, v, p, offset, mtu, faults, i, n); d.Some? ==> |d.value.pdu| < 0x1_0000
    decreases n
  {
    hide BlobAnswer;
    if n > 0 {
      var (status, rpdu) := BlobAnswer(handle, v, offset, mtu, faults(i));
      var (q, o) := OnBlob(p, status, rpdu, mtu, true);
      if o.Ask? {
        BlobsShort(handle, v, q, o.offset, mtu, faults, i + 1, n - 1);
      }
    }
  }

  lemma ReadsShort(handle: U16, v: seq<Byte>, mtu: nat, n: nat)
    requires mtu >= 23
    ensures var d := Reads(handle, v, mtu, NEVER, n); d.Some? ==> |d.value.pdu| < 0x1_0000
  {
    hide ReadAnswer, Blobs;
    var (status, rpdu) := ReadAnswer(handle, v, mtu, 0);
    var (p, o) := OnRead(status, rpdu, mtu, true);
    if n > 0 && o.Ask? {
      BlobsShort(handle, v, p, o.offset, mtu, NEVER, 1, n - 1);
    }
  }

  /** Above 512 the first response is cut by the receive buffer and taken for the last. */
  lemma LargeMtu(handle: U16, v: seq<Byte>, mtu: nat, n: nat)
    requires mtu > RX_BUFFER
    ensures Reads(handle, v, mtu, NEVER, n) == if n == 0 then None
      else Some(Delivery(0, Whole(v[..Min(|v|, RX_BUFFER - 1)]), 1))
  {
    ReadAsked(handle, v, mtu, 0);
    assert Clip(ReadResp(v, mtu)) == Whole(v[..Min(|v|, RX_BUFFER - 1)]);
  }

  /**
   The read delivers the value exactly when it is shorter than 65535 bytes and the receive buffer holds a full
   response, or all of it.
   */
  lemma ReadsExactly(handle: U16, v: seq<Byte>, mtu: nat)
    requires mtu >= 23
    ensures (exists n: nat ::
        Reads(handle, v, mtu, NEVER, n).Some? && Reads(handle, v, mtu, NEVER, n).value.pdu == Whole(v)) <==>
      |v| < 0xFFFF && (mtu <= 512 || |v| < 512)
  {
    hide Reads, Requests;
    if |v| < 0xFFFF && mtu <= RX_BUFFER {
      ReadsFetch(handle, v, mtu, NEVER, Requests(|v|, mtu));
    } else if mtu > RX_BUFFER {
      LargeMtu(handle, v, mtu, 1);
      assert |v| < RX_BUFFER ==> v[..|v|] == v;
      forall n: nat | Reads(handle, v, mtu, NEVER, n).Some? && Reads(handle, v, mtu, NEVER, n).value.pdu == Whole(v)
        ensures |v| < RX_BUFFER
      {
        LargeMtu(handle, v, mtu, n);
      }
    } else {
      forall n: nat | Reads(handle, v, mtu, NEVER, n).Some?
        ensures Reads(handle, v, mtu, NEVER, n).value.pdu != Whole(v)
      {
        ReadsShort(handle, v, mtu, n);
      }
    }
  }
}

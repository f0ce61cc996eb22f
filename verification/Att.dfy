/** Encoders and decoders of the attribute protocol that carry lists, values and UUIDs. */
module Att {
  import opened Basics
  import opened Bytes
  import opened AttCodes
  import opened BtUuid

  /** What received_data keeps of a PDU. */
  function Clip(pdu: seq<Byte>): (r: seq<Byte>)
    ensures |r| == Min(|pdu|, RX_BUFFER)
  {
    pdu[..Min(|pdu|, RX_BUFFER)]
  }

  /** enc_error_resp. */
  function ErrorPdu(opcode: Byte, handle: U16, status: Byte): (b: seq<Byte>)
    ensures |b| == 5
  {
    [ATT_OP_ERROR as Byte, opcode] + Put16(handle) + [status]
  }

  const ATT_ECODE_REQ_NOT_SUPP: Byte := 0x06

  /** The status that the transport takes from a response. */
  function StatusOf(rpdu: seq<Byte>): nat {
    if |rpdu| >= 5 && rpdu[0] == ATT_OP_ERROR then rpdu[4] else 0
  }

  /** Which requests the server answers with an error, and which error; zero is none. */
  type Faults = nat -> Byte

  const NEVER: Faults := i => 0

  /** The first of several faults. */
  lemma {:induction false} FirstFault(faults: Faults, m: nat) returns (k: nat)
    requires exists i :: 0 <= i < m && faults(i) != 0
    ensures k < m && faults(k) != 0 && forall i :: 0 <= i < k ==> faults(i) == 0
  {
    if exists i :: 0 <= i < m - 1 && faults(i) != 0 {
      k := FirstFault(faults, m - 1);
    } else {
      k := m - 1;
    }
  }

  /** struct att_data_list: `num` elements of `len` bytes. */
  datatype DataList = DataList(len: nat, data: seq<seq<Byte>>) {
    ghost predicate Valid() {
      len < 256 && |data| < 0x1_0000 && AllLen(data, len)
    }
  }

  datatype Range = Range(start: U16, end: U16)

  /** att_data_list_alloc gives no list for elements of more than 255 bytes. */
  function Alloc(len: nat, data: seq<seq<Byte>>): Option<DataList> {
    if len > 255 then None else Some(DataList(len, data))
  }

  // ----- what the list encoders put into a buffer of `room` bytes, and what the decoders make of it -----

  function EncList(opcode: Byte, second: Byte, list: DataList, room: nat): seq<Byte>
    requires room >= 2
  {
    [opcode, second] + Flat(Fitting(list.data, room - 2, list.len))
  }

  function ReadByGrpResp(list: DataList, room: nat): seq<Byte>
    requires list.Valid()
  {
    if room < list.len + 2 then [] else EncList(ATT_OP_READ_BY_GROUP_RESP, list.len, list, room)
  }

  function FindInfoResp(format: Byte, list: DataList, room: nat): seq<Byte>
    requires list.Valid()
  {
    if room < list.len + 2 then [] else EncList(ATT_OP_FIND_INFO_RESP, format, list, room)
  }

  /** Every element cut to its first k bytes. */
  function Cut(es: seq<seq<Byte>>, k: nat): (r: seq<seq<Byte>>)
    requires forall e :: e in es ==> k <= |e|
    ensures AllLen(r, k) && |r| == |es|
  {
    seq(|es|, i requires 0 <= i < |es| => es[i][..k])
  }

  function ReadByTypeResp(list: DataList, room: nat): seq<Byte>
    requires list.Valid() && room >= 2
  {
    var l := Min(room - 2, list.len);
    EncList(ATT_OP_READ_BY_TYPE_RESP, l, DataList(l, Cut(list.data, l)), room)
  }

  function PutRange(r: Range): (b: seq<Byte>)
    ensures |b| == 4
  {
    Put16(r.start) + Put16(r.end)
  }

  function PutRanges(rs: seq<Range>): (r: seq<seq<Byte>>)
    ensures AllLen(r, 4) && |r| == |rs|
  {
    seq(|rs|, i requires 0 <= i < |rs| => PutRange(rs[i]))
  }

  function FindByTypeResp(matches: seq<Range>, room: nat): seq<Byte> {
    if room < 5 then [] else [ATT_OP_FIND_BY_TYPE_RESP as Byte] + Flat(Fitting(PutRanges(matches), room - 1, 4))
  }

  function DecodeReadByGrp(pdu: seq<Byte>): Option<DataList>
    requires |pdu| >= 2
  {
    if pdu[0] != ATT_OP_READ_BY_GROUP_RESP then None else Alloc(pdu[1], Pieces(pdu[2..], pdu[1]))
  }

  function DecodeReadByType(pdu: seq<Byte>): Option<DataList>
    requires |pdu| >= 2
  {
    if pdu[0] != ATT_OP_READ_BY_TYPE_RESP then None else Alloc(pdu[1], Pieces(pdu[2..], pdu[1]))
  }

  function FormatLen(format: Byte): nat {
    2 + if format == 1 then 2 else if format == 2 then 16 else 0
  }

  function DecodeFindInfo(pdu: seq<Byte>): Option<(Byte, DataList)>
    requires |pdu| >= 2
  {
    if pdu[0] != ATT_OP_FIND_INFO_RESP then None
    else
      var elen := FormatLen(pdu[1]);
      Some((pdu[1], DataList(elen, Pieces(pdu[2..], elen))))
  }

  function GetRange(b: seq<Byte>): Range
    requires |b| >= 4
  {
    Range(Get16(b), Get16(b[2..]))
  }

  function GetRanges(bs: seq<seq<Byte>>): (r: seq<Range>)
    requires AllLen(bs, 4)
    ensures |r| == |bs|
  {
    seq(|bs|, i requires 0 <= i < |bs| => assert bs[i] in bs; GetRange(bs[i]))
  }

  function DecodeFindByType(pdu: seq<Byte>): seq<Range> {
    if |pdu| < 5 || pdu[0] != ATT_OP_FIND_BY_TYPE_RESP then [] else GetRanges(Pieces(pdu[1..], 4))
  }

  // ----- requests for a range of handles -----

  function PutUuid(u: Uuid): (b: seq<Byte>)
    requires u.Valid() && !u.Uuid32?
    ensures |b| == if u.Uuid16? then 2 else 16
  {
    if u.Uuid16? then Put16(u.v) else u.data
  }

  function GetUuid(b: seq<Byte>): (u: Uuid)
    requires |b| == 2 || |b| == 16
    ensures u.Valid() && !u.Uuid32?
  {
    if |b| == 2 then Uuid16(Get16(b)) else Uuid128(b)
  }

  lemma GetPutUuid(u: Uuid)
    requires u.Valid() && !u.Uuid32?
    ensures GetUuid(PutUuid(u)) == u
  {
    if u.Uuid16? {
      Get16OfPut16(u.v, []);
      assert Put16(u.v) + [] == Put16(u.v);
    }
  }

  /** enc_read_by_grp_req and enc_read_by_type_req differ in the opcode only. */
  function RangeReq(opcode: Byte, start: U16, end: U16, u: Uuid, room: nat): seq<Byte>
    requires u.Valid()
  {
    if u.Uuid32? || room < 5 + |PutUuid(u)| then [] else [opcode] + Put16(start) + Put16(end) + PutUuid(u)
  }

  /** The decoders take any length but 7 for a 128-bit UUID; a shorter PDU would be read past its end. */
  function DecodeRangeReq(opcode: Byte, pdu: seq<Byte>): Option<(U16, U16, Uuid)>
    requires pdu != []
    requires 7 < |pdu| && pdu[0] == opcode ==> |pdu| >= 21
  {
    if pdu[0] != opcode || |pdu| < 7 then None
    else Some((Get16(pdu[1..]), Get16(pdu[3..]), GetUuid(if |pdu| == 7 then pdu[5..] else pdu[5..21])))
  }

  lemma RangeReqRoundTrip(opcode: Byte, start: U16, end: U16, u: Uuid, room: nat)
    requires u.Valid() && !u.Uuid32? && room >= 23
    ensures var pdu := RangeReq(opcode, start, end, u, room);
      && 1 <= |pdu| <= room && (7 < |pdu| ==> |pdu| >= 21)
      && DecodeRangeReq(opcode, pdu) == Some((start, end, u))
  {
    var pdu := RangeReq(opcode, start, end, u, room);
    assert pdu[1..] == Put16(start) + (Put16(end) + PutUuid(u)) && pdu[3..] == Put16(end) + PutUuid(u)
      && pdu[5..] == PutUuid(u);
    Get16OfPut16(start, Put16(end) + PutUuid(u));
    Get16OfPut16(end, PutUuid(u));
    assert |pdu| > 7 ==> pdu[5..21] == PutUuid(u);
    GetPutUuid(u);
  }

  /** enc_read_req. */
  function ReadReq(handle: U16, room: nat): seq<Byte> {
    if room < 3 then [] else [ATT_OP_READ_REQ as Byte] + Put16(handle)
  }

  /** dec_read_req. */
  function DecodeReadReq(pdu: seq<Byte>): Option<U16> {
    if |pdu| < 3 || pdu[0] != ATT_OP_READ_REQ then None else Some(Get16(pdu[1..]))
  }

  lemma ReadReqRoundTrip(handle: U16, room: nat)
    requires room >= 3
    ensures DecodeReadReq(ReadReq(handle, room)) == Some(handle)
  {
    assert ReadReq(handle, room)[1..] == Put16(handle) + [];
    Get16OfPut16(handle, []);
  }

  function HandleOffset(opcode: Byte, handle: U16, offset: U16): (b: seq<Byte>)
    ensures |b| == 5
  {
    [opcode] + Put16(handle) + Put16(offset)
  }

  /** enc_read_blob_req. */
  function BlobReq(handle: U16, offset: U16, room: nat): seq<Byte> {
    if room < 5 then [] else HandleOffset(ATT_OP_READ_BLOB_REQ, handle, offset)
  }

  /** dec_read_blob_req. */
  function DecodeBlobReq(pdu: seq<Byte>): Option<(U16, U16)> {
    if |pdu| < 5 || pdu[0] != ATT_OP_READ_BLOB_REQ then None else Some((Get16(pdu[1..]), Get16(pdu[3..])))
  }

  lemma BlobReqRoundTrip(handle: U16, offset: U16, room: nat)
    requires room >= 5
    ensures DecodeBlobReq(BlobReq(handle, offset, room)) == Some((handle, offset))
  {
    var pdu := BlobReq(handle, offset, room);
    assert pdu[1..] == Put16(handle) + Put16(offset) && pdu[3..] == Put16(offset) + [];
    Get16OfPut16(handle, Put16(offset));
    Get16OfPut16(offset, []);
  }

  /** enc_find_by_type_req: the type is a 16-bit UUID, the value is cut to what fits. */
  function FindByTypeReq(start: U16, end: U16, u: Uuid, value: seq<Byte>, room: nat): seq<Byte> {
    if !u.Uuid16? || room < 7 then []
    else [ATT_OP_FIND_BY_TYPE_REQ as Byte] + Put16(start) + Put16(end) + Put16(u.v) + value[..Min(|value|, room - 7)]
  }

  function DecodeFindByTypeReq(pdu: seq<Byte>): Option<(U16, U16, Uuid, seq<Byte>)> {
    if |pdu| < 7 || pdu[0] != ATT_OP_FIND_BY_TYPE_REQ then None
    else Some((Get16(pdu[1..]), Get16(pdu[3..]), Uuid16(Get16(pdu[5..])), pdu[7..]))
  }

  lemma FindByTypeReqRoundTrip(start: U16, end: U16, u: Uuid, value: seq<Byte>, room: nat)
    requires u.Uuid16? && room >= 7
    ensures DecodeFindByTypeReq(FindByTypeReq(start, end, u, value, room))
      == Some((start, end, u, value[..Min(|value|, room - 7)]))
  {
    var part := value[..Min(|value|, room - 7)];
    var pdu := FindByTypeReq(start, end, u, value, room);
    var c := Put16(u.v) + part;
    assert pdu[1..] == Put16(start) + (Put16(end) + c) && pdu[3..] == Put16(end) + c && pdu[5..] == c
      && pdu[7..] == part;
    Get16OfPut16(start, Put16(end) + c);
    Get16OfPut16(end, c);
    Get16OfPut16(u.v, part);
  }

  // ----- values -----

  /** enc_read_resp sends what fits after the opcode. */
  function ReadResp(value: seq<Byte>, room: nat): seq<Byte>
    requires room >= 1
  {
    [ATT_OP_READ_RESP as Byte] + value[..Min(|value|, room - 1)]
  }

  function ReadBlobResp(value: seq<Byte>, offset: U16, room: nat): seq<Byte>
    requires room >= 1 && offset <= |value|
  {
    [ATT_OP_READ_BLOB_RESP as Byte] + value[offset..][..Min(|value| - offset, room - 1)]
  }

  datatype ReadResult = Einval | Enobufs | Read(value: seq<Byte>)

  /** dec_read_resp into a buffer of `room` bytes. */
  function DecodeReadResp(pdu: seq<Byte>, room: nat): ReadResult
    requires pdu != []
  {
    if pdu[0] != ATT_OP_READ_RESP then Einval
    else if room < |pdu| - 1 then Enobufs
    else Read(pdu[1..])
  }

  /** dec_write_req: handle and value. */
  function DecodeWriteReq(pdu: seq<Byte>): Option<(U16, seq<Byte>)> {
    if |pdu| < 3 || pdu[0] != ATT_OP_WRITE_REQ then None else Some((Get16(pdu[1..]), pdu[3..]))
  }

  /** enc_prep_write_req and enc_prep_write_resp differ in the opcode only. */
  function PrepWrite(opcode: Byte, handle: U16, offset: U16, value: seq<Byte>, room: nat): seq<Byte> {
    if room < 5 then [] else HandleOffset(opcode, handle, offset) + value[..Min(|value|, room - 5)]
  }

  /** dec_prep_write_req: handle, offset and value. */
  function DecodePrepWriteReq(pdu: seq<Byte>): Option<(U16, U16, seq<Byte>)> {
    if |pdu| < 5 || pdu[0] != ATT_OP_PREP_WRITE_REQ then None
    else Some((Get16(pdu[1..]), Get16(pdu[3..]), pdu[5..]))
  }

  /** The server reads back the handle, the offset and the part of the value that fitted. */
  lemma PrepWriteRoundTrip(handle: U16, offset: U16, value: seq<Byte>, room: nat)
    requires room >= 5
    ensures DecodePrepWriteReq(PrepWrite(ATT_OP_PREP_WRITE_REQ, handle, offset, value, room))
      == Some((handle, offset, value[..Min(|value|, room - 5)]))
  {
    var part := value[..Min(|value|, room - 5)];
    var pdu := PrepWrite(ATT_OP_PREP_WRITE_REQ, handle, offset, value, room);
    assert pdu[1..] == Put16(handle) + (Put16(offset) + part) && pdu[3..] == Put16(offset) + part && pdu[5..] == part;
    Get16OfPut16(handle, Put16(offset) + part);
    Get16OfPut16(offset, part);
  }

  // ----- round trips under truncation -----

  /** The elements of a list that a buffer takes. */
  function Taken(list: DataList, room: nat): DataList
    requires list.len > 0 && room >= 2
  {
    DataList(list.len, list.data[..Fit(|list.data|, room - 2, list.len)])
  }

  lemma PrefixLen(es: seq<seq<Byte>>, r: seq<seq<Byte>>, k: nat)
    requires AllLen(es, k) && r <= es
    ensures AllLen(r, k)
  {
    forall e | e in r
      ensures |e| == k
    {
      assert e in es;
    }
  }

  lemma FittingPieces(es: seq<seq<Byte>>, room: nat, k: nat)
    requires k > 0 && AllLen(es, k)
    ensures Pieces(Flat(Fitting(es, room, k)), k) == es[..Fit(|es|, room, k)]
  {
    hide Pieces, Flat, Fitting, AllLen;
    var r := Fitting(es, room, k);
    PrefixLen(es, r, k);
    PiecesOfFlat(r, k);
    FittingIs(es, room, k);
  }

  lemma PiecesAfterHeader(opcode: Byte, second: Byte, list: DataList, room: nat)
    requires list.Valid() && list.len > 0 && room >= 2
    ensures var pdu := EncList(opcode, second, list, room);
      |pdu| >= 2 && pdu[0] == opcode && pdu[1] == second && Pieces(pdu[2..], list.len) == Taken(list, room).data
  {
    hide Flat, Fitting, Pieces;
    FittingPieces(list.data, room - 2, list.len);
    assert EncList(opcode, second, list, room)[2..] == Flat(Fitting(list.data, room - 2, list.len));
  }

  /** Decoding an encoded read-by-group response gives exactly the elements that fit, in order. */
  lemma ReadByGrpRoundTrip(list: DataList, room: nat)
    requires list.Valid() && list.len > 0 && list.len + 2 <= room
    ensures DecodeReadByGrp(ReadByGrpResp(list, room)) == Some(Taken(list, room))
  {
    hide Flat, Fitting, Pieces;
    PiecesAfterHeader(ATT_OP_READ_BY_GROUP_RESP, list.len, list, room);
  }

  lemma CutWhole(es: seq<seq<Byte>>, k: nat)
    requires AllLen(es, k)
    ensures Cut(es, k) == es
  {
    forall i | 0 <= i < |es|
      ensures Cut(es, k)[i] == es[i]
    {
      assert es[i] in es;
    }
  }

  lemma ReadByTypeRoundTrip(list: DataList, room: nat)
    requires list.Valid() && list.len > 0 && list.len + 2 <= room
    ensures DecodeReadByType(ReadByTypeResp(list, room)) == Some(Taken(list, room))
  {
    CutWhole(list.data, list.len);
    hide Flat, Fitting, Pieces, Cut;
    PiecesAfterHeader(ATT_OP_READ_BY_TYPE_RESP, list.len, list, room);
  }

  /** An element longer than the buffer is cut to it; the decoded list holds the one cut element. */
  lemma ReadByTypeCut(list: DataList, room: nat)
    requires list.Valid() && list.data != [] && 2 < room < list.len + 2
    ensures DecodeReadByType(ReadByTypeResp(list, room)) == Some(DataList(room - 2, [list.data[0][..room - 2]]))
  {
    var l := room - 2;
    var c := Cut(list.data, l);
    FittingPieces(c, l, l);
    DivModUnique(l, l, 1, 0);
    assert c[..1] == [c[0]];
    assert ReadByTypeResp(list, room)[2..] == Flat(Fitting(c, l, l));
  }

  lemma FindInfoRoundTrip(format: Byte, list: DataList, room: nat)
    requires list.Valid() && list.len + 2 <= room && list.len == FormatLen(format)
    ensures DecodeFindInfo(FindInfoResp(format, list, room)) == Some((format, Taken(list, room)))
  {
    hide Flat, Fitting, Pieces;
    PiecesAfterHeader(ATT_OP_FIND_INFO_RESP, format, list, room);
  }

  lemma GetPutRange(r: Range)
    ensures GetRange(PutRange(r)) == r
  {
    Get16OfPut16(r.start, Put16(r.end));
    assert PutRange(r)[2..] == Put16(r.end) + [];
    Get16OfPut16(r.end, []);
  }

  lemma FirstFits(bs: seq<seq<Byte>>, room: nat)
    requires bs != [] && AllLen(bs, 4) && room >= 4
    ensures |Flat(Fitting(bs, room, 4))| >= 4
  {
    assert bs[0] in bs;
  }

  lemma FindByTypeRoundTrip(matches: seq<Range>, room: nat)
    requires room >= 5
    ensures DecodeFindByType(FindByTypeResp(matches, room)) == matches[..Fit(|matches|, room - 1, 4)]
  {
    hide Flat, Fitting, Pieces, PutRange, GetRange;
    var bs := PutRanges(matches);
    FittingPieces(bs, room - 1, 4);
    var f := Flat(Fitting(bs, room - 1, 4));
    assert FindByTypeResp(matches, room)[1..] == f;
    var n := Fit(|matches|, room - 1, 4);
    if n == 0 {
      assert |PutRanges([])| == 0;
      assert matches == [];
    } else {
      FirstFits(bs, room - 1);
      forall i | 0 <= i < n
        ensures GetRange(bs[..n][i]) == matches[i]
      {
        GetPutRange(matches[i]);
      }
    }
  }

  // ----- on the wire -----

  lemma Words(a: U16, b: U16, head: Byte, rest: seq<Byte>)
    ensures var pdu := [head] + Put16(a) + Put16(b) + rest;
      pdu[0] == head && LittleEndian(pdu[1..3]) == a && LittleEndian(pdu[3..5]) == b && pdu[5..] == rest
  {
    var pdu := [head] + Put16(a) + Put16(b) + rest;
    assert pdu[1..3] == Put16(a) && pdu[3..5] == Put16(b);
    LeastFirst(a, []);
    LeastFirst(b, []);
  }

  /**
   Requests as sections 3.4.3 to 3.4.6 of Volume 3 Part F of the Bluetooth Core Specification lay them out: the
   opcode, then handles and offsets least significant byte first, then the rest.
   */
  lemma RequestsOnTheWire(opcode: Byte, a: U16, b: U16, u: Uuid, value: seq<Byte>, room: nat)
    requires u.Valid() && !u.Uuid32? && room >= 23
    ensures var pdu := RangeReq(opcode, a, b, u, room);
      && |pdu| == (if u.Uuid16? then 7 else 21) && pdu[0] == opcode
      && LittleEndian(pdu[1..3]) == a && LittleEndian(pdu[3..5]) == b
      && (if u.Uuid16? then LittleEndian(pdu[5..]) == u.v else pdu[5..] == u.data)
    ensures var pdu := ReadReq(a, room); |pdu| == 3 && pdu[0] == 0x0A && LittleEndian(pdu[1..]) == a
    ensures var pdu := BlobReq(a, b, room);
      |pdu| == 5 && pdu[0] == 0x0C && LittleEndian(pdu[1..3]) == a && LittleEndian(pdu[3..5]) == b
    ensures var pdu := PrepWrite(ATT_OP_PREP_WRITE_REQ, a, b, value, room);
      && |pdu| >= 5 && pdu[0] == 0x16 && LittleEndian(pdu[1..3]) == a && LittleEndian(pdu[3..5]) == b
      && pdu[5..] == value[..Min(|value|, room - 5)]
    ensures u.Uuid16? ==>
      var pdu := FindByTypeReq(a, b, u, value, room);
      && |pdu| >= 7 && pdu[0] == 0x06 && LittleEndian(pdu[1..3]) == a && LittleEndian(pdu[3..5]) == b
      && LittleEndian(pdu[5..7]) == u.v && pdu[7..] == value[..Min(|value|, room - 7)]
  {
    LeastFirst(a, []);
    Words(a, b, opcode, PutUuid(u));
    Words(a, b, 0x0C, []);
    assert [0x0C as Byte] + Put16(a) + Put16(b) + [] == BlobReq(a, b, room);
    Words(a, b, 0x16, value[..Min(|value|, room - 5)]);
    assert ReadReq(a, room)[1..] == Put16(a);
    if u.Uuid16? {
      LeastFirst(u.v, []);
      var rest := Put16(u.v) + value[..Min(|value|, room - 7)];
      Words(a, b, 0x06, rest);
      assert FindByTypeReq(a, b, u, value, room) == [0x06 as Byte] + Put16(a) + Put16(b) + rest;
      var pdu := FindByTypeReq(a, b, u, value, room);
      assert pdu[5..7] == pdu[5..][..2] == Put16(u.v) && pdu[7..] == pdu[5..][2..];
    }
  }

  /** Responses begin with their opcode; the lists with the length or the format of their elements behind it. */
  lemma ResponsesOnTheWire(list: DataList, format: Byte, matches: seq<Range>, value: seq<Byte>, offset: U16, room: nat)
    requires list.Valid() && room >= list.len + 2 && room >= 5 && offset <= |value|
    ensures var pdu := ReadByGrpResp(list, room); |pdu| >= 2 && pdu[0] == 0x11 && pdu[1] == list.len
    ensures var pdu := ReadByTypeResp(list, room); |pdu| >= 2 && pdu[0] == 0x09 && pdu[1] == list.len
    ensures var pdu := FindInfoResp(format, list, room); |pdu| >= 2 && pdu[0] == 0x05 && pdu[1] == format
    ensures var pdu := FindByTypeResp(matches, room); |pdu| >= 1 && pdu[0] == 0x07
    ensures ReadResp(value, room) == [0x0B] + value[..Min(|value|, room - 1)]
    ensures ReadBlobResp(value, offset, room) == [0x0D] + value[offset..Min(|value|, offset + room - 1)]
    ensures FormatLen(1) == 4 && FormatLen(2) == 18
  {
    hide Flat, Fitting;
    var end := Min(|value|, offset + room - 1);
    assert value[offset..][..end - offset] == value[offset..end];
  }

  /** A range is its first handle and its last, each least significant byte first. */
  lemma RangeOnTheWire(r: Range)
    ensures LittleEndian(PutRange(r)[..2]) == r.start && LittleEndian(PutRange(r)[2..]) == r.end
  {
    assert PutRange(r)[..2] == Put16(r.start) && PutRange(r)[2..] == Put16(r.end);
    LeastFirst(r.start, []);
    LeastFirst(r.end, []);
  }

  /**
   An Error Response names the request, the handle and last the code, which is what the transport takes from it; a
   response of another kind carries none.
   */
  lemma ErrorOnTheWire(opcode: Byte, handle: U16, status: Byte, pdu: seq<Byte>)
    ensures var e := ErrorPdu(opcode, handle, status);
      e[0] == 0x01 && e[1] == opcode && LittleEndian(e[2..4]) == handle && e[4] == status && StatusOf(e) == status
    ensures |pdu| >= 1 && pdu[0] != 0x01 ==> StatusOf(pdu) == 0
  {
    assert ErrorPdu(opcode, handle, status)[2..4] == Put16(handle);
    LeastFirst(handle, []);
  }

  /** The decoders of lists take responses of their own opcode only. */
  lemma DecodersRefuse(pdu: seq<Byte>)
    requires |pdu| >= 2
    ensures (DecodeReadByGrp(pdu) == None <==> pdu[0] != 0x11) && (DecodeReadByType(pdu) == None <==> pdu[0] != 0x09)
    ensures DecodeFindInfo(pdu) == None <==> pdu[0] != 0x05
    ensures DecodeFindByType(pdu) == [] <==> |pdu| < 5 || pdu[0] != 0x07
  {
    if |pdu| >= 5 {
      PiecesCount(pdu[1..], 4);
    }
  }

  // ----- the loops over buffers -----

  /** memcpy into a buffer. */
  method Copy(src: seq<Byte>, dst: array<Byte>, at: nat)
    requires at + |src| <= dst.Length
    modifies dst
    ensures dst[..at] == old(dst[..at]) && dst[at..at + |src|] == src && dst[at + |src|..] == old(dst[at + |src|..])
  {
    forall i | 0 <= i < |src| {
      dst[at + i] := src[i];
    }
  }

  /** A piece written at w extends what was written from `from` on. */
  lemma PutStep(was: seq<Byte>, before: seq<Byte>, now: seq<Byte>, from: nat, w: nat, e: seq<Byte>)
    requires |was| == |before| == |now| && from <= w && w + |e| <= |was|
    requires before[..from] == was[..from] && before[w..] == was[w..]
    requires now[..w] == before[..w] && now[w..w + |e|] == e && now[w + |e|..] == before[w + |e|..]
    ensures now[..from] == was[..from] && now[w + |e|..] == was[w + |e|..]
    ensures now[from..w + |e|] == before[from..w] + e
  {
    assert now[..from] == now[..w][..from] && before[..from] == before[..w][..from];
    assert now[from..w] == now[..w][from..] && before[from..w] == before[..w][from..];
    assert was[w + |e|..] == was[w..][|e|..] && before[w + |e|..] == before[w..][|e|..];
  }

  lemma FittingStep(es: seq<seq<Byte>>, i: nat, room: nat, k: nat, done: seq<Byte>)
    requires i < |es| && room >= k
    ensures done + Flat(Fitting(es[i..], room, k)) == (done + es[i]) + Flat(Fitting(es[i + 1..], room - k, k))
  {
    assert es[i..][0] == es[i] && es[i..][1..] == es[i + 1..];
  }

  lemma ElementLen(es: seq<seq<Byte>>, i: nat, k: nat)
    requires AllLen(es, k) && i < |es|
    ensures |es[i]| == k
  {
    assert es[i] in es;
  }

  lemma NothingFits(es: seq<seq<Byte>>, i: nat, room: nat, k: nat, done: seq<Byte>)
    requires i <= |es| && (i == |es| || room < k)
    ensures done + Flat(Fitting(es[i..], room, k)) == done
  {
  }

  /** The copying loop of the list encoders: elements go in from position 2 while a whole one fits. */
  method PutElements(es: seq<seq<Byte>>, k: nat, pdu: array<Byte>) returns (w: nat)
    requires AllLen(es, k) && pdu.Length >= 2
    modifies pdu
    ensures 2 <= w <= pdu.Length && pdu[..2] == old(pdu[..2]) && pdu[w..] == old(pdu[w..])
    ensures pdu[2..w] == Flat(Fitting(es, pdu.Length - 2, k))
  {
    hide Flat, Fitting, AllLen;
    ghost var was, total := pdu[..], Flat(Fitting(es, pdu.Length - 2, k));
    var i := 0;
    w := 2;
    assert es[0..] == es && pdu[2..2] + total == total;
    while i < |es| && w + k <= pdu.Length
      invariant i <= |es| && 2 <= w <= pdu.Length
      invariant pdu[..2] == was[..2] && pdu[w..] == was[w..]
      invariant pdu[2..w] + Flat(Fitting(es[i..], pdu.Length - w, k)) == total
    {
      ghost var before := pdu[..];
      ElementLen(es, i, k);
      Copy(es[i], pdu, w);
      PutStep(was, before, pdu[..], 2, w, es[i]);
      FittingStep(es, i, pdu.Length - w, k, before[2..w]);
      w := w + k;
      i := i + 1;
    }
    NothingFits(es, i, pdu.Length - w, k, pdu[2..w]);
  }

  /** A buffer whose first two bytes, and then the bytes up to w, were written. */
  lemma Assemble(was: seq<Byte>, head: seq<Byte>, now: seq<Byte>, w: nat, b0: Byte, b1: Byte)
    requires |was| == |head| == |now| && 2 <= w <= |was|
    requires head == was[0 := b0][1 := b1] && now[..2] == head[..2] && now[w..] == head[w..]
    ensures now[..w] == [b0, b1] + now[2..w] && now[w..] == was[w..]
  {
    assert now[0] == now[..2][0] && now[1] == now[..2][1];
    assert head[w..] == was[w..];
  }

  method EncReadByGrpResp(list: DataList, pdu: array<Byte>) returns (w: nat)
    requires list.Valid() && pdu.Length < 0x1_0000
    modifies pdu
    ensures w <= pdu.Length && pdu[..w] == ReadByGrpResp(list, pdu.Length) && pdu[w..] == old(pdu[w..])
  {
    if pdu.Length < list.len + 2 {
      return 0;
    }
    ghost var was := pdu[..];
    pdu[0] := ATT_OP_READ_BY_GROUP_RESP;
    pdu[1] := list.len;
    ghost var head := pdu[..];
    w := PutElements(list.data, list.len, pdu);
    Assemble(was, head, pdu[..], w, ATT_OP_READ_BY_GROUP_RESP, list.len);
  }

  method EncFindInfoResp(format: Byte, list: DataList, pdu: array<Byte>) returns (w: nat)
    requires list.Valid() && pdu.Length < 0x1_0000
    modifies pdu
    ensures w <= pdu.Length && pdu[..w] == FindInfoResp(format, list, pdu.Length) && pdu[w..] == old(pdu[w..])
  {
    if pdu.Length < list.len + 2 {
      return 0;
    }
    ghost var was := pdu[..];
    pdu[0] := ATT_OP_FIND_INFO_RESP;
    pdu[1] := format;
    ghost var head := pdu[..];
    w := PutElements(list.data, list.len, pdu);
    Assemble(was, head, pdu[..], w, ATT_OP_FIND_INFO_RESP, format);
  }

  method EncReadByTypeResp(list: DataList, pdu: array<Byte>) returns (w: nat)
    requires list.Valid() && 2 <= pdu.Length < 0x1_0000
    modifies pdu
    ensures w <= pdu.Length && pdu[..w] == ReadByTypeResp(list, pdu.Length) && pdu[w..] == old(pdu[w..])
  {
    var l := Min(pdu.Length - 2, list.len);
    ghost var was := pdu[..];
    pdu[0] := ATT_OP_READ_BY_TYPE_RESP;
    pdu[1] := l;
    ghost var head := pdu[..];
    w := PutElements(Cut(list.data, l), l, pdu);
    Assemble(was, head, pdu[..], w, ATT_OP_READ_BY_TYPE_RESP, l);
  }

  lemma TwoCopies(a: seq<Byte>, b: seq<Byte>, c: seq<Byte>, at: nat, r: Range)
    requires at + 4 <= |a| == |b| == |c|
    requires b[..at] == a[..at] && b[at..at + 2] == Put16(r.start) && b[at + 2..] == a[at + 2..]
    requires c[..at + 2] == b[..at + 2] && c[at + 2..at + 4] == Put16(r.end) && c[at + 4..] == b[at + 4..]
    ensures c[..at] == a[..at] && c[at..at + 4] == PutRange(r) && c[at + 4..] == a[at + 4..]
  {
    assert c[..at] == c[..at + 2][..at] && b[..at] == b[..at + 2][..at];
    assert c[at..at + 2] == c[..at + 2][at..] && b[at..at + 2] == b[..at + 2][at..];
    assert b[at + 4..] == b[at + 2..][2..] && a[at + 4..] == a[at + 2..][2..];
  }

  /** att_put_u16 for both ends of a range. */
  method PutMatch(r: Range, pdu: array<Byte>, at: nat)
    requires at + 4 <= pdu.Length
    modifies pdu
    ensures pdu[..at] == old(pdu[..at]) && pdu[at..at + 4] == PutRange(r) && pdu[at + 4..] == old(pdu[at + 4..])
  {
    ghost var before := pdu[..];
    Copy(Put16(r.start), pdu, at);
    ghost var middle := pdu[..];
    Copy(Put16(r.end), pdu, at + 2);
    TwoCopies(before, middle, pdu[..], at, r);
  }

  lemma AssembleOne(first: seq<Byte>, was: seq<Byte>, now: seq<Byte>, w: nat, b0: Byte)
    requires |was| == |first| == |now| && 1 <= w <= |was|
    requires was == first[0 := b0] && now[..1] == was[..1] && now[w..] == was[w..]
    ensures now[..w] == [b0] + now[1..w] && now[w..] == first[w..]
  {
    assert now[0] == now[..1][0];
  }

  /** The first i ranges have been put behind the opcode, and what fits of the others completes `total`. */
  ghost predicate Filled(was: seq<Byte>, now: seq<Byte>, offset: nat, bs: seq<seq<Byte>>, i: nat, total: seq<Byte>) {
    && |now| == |was| && 1 <= offset <= |was| && i <= |bs|
    && now[..1] == was[..1] && now[offset..] == was[offset..]
    && now[1..offset] + Flat(Fitting(bs[i..], |was| - offset, 4)) == total
  }

  method PutNext(r: Range, pdu: array<Byte>, offset: nat, ghost was: seq<Byte>, ghost bs: seq<seq<Byte>>, ghost i: nat,
                 ghost total: seq<Byte>)
    requires Filled(was, pdu[..], offset, bs, i, total) && offset + 4 <= pdu.Length && i < |bs| && bs[i] == PutRange(r)
    modifies pdu
    ensures Filled(was, pdu[..], offset + 4, bs, i + 1, total)
  {
    hide Flat, Fitting, PutRange;
    ghost var before := pdu[..];
    PutMatch(r, pdu, offset);
    PutStep(was, before, pdu[..], 1, offset, PutRange(r));
    FittingStep(bs, i, pdu.Length - offset, 4, before[1..offset]);
  }

  lemma FilledStart(was: seq<Byte>, bs: seq<seq<Byte>>)
    requires |was| >= 1
    ensures Filled(was, was, 1, bs, 0, Flat(Fitting(bs, |was| - 1, 4)))
  {
    hide Flat, Fitting;
    assert bs[0..] == bs && was[1..1] == [];
  }

  lemma FilledEnd(first: seq<Byte>, was: seq<Byte>, now: seq<Byte>, offset: nat, bs: seq<seq<Byte>>, i: nat, b0: Byte,
                  total: seq<Byte>)
    requires Filled(was, now, offset, bs, i, total) && |first| == |was| && was == first[0 := b0]
    requires i == |bs| || |was| - offset < 4
    ensures now[..offset] == [b0] + total && now[offset..] == first[offset..]
  {
    hide Flat, Fitting;
    NothingFits(bs, i, |was| - offset, 4, now[1..offset]);
    AssembleOne(first, was, now, offset, b0);
  }

  method EncFindByTypeResp(matches: seq<Range>, pdu: array<Byte>) returns (offset: nat)
    requires pdu.Length < 0x1_0000
    modifies pdu
    ensures offset <= pdu.Length && pdu[..offset] == FindByTypeResp(matches, pdu.Length)
    ensures pdu[offset..] == old(pdu[offset..])
  {
    hide Flat, Fitting, PutRange, Filled;
    if pdu.Length < 5 {
      return 0;
    }
    ghost var first := pdu[..];
    ghost var bs := PutRanges(matches);
    ghost var total := Flat(Fitting(bs, pdu.Length - 1, 4));
    pdu[0] := ATT_OP_FIND_BY_TYPE_RESP;
    ghost var was := pdu[..];
    var i := 0;
    offset := 1;
    FilledStart(was, bs);
    while i < |matches| && pdu.Length >= offset + 4
      invariant i <= |matches| && 1 <= offset <= pdu.Length
      invariant Filled(was, pdu[..], offset, bs, i, total)
    {
      PutNext(matches[i], pdu, offset, was, bs, i, total);
      offset := offset + 4;
      i := i + 1;
    }
    FilledEnd(first, was, pdu[..], offset, bs, i, ATT_OP_FIND_BY_TYPE_RESP, total);
  }

  lemma PieceStep(b: seq<Byte>, at: nat, k: nat, done: seq<seq<Byte>>)
    requires at <= |b| && Pieces(b[at..], k) != []
    ensures at + k <= |b|
    ensures done + Pieces(b[at..], k) == (done + [b[at..at + k]]) + Pieces(b[at + k..], k)
    ensures |Pieces(b[at..], k)| == 1 + |Pieces(b[at + k..], k)|
  {
    assert b[at..][..k] == b[at..at + k] && b[at..][k..] == b[at + k..];
  }

  /** The copying loop of the list decoders. */
  method GetElements(pdu: array<Byte>, elen: nat) returns (data: seq<seq<Byte>>)
    requires pdu.Length >= 2 && elen > 0
    ensures data == Pieces(pdu[2..], elen)
  {
    hide Pieces;
    var num := (pdu.Length - 2) / elen;
    PiecesCount(pdu[2..], elen);
    data := [];
    var ptr := 2;
    var i := 0;
    while i < num
      invariant i <= num && 2 <= ptr <= pdu.Length
      invariant num - i == |Pieces(pdu[ptr..], elen)|
      invariant data + Pieces(pdu[ptr..], elen) == Pieces(pdu[2..], elen)
    {
      PieceStep(pdu[..], ptr, elen, data);
      data := data + [pdu[ptr..ptr + elen]];
      ptr := ptr + elen;
      i := i + 1;
    }
  }

  /** A response that announces elements of no bytes makes the original divide by zero. */
  method DecReadByGrpResp(pdu: array<Byte>) returns (list: Option<DataList>)
    requires 2 <= pdu.Length < 0x1_0000 && (pdu[0] == ATT_OP_READ_BY_GROUP_RESP ==> pdu[1] != 0)
    ensures list == DecodeReadByGrp(pdu[..])
  {
    if pdu[0] != ATT_OP_READ_BY_GROUP_RESP {
      return None;
    }
    var data := GetElements(pdu, pdu[1]);
    list := Alloc(pdu[1], data);
    assert pdu[..][2..] == pdu[2..];
  }

  method DecReadByTypeResp(pdu: array<Byte>) returns (list: Option<DataList>)
    requires 2 <= pdu.Length < 0x1_0000 && (pdu[0] == ATT_OP_READ_BY_TYPE_RESP ==> pdu[1] != 0)
    ensures list == DecodeReadByType(pdu[..])
  {
    if pdu[0] != ATT_OP_READ_BY_TYPE_RESP {
      return None;
    }
    var data := GetElements(pdu, pdu[1]);
    list := Alloc(pdu[1], data);
    assert pdu[..][2..] == pdu[2..];
  }

  method DecFindInfoResp(pdu: array<Byte>) returns (r: Option<(Byte, DataList)>)
    requires 2 <= pdu.Length < 0x1_0000
    ensures r == DecodeFindInfo(pdu[..])
  {
    if pdu[0] != ATT_OP_FIND_INFO_RESP {
      return None;
    }
    var format := pdu[1];
    var elen := 2;
    if format == 1 {
      elen := elen + 2;
    } else if format == 2 {
      elen := elen + 16;
    }
    var data := GetElements(pdu, elen);
    r := Some((format, DataList(elen, data)));
    assert pdu[..][2..] == pdu[2..];
  }

  lemma NoRange(b: seq<Byte>, done: seq<Range>)
    requires |b| < 4
    ensures done + GetRanges(Pieces(b, 4)) == done
  {
  }

  lemma RangesCons(e: seq<Byte>, rest: seq<seq<Byte>>)
    requires |e| == 4 && AllLen(rest, 4)
    ensures GetRanges([e] + rest) == [GetRange(e)] + GetRanges(rest)
  {
    hide GetRange;
  }

  lemma OnePiece(b: seq<Byte>, at: nat)
    requires at + 4 <= |b|
    ensures Pieces(b[at..], 4) == [b[at..at + 4]] + Pieces(b[at + 4..], 4)
  {
    assert b[at..][4..] == b[at + 4..] && b[at..][..4] == b[at..at + 4];
  }

  lemma GetRangeAt(b: seq<Byte>, at: nat)
    requires at + 4 <= |b|
    ensures GetRange(b[at..at + 4]) == Range(Get16(b[at..at + 2]), Get16(b[at + 2..at + 4]))
  {
    assert b[at..at + 4][2..] == b[at + 2..at + 4];
  }

  lemma RangeStep(b: seq<Byte>, at: nat, done: seq<Range>)
    requires at + 4 <= |b|
    ensures done + GetRanges(Pieces(b[at..], 4)) ==
      (done + [Range(Get16(b[at..at + 2]), Get16(b[at + 2..at + 4]))]) + GetRanges(Pieces(b[at + 4..], 4))
  {
    hide Pieces, GetRange;
    OnePiece(b, at);
    RangesCons(b[at..at + 4], Pieces(b[at + 4..], 4));
    GetRangeAt(b, at);
  }

  method DecFindByTypeResp(pdu: array<Byte>) returns (matches: seq<Range>)
    requires pdu.Length < 0x1_0000
    ensures matches == DecodeFindByType(pdu[..])
  {
    hide GetRanges, Pieces;
    matches := [];
    if pdu.Length < 5 || pdu[0] != ATT_OP_FIND_BY_TYPE_RESP {
      return;
    }
    ghost var all := GetRanges(Pieces(pdu[1..], 4));
    var offset := 1;
    assert pdu[1..] == pdu[..][1..];
    while pdu.Length >= offset + 4
      invariant 1 <= offset <= pdu.Length
      invariant matches + GetRanges(Pieces(pdu[offset..], 4)) == all
    {
      RangeStep(pdu[..], offset, matches);
      matches := matches + [Range(Get16(pdu[offset..offset + 2]), Get16(pdu[offset + 2..offset + 4]))];
      offset := offset + 4;
    }
    NoRange(pdu[offset..], matches);
  }

  // ----- value encoders over buffers -----

  method EncReadResp(value: seq<Byte>, pdu: array<Byte>) returns (w: nat)
    requires 1 <= pdu.Length < 0x1_0000
    modifies pdu
    ensures w <= pdu.Length && pdu[..w] == ReadResp(value, pdu.Length) && pdu[w..] == old(pdu[w..])
  {
    var vlen := Min(|value|, pdu.Length - 1);
    ghost var first := pdu[..];
    pdu[0] := ATT_OP_READ_RESP;
    ghost var was := pdu[..];
    Copy(value[..vlen], pdu, 1);
    w := vlen + 1;
    AssembleOne(first, was, pdu[..], w, ATT_OP_READ_RESP);
  }

  /** Past the end of the value the original's unsigned subtraction would wrap. */
  method EncReadBlobResp(value: seq<Byte>, offset: U16, pdu: array<Byte>) returns (w: nat)
    requires 1 <= pdu.Length < 0x1_0000 && offset <= |value|
    modifies pdu
    ensures w <= pdu.Length && pdu[..w] == ReadBlobResp(value, offset, pdu.Length) && pdu[w..] == old(pdu[w..])
  {
    var vlen := Min(|value| - offset, pdu.Length - 1);
    ghost var first := pdu[..];
    pdu[0] := ATT_OP_READ_BLOB_RESP;
    ghost var was := pdu[..];
    Copy(value[offset..][..vlen], pdu, 1);
    w := vlen + 1;
    AssembleOne(first, was, pdu[..], w, ATT_OP_READ_BLOB_RESP);
  }

  method DecReadResp(pdu: seq<Byte>, value: array<Byte>) returns (r: int)
    requires pdu != []
    modifies value
    ensures match DecodeReadResp(pdu, value.Length)
      case Einval => r == -22 && value[..] == old(value[..])
      case Enobufs => r == -105 && value[..] == old(value[..])
      case Read(v) => r == |v| <= value.Length && value[..r] == v && value[r..] == old(value[r..])
    ensures (r == -22 <==> pdu[0] != 0x0B) && (r == -105 <==> pdu[0] == 0x0B && |pdu| - 1 > value.Length)
  {
    if pdu[0] != ATT_OP_READ_RESP {
      return -22;
    }
    if value.Length < |pdu| - 1 {
      return -105;
    }
    Copy(pdu[1..], value, 0);
    return |pdu| - 1;
  }

  method EncPrepWriteReq(handle: U16, offset: U16, value: seq<Byte>, pdu: array<Byte>) returns (w: nat)
    requires pdu.Length < 0x1_0000
    modifies pdu
    ensures w <= pdu.Length && pdu[w..] == old(pdu[w..])
    ensures pdu[..w] == PrepWrite(ATT_OP_PREP_WRITE_REQ, handle, offset, value, pdu.Length)
  {
    if pdu.Length < 5 {
      return 0;
    }
    ghost var was := pdu[..];
    var vlen := Min(|value|, pdu.Length - 5);
    var head := HandleOffset(ATT_OP_PREP_WRITE_REQ, handle, offset);
    Copy(head, pdu, 0);
    ghost var before := pdu[..];
    if vlen > 0 {
      Copy(value[..vlen], pdu, 5);
    }
    w := 5 + vlen;
    assert pdu[..5] == head && before[..5] == head;
    assert before[w..] == before[5..][vlen..] && was[w..] == was[5..][vlen..];
    assert pdu[..w] == pdu[..5] + pdu[5..w];
  }
}

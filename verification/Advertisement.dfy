/** What a scanner accumulates about a vehicle from the records of its advertising packets. */
module Advertisement {
  import opened Basics
  import BtUuid
  import opened Bytes
  import opened Eir

  const ADV_TYPE_FLAGS: Byte := 0x01
  const ADV_TYPE_UUID_128: Byte := 0x07
  const ADV_TYPE_LOCAL_NAME: Byte := 0x09
  const ADV_TYPE_TX_POWER: Byte := 0x0A
  const ADV_TYPE_MANUFACTURER_DATA: Byte := 0xFF

  const ANKI_SERVICE_UUID_LE: seq<Byte> :=
    [0xf4, 0x8d, 0x4d, 0x9c, 0xd8, 0x0b, 0x81, 0x83, 0x7e, 0x40, 0x86, 0x61, 0xef, 0xbe, 0x15, 0xbe]

  const NAME_LEN := 13

  datatype MfgData = MfgData(identifier: nat, modelId: Byte, reserved: Byte, productId: nat)

  datatype LocalName = LocalName(fullBattery: bool, lowBattery: bool, onCharger: bool, version: nat, name: seq<Byte>)

  /** anki_vehicle_adv_t */
  datatype Adv = Adv(flags: Byte, txPower: Byte, mfgData: MfgData, localName: LocalName, serviceId: seq<Byte>) {
    predicate Valid() {
      |serviceId| == 16 && |localName.name| == NAME_LEN
    }
  }

  predicate IsAnki(id: seq<Byte>) {
    id == ANKI_SERVICE_UUID_LE
  }

  predicate KnownType(kind: Byte) {
    kind in {ADV_TYPE_FLAGS, ADV_TYPE_UUID_128, ADV_TYPE_LOCAL_NAME, ADV_TYPE_TX_POWER, ADV_TYPE_MANUFACTURER_DATA}
  }

  /** The lengths the original does not check before it copies. */
  predicate FitsAdv(r: Record) {
    && (r.kind == ADV_TYPE_FLAGS || r.kind == ADV_TYPE_TX_POWER ==> |r.data| <= 1)
    && (r.kind == ADV_TYPE_UUID_128 ==> |r.data| <= 16)
    && (r.kind == ADV_TYPE_LOCAL_NAME ==> |r.data| <= 8 + NAME_LEN)
  }

  /** The bytes of `over` at the front, and what was there behind them. */
  function CopyOver(b: seq<Byte>, over: seq<Byte>): (r: seq<Byte>)
    requires |over| <= |b|
    ensures |r| == |b| && forall i :: 0 <= i < |b| ==> r[i] == if i < |over| then over[i] else b[i]
  {
    over + b[|over|..]
  }

  /** anki_vehicle_parse_mfg_data: exactly eight bytes, most significant first. */
  function TakeMfgData(m: MfgData, b: seq<Byte>): MfgData {
    if |b| != 8 then m
    else MfgData(
        b[7] as nat + 0x100 * (b[6] as nat) + 0x1_0000 * (b[5] as nat) + 0x100_0000 * (b[4] as nat),
        b[3], b[2], b[1] as nat + 0x100 * (b[0] as nat))
  }

  predicate StateBit(state: Byte, mask: bv8) {
    (state as bv8) & mask == mask
  }

  function Zeros(n: nat): (z: seq<Byte>)
    ensures |z| == n
  {
    seq(n, _ => 0)
  }

  /** anki_vehicle_parse_local_name: the state, then up to two bytes of version, and from byte 8 on a name. */
  function TakeLocalName(n: LocalName, b: seq<Byte>): LocalName
    requires |n.name| == NAME_LEN && |b| <= 8 + NAME_LEN
  {
    if b == [] then n
    else LocalName(
        StateBit(b[0], 0x10), StateBit(b[0], 0x20), StateBit(b[0], 0x40),
        if |b| > 2 then b[1] as nat + 0x100 * (b[2] as nat) else if |b| > 1 then b[1] as nat else n.version,
        if |b| > 8 then b[8..] + Zeros(NAME_LEN - (|b| - 8)) else n.name)
  }

  /** What a record of a known type changes. */
  function Take(a: Adv, r: Record): (t: Adv)
    requires a.Valid() && FitsAdv(r)
    ensures t.Valid()
  {
    if r.kind == ADV_TYPE_FLAGS then (if r.data == [] then a else a.(flags := r.data[0]))
    else if r.kind == ADV_TYPE_TX_POWER then (if r.data == [] then a else a.(txPower := r.data[0]))
    else if r.kind == ADV_TYPE_UUID_128 then a.(serviceId := CopyOver(a.serviceId, r.data))
    else if r.kind == ADV_TYPE_LOCAL_NAME then a.(localName := TakeLocalName(a.localName, r.data))
    else if r.kind == ADV_TYPE_MANUFACTURER_DATA then a.(mfgData := TakeMfgData(a.mfgData, r.data))
    else a
  }

  /** A service that is not Anki's. */
  predicate Foreign(r: Record) {
    r.kind == ADV_TYPE_UUID_128 && |r.data| == 16 && !IsAnki(r.data)
  }

  /** The records from one on, as anki_vehicle_parse_adv_record treats them: the information and the return code. */
  function Interpret(a: Adv, rs: seq<Record>): (t: (Adv, nat))
    requires a.Valid() && forall r :: r in rs ==> FitsAdv(r)
    ensures t.0.Valid()
    decreases |rs|
  {
    if rs == [] then (a, if IsAnki(a.serviceId) then 0 else 2)
    else
      assert rs[0] in rs;
      if !KnownType(rs[0].kind) then (a, 3)
      else if Foreign(rs[0]) then (a, 2)
      else Interpret(Take(a, rs[0]), rs[1..])
  }

  /** The left fold. */
  function Fold(a: Adv, rs: seq<Record>): (t: Adv)
    requires a.Valid() && forall r :: r in rs ==> FitsAdv(r)
    ensures t.Valid()
    decreases |rs|
  {
    if rs == [] then a
    else
      assert rs[0] in rs;
      Fold(Take(a, rs[0]), rs[1..])
  }

  /** Known types, fitting lengths, and no service but Anki's. */
  predicate Clean(r: Record) {
    r.Valid() && KnownType(r.kind) && FitsAdv(r) && !Foreign(r)
  }

  lemma CleanMeans(r: Record)
    requires Clean(r)
    ensures KnownType(r.kind) && !Foreign(r) && FitsAdv(r)
  {
  }

  lemma {:induction false} InterpretIsFold(a: Adv, rs: seq<Record>)
    requires a.Valid() && forall r :: r in rs ==> Clean(r)
    ensures forall r :: r in rs ==> FitsAdv(r)
    ensures Interpret(a, rs) == (var t := Fold(a, rs); (t, if IsAnki(t.serviceId) then 0 else 2))
    decreases |rs|
  {
    hide Take, KnownType, Foreign, FitsAdv, IsAnki, Clean;
    forall r | r in rs
      ensures FitsAdv(r)
    {
      CleanMeans(r);
    }
    if rs != [] {
      CleanMeans(rs[0]);
      InterpretIsFold(Take(a, rs[0]), rs[1..]);
    }
  }

  lemma {:induction false} FoldConcat(a: Adv, p: seq<Record>, q: seq<Record>)
    requires a.Valid() && (forall r :: r in p ==> FitsAdv(r)) && (forall r :: r in q ==> FitsAdv(r))
    ensures (forall r :: r in p + q ==> FitsAdv(r)) && Fold(a, p + q) == Fold(Fold(a, p), q)
    decreases |p|
  {
    hide Take, FitsAdv;
    if p == [] {
      assert p + q == q;
    } else {
      assert (p + q)[1..] == p[1..] + q && p[0] in p;
      FoldConcat(Take(a, p[0]), p[1..], q);
    }
  }

  /** What anki_vehicle_parse_adv_record does without a place for the information. */
  function Probe(rs: seq<Record>): nat
    decreases |rs|
  {
    if rs == [] then 2
    else if !KnownType(rs[0].kind) then 3
    else if rs[0].kind == ADV_TYPE_UUID_128 then (if Foreign(rs[0]) then 2 else 0)
    else Probe(rs[1..])
  }

  predicate Passed(rs: seq<Record>, i: nat)
    requires i <= |rs|
  {
    forall j :: 0 <= j < i ==> KnownType(rs[j].kind) && rs[j].kind != ADV_TYPE_UUID_128
  }

  /** The i-th record names a service that is not foreign, and before it are only known records that name none. */
  predicate Hit(rs: seq<Record>, i: nat) {
    i < |rs| && rs[i].kind == ADV_TYPE_UUID_128 && !Foreign(rs[i]) && Passed(rs, i)
  }

  lemma HitShift(rs: seq<Record>, i: nat)
    requires rs != []
    ensures Hit(rs, i + 1) <==> KnownType(rs[0].kind) && rs[0].kind != ADV_TYPE_UUID_128 && Hit(rs[1..], i)
    ensures Hit(rs, 0) <==> rs[0].kind == ADV_TYPE_UUID_128 && !Foreign(rs[0])
  {
    hide Foreign, KnownType;
    if Hit(rs, i + 1) {
      assert forall j :: 0 <= j < i ==> rs[1..][j] == rs[j + 1];
    } else if Hit(rs[1..], i) {
      assert forall j :: 0 < j <= i ==> rs[j] == rs[1..][j - 1];
    }
  }

  lemma NoHit()
    ensures forall i: nat :: !Hit([], i)
  {
  }

  /**
   The probe says yes exactly if a service that is not foreign comes before any other service and any unknown
   record.
   */
  lemma {:induction false} ProbeExactly(rs: seq<Record>)
    ensures Probe(rs) == 0 <==> exists i: nat :: Hit(rs, i)
    decreases |rs|
  {
    hide Foreign, Hit;
    if rs == [] {
      assert forall i: nat :: Hit(rs, i) ==> false by {
        NoHit();
      }
    } else {
      ProbeExactly(rs[1..]);
      HitShift(rs, 0);
      forall i: nat | Hit(rs, i)
        ensures i == 0 || Hit(rs[1..], i - 1)
        ensures i == 0 || (KnownType(rs[0].kind) && rs[0].kind != ADV_TYPE_UUID_128)
      {
        if i > 0 { HitShift(rs, i - 1); }
      }
      if KnownType(rs[0].kind) && rs[0].kind != ADV_TYPE_UUID_128 && Probe(rs[1..]) == 0 {
        var i :| Hit(rs[1..], i);
        HitShift(rs, i);
      }
    }
  }

  // ----- what the fields hold -----

  lemma FourBytes(b: seq<Byte>)
    requires |b| == 4
    ensures BigEndian(b) == b[3] as nat + 0x100 * (b[2] as nat) + 0x1_0000 * (b[1] as nat) + 0x100_0000 * (b[0] as nat)
  {
    TwoBytes(b[..2]);
    assert b[..3][..2] == b[..2];
    assert BigEndian(b[..3]) == 256 * BigEndian(b[..2]) + b[2] as nat;
  }

  /** Eight bytes carry the product, two single bytes and the identifier, most significant first. */
  lemma MfgDataHolds(m: MfgData, b: seq<Byte>)
    ensures var t := TakeMfgData(m, b);
      && (|b| != 8 ==> t == m)
      && (|b| == 8 ==>
           t == MfgData(BigEndian(b[4..]), b[3], b[2], BigEndian(b[..2]))
             && t.productId / 0x100 == b[0] && t.productId % 0x100 == b[1])
  {
    if |b| == 8 {
      TwoBytes(b[..2]);
      FourBytes(b[4..]);
    }
  }

  lemma StateBits(b: Byte)
    ensures StateBit(b, 0x10) <==> Bit(b, 4)
  {
  }

  lemma LowBit(b: Byte)
    ensures StateBit(b, 0x20) <==> Bit(b, 5)
  {
  }

  lemma ChargerBit(b: Byte)
    ensures StateBit(b, 0x40) <==> Bit(b, 6)
  {
  }

  /**
   A local name carries the state in bits 4 to 6 of its first byte, then up to two bytes of version, least
   significant first, and from byte 8 on the name, filled up with zeros. What is missing keeps its old value.
   */
  lemma LocalNameHolds(n: LocalName, b: seq<Byte>)
    requires |n.name| == NAME_LEN && 1 <= |b| <= 8 + NAME_LEN
    ensures var t := TakeLocalName(n, b);
      && (t.fullBattery <==> Bit(b[0], 4)) && (t.lowBattery <==> Bit(b[0], 5)) && (t.onCharger <==> Bit(b[0], 6))
      && t.version == (if |b| == 1 then n.version else LittleEndian(b[1..Min(|b|, 3)]))
      && |t.name| == 13
      && (|b| <= 8 ==> t.name == n.name)
      && (|b| > 8 ==> forall i :: 0 <= i < 13 ==> t.name[i] == if i < |b| - 8 then b[8 + i] else 0)
  {
    hide StateBit, Bit;
    StateBits(b[0]);
    LowBit(b[0]);
    ChargerBit(b[0]);
    if |b| > 2 {
      TwoBytes(b[1..3]);
    } else if |b| == 2 {
      assert b[1..2] == [b[1]] && [b[1]][1..] == [];
    }
  }

  // ----- the object -----

  lemma InterpretStep(a: Adv, rs: seq<Record>, n: nat)
    requires n < |rs| && a.Valid() && forall r :: r in rs ==> FitsAdv(r)
    ensures (forall r :: r in rs[n..] ==> FitsAdv(r)) && (forall r :: r in rs[n + 1..] ==> FitsAdv(r)) && FitsAdv(rs[n])
    ensures Interpret(a, rs[n..]) ==
      if !KnownType(rs[n].kind) then (a, 3)
      else if Foreign(rs[n]) then (a, 2)
      else Interpret(Take(a, rs[n]), rs[n + 1..])
  {
    hide Take, KnownType, Foreign, FitsAdv;
    assert rs[n] in rs && rs[n..][0] == rs[n] && rs[n..][1..] == rs[n + 1..];
  }

  lemma InterpretEnd(a: Adv, rs: seq<Record>)
    requires rs == [] && a.Valid()
    ensures Interpret(a, rs) == (a, if IsAnki(a.serviceId) then 0 else 2)
  {
  }

  /** The structure the parser accumulates into. */
  class VehicleAdv {
    var flags: Byte
    var txPower: Byte
    var mfgData: MfgData
    var localName: LocalName
    var serviceId: seq<Byte>

    ghost function Val(): Adv
      reads this
    {
      Adv(flags, txPower, mfgData, localName, serviceId)
    }

    /** memset to zero. */
    constructor ()
      ensures Val() == Adv(0, 0, MfgData(0, 0, 0, 0), LocalName(false, false, false, 0, Zeros(NAME_LEN)), Zeros(16))
    {
      flags, txPower := 0, 0;
      mfgData, localName := MfgData(0, 0, 0, 0), LocalName(false, false, false, 0, Zeros(NAME_LEN));
      serviceId := Zeros(16);
    }

    method ParseMfgData(b: seq<Byte>) returns (code: nat)
      modifies this`mfgData
      ensures mfgData == TakeMfgData(old(mfgData), b)
      ensures code == if |b| == 8 then 0 else 1
    {
      if |b| != 8 {
        return 1;
      }
      var high := 0x1_0000 * (b[5] as nat) + 0x100_0000 * (b[4] as nat);
      mfgData := MfgData(b[7] as nat + 0x100 * (b[6] as nat) + high, b[3], b[2], b[1] as nat + 0x100 * (b[0] as nat));
      return 0;
    }

    method ParseLocalName(b: seq<Byte>) returns (code: nat)
      requires |localName.name| == NAME_LEN && |b| <= 8 + NAME_LEN
      modifies this`localName
      ensures localName == TakeLocalName(old(localName), b)
      ensures code == if b == [] then 1 else 0
    {
      if b == [] {
        return 1;
      }
      localName := localName.(
        fullBattery := StateBit(b[0], 0x10), lowBattery := StateBit(b[0], 0x20), onCharger := StateBit(b[0], 0x40));
      if |b| > 1 {
        localName := localName.(version := b[1] as nat);
      }
      if |b| > 2 {
        localName := localName.(version := localName.version + 0x100 * (b[2] as nat));
      }
      if |b| > 8 {
        localName := localName.(name := b[8..] + Zeros(NAME_LEN - (|b| - 8)));
      }
      return 0;
    }

    /** One record of the switch: a return code, or none to go on. */
    method TakeRecord(kind: Byte, data: seq<Byte>) returns (code: Option<nat>)
      requires Val().Valid() && FitsAdv(Record(kind, data))
      modifies this
      ensures var r := Record(kind, data);
        if !KnownType(kind) then code == Some(3) && Val() == old(Val())
        else if Foreign(r) then code == Some(2) && Val() == old(Val())
        else code == None && Val() == Take(old(Val()), r)
    {
      code := None;
      if kind == ADV_TYPE_FLAGS {
        if data != [] { flags := data[0]; }
      } else if kind == ADV_TYPE_UUID_128 {
        if |data| == 16 && !IsAnki(data) {
          return Some(2);
        }
        serviceId := CopyOver(serviceId, data);
      } else if kind == ADV_TYPE_LOCAL_NAME {
        var _ := ParseLocalName(data);
      } else if kind == ADV_TYPE_TX_POWER {
        if data != [] { txPower := data[0]; }
      } else if kind == ADV_TYPE_MANUFACTURER_DATA {
        var _ := ParseMfgData(data);
      } else {
        return Some(3);
      }
    }

    /** anki_vehicle_parse_adv_record. */
    method ParseAdvRecord(data: seq<Byte>) returns (code: nat)
      requires |data| < 0x8000_0000 && Complete(data) && Val().Valid() && forall r :: r in Scan(data) ==> FitsAdv(r)
      modifies this
      ensures (Val(), code) == Interpret(old(Val()), Scan(data))
    {
      hide Scan, Complete, Interpret, Take, FitsAdv, Foreign, KnownType, IsAnki;
      ghost var rs := Scan(data);
      ghost var n := 0;
      var i := 0;
      assert data[0..] == data && data[|data|..] == [] && rs[0..] == rs;
      NothingLeft();
      while i < |data|
        invariant 0 <= i <= |data| && Complete(data[i..])
        invariant n <= |rs| && rs[n..] == Scan(data[i..]) && Val().Valid()
        invariant Interpret(Val(), rs[n..]) == Interpret(old(Val()), rs)
      {
        NextRecord(data, i, rs, n);
        var len := data[i];
        i := i + 1;
        if len == 0 {
          break;
        }
        var kind := data[i];
        if kind == ADV_TYPE_INVALID {
          break;
        }
        assert rs[n] in rs;
        InterpretStep(Val(), rs, n);
        var c := TakeRecord(kind, data[i + 1..i + len]);
        if c.Some? {
          return c.value;
        }
        n := n + 1;
        i := i + len;
      }
      InterpretEnd(Val(), rs[n..]);
      return if IsAnki(serviceId) then 0 else 2;
    }
  }

  /** No record that names a service is cut: of the others the parser without a structure reads the type only. */
  predicate WholeUuids(data: seq<Byte>)
    requires Typed(data)
    decreases |data|
  {
    data == [] || data[0] == 0 || data[1] == ADV_TYPE_INVALID ||
    ((data[1] == ADV_TYPE_UUID_128 ==> 1 + data[0] <= |data|)
      && (1 + data[0] >= |data| || WholeUuids(data[1 + data[0]..])))
  }

  lemma WholeNext(data: seq<Byte>, at: nat)
    requires at < |data| && Typed(data[at..]) && WholeUuids(data[at..]) && data[at] != 0
    ensures at + 1 < |data|
    ensures data[at + 1] == ADV_TYPE_UUID_128 ==> at + 1 + data[at] <= |data|
    ensures data[at + 1] != ADV_TYPE_INVALID ==> Typed(data[EndOf(data, at)..]) && WholeUuids(data[EndOf(data, at)..])
  {
    var b := data[at..];
    if data[at + 1] != ADV_TYPE_INVALID {
      Shifted(data, at, Min(b[0] as nat + 1, |b|));
    }
  }

  /** anki_vehicle_adv_record_has_anki_uuid: the parser without a structure. */
  method HasAnkiUuid(data: seq<Byte>) returns (yes: bool)
    requires |data| < 0x8000_0000 && Typed(data) && WholeUuids(data)
    ensures yes <==> exists i: nat :: Hit(Scan(data), i)
  {
    hide Scan, Typed, WholeUuids, Hit;
    ghost var rs := Scan(data);
    ghost var n := 0;
    ProbeExactly(rs);
    var i := 0;
    assert data[0..] == data && data[|data|..] == [] && rs[0..] == rs;
    NothingLeft();
    while i < |data|
      invariant 0 <= i && Typed(data[Min(i, |data|)..]) && WholeUuids(data[Min(i, |data|)..])
      invariant n <= |rs| && rs[n..] == Scan(data[Min(i, |data|)..]) && Probe(rs[n..]) == Probe(rs)
    {
      NextRecord(data, i, rs, n);
      if data[i] != 0 {
        WholeNext(data, i);
      }
      var len := data[i];
      i := i + 1;
      if len == 0 {
        break;
      }
      var kind := data[i];
      if kind == ADV_TYPE_INVALID {
        break;
      }
      assert rs[n..][0] == rs[n] && rs[n..][1..] == rs[n + 1..];
      if kind == ADV_TYPE_UUID_128 {
        var record := data[i + 1..i + len];
        return !(|record| == 16 && !IsAnki(record));
      } else if !KnownType(kind) {
        return false;
      }
      n := n + 1;
      i := i + len;
    }
    return false;
  }

  // ----- an advertisement and then its scan response -----

  /** From the bytes of clean records the parser folds them into the information; padding changes nothing. */
  lemma ParseIsFold(a: Adv, rs: seq<Record>, pad: seq<Byte>)
    requires a.Valid() && (forall r :: r in rs ==> Clean(r)) && Padding(pad)
    ensures (forall r :: r in rs ==> r.Valid() && FitsAdv(r)) && Complete(Serialize(rs) + pad)
    ensures Scan(Serialize(rs) + pad) == rs
    ensures Interpret(a, Scan(Serialize(rs) + pad)) == (var t := Fold(a, rs); (t, if IsAnki(t.serviceId) then 0 else 2))
  {
    hide Serialize, Scan, Complete, Interpret, Fold;
    ScanInverts(rs, pad);
    InterpretIsFold(a, rs);
  }

  lemma {:induction false} SerializeConcat(p: seq<Record>, q: seq<Record>)
    requires (forall r :: r in p ==> r.Valid()) && (forall r :: r in q ==> r.Valid())
    ensures (forall r :: r in p + q ==> r.Valid()) && Serialize(p + q) == Serialize(p) + Serialize(q)
  {
    hide Put;
    if p == [] {
      assert p + q == q;
    } else {
      assert (p + q)[1..] == p[1..] + q && p[0] in p;
      SerializeConcat(p[1..], q);
    }
  }

  /** Parsing an advertisement and then a scan response accumulates like parsing both as one packet. */
  lemma Accumulates(a: Adv, p: seq<Record>, q: seq<Record>, pad1: seq<Byte>, pad2: seq<Byte>)
    requires a.Valid() && (forall r :: r in p ==> Clean(r)) && (forall r :: r in q ==> Clean(r)) && Padding(pad1)
    requires Padding(pad2)
    ensures (forall r :: r in p ==> r.Valid() && FitsAdv(r)) && (forall r :: r in q ==> r.Valid() && FitsAdv(r))
    ensures (forall r :: r in p + q ==> r.Valid() && FitsAdv(r))
    ensures Complete(Serialize(p) + pad1) && Complete(Serialize(q) + pad2) && Complete(Serialize(p + q) + pad2)
    ensures Scan(Serialize(p) + pad1) == p && Scan(Serialize(q) + pad2) == q && Scan(Serialize(p + q) + pad2) == p + q
    ensures Serialize(p + q) == Serialize(p) + Serialize(q)
    ensures Interpret(Interpret(a, p).0, q) == Interpret(a, p + q)
  {
    hide Serialize, Scan, Complete, Interpret, Fold, Clean;
    assert forall r :: r in p + q ==> Clean(r);
    ParseIsFold(a, p, pad1);
    ParseIsFold(Fold(a, p), q, pad2);
    ParseIsFold(a, p + q, pad2);
    FoldConcat(a, p, q);
    SerializeConcat(p, q);
  }

  // ----- where parsing stops, and with which code -----

  /** A record of a type that the parser does not know. */
  predicate Unknown(r: Record) {
    r.kind !in [0x01, 0x07, 0x09, 0x0A, 0xFF]
  }

  /** A whole 128-bit service that is not Anki's. */
  predicate OtherService(r: Record) {
    r.kind == 0x07 && |r.data| == 16 && r.data != ANKI_SERVICE_UUID_LE
  }

  predicate Stops(r: Record) {
    Unknown(r) || OtherService(r)
  }

  /** The position of the first record at which parsing stops, or the end. */
  function StopAt(rs: seq<Record>): (i: nat)
    ensures i <= |rs| && (forall j :: 0 <= j < i ==> !Stops(rs[j])) && (i < |rs| ==> Stops(rs[i]))
  {
    if rs == [] || Stops(rs[0]) then 0 else 1 + StopAt(rs[1..])
  }

  lemma StopsAre(r: Record)
    ensures Unknown(r) <==> !KnownType(r.kind)
    ensures OtherService(r) <==> Foreign(r)
  {
  }

  /**
   The information is folded from the records before the first one of an unknown type or with another service;
   the code is 3 or 2 for the one at which parsing stops, and otherwise tells whether the service is Anki's.
   */
  lemma {:induction false} StopsExactly(a: Adv, rs: seq<Record>)
    requires a.Valid() && forall r :: r in rs ==> FitsAdv(r)
    ensures forall r :: r in rs[..StopAt(rs)] ==> FitsAdv(r)
    ensures var i := StopAt(rs);
      var t := Fold(a, rs[..i]);
      Interpret(a, rs) ==
        (t, if i < |rs| then (if Unknown(rs[i]) then 3 else 2)
            else if t.serviceId == ANKI_SERVICE_UUID_LE then 0 else 2)
    decreases |rs|
  {
    hide Take, KnownType, Foreign, FitsAdv, Unknown, OtherService;
    var i := StopAt(rs);
    if rs != [] {
      StopsAre(rs[0]);
      assert rs[0] in rs;
      if i > 0 {
        StopsExactly(Take(a, rs[0]), rs[1..]);
        assert rs[..i][0] == rs[0] && rs[..i][1..] == rs[1..][..i - 1];
      }
    }
  }

  // ----- every field comes back -----

  /** The records of the information, as a vehicle sends them. */
  function RecordsOf(a: Adv): seq<Record>
    requires a.Valid() && Sendable(a)
  {
    [Record(0x01, [a.flags]), Record(0x0A, [a.txPower]), Record(0x07, a.serviceId),
     Record(0x09, NameBytes(a.localName)), Record(0xFF, MfgBytes(a.mfgData))]
  }

  /** The numbers have the sizes of their fields. */
  predicate Sendable(a: Adv) {
    && a.localName.version < 0x1_0000
    && a.mfgData.productId < 0x1_0000 && a.mfgData.identifier < 0x1_0000_0000
  }

  function NameBytes(n: LocalName): seq<Byte>
    requires n.version < 0x1_0000
  {
    [(if n.fullBattery then 16 else 0) + (if n.lowBattery then 32 else 0) + (if n.onCharger then 64 else 0)]
    + Put16(n.version) + [0, 0, 0, 0, 0] + n.name
  }

  /** Most significant bytes first. */
  function MfgBytes(m: MfgData): seq<Byte>
    requires m.productId < 0x1_0000 && m.identifier < 0x1_0000_0000
  {
    BtUuid.Reverse(Put16(m.productId)) + [m.reserved, m.modelId] + BtUuid.Reverse(BtUuid.Put32(m.identifier))
  }

  lemma NameComesBack(was: LocalName, n: LocalName)
    requires |was.name| == |n.name| == NAME_LEN && n.version < 0x1_0000
    ensures |NameBytes(n)| == 8 + NAME_LEN && TakeLocalName(was, NameBytes(n)) == n
  {
    hide TakeLocalName;
    var b := NameBytes(n);
    LocalNameHolds(was, b);
    assert b[1..3] == Put16(n.version);
    LeastFirst(n.version, []);
    assert TakeLocalName(was, b).name == n.name;
  }

  lemma MfgComesBack(was: MfgData, m: MfgData)
    requires m.productId < 0x1_0000 && m.identifier < 0x1_0000_0000
    ensures TakeMfgData(was, MfgBytes(m)) == m
  {
    hide TakeMfgData;
    var b := MfgBytes(m);
    MfgDataHolds(was, b);
    assert b[..2] == BtUuid.Reverse(Put16(m.productId)) && b[4..] == BtUuid.Reverse(BtUuid.Put32(m.identifier));
    BtUuid.ReversedNumber(Put16(m.productId));
    BtUuid.ReversedNumber(BtUuid.Put32(m.identifier));
    LeastFirst(m.productId, []);
    BtUuid.Put32Number(m.identifier);
  }

  lemma FoldFirst(a: Adv, r: Record, rs: seq<Record>)
    requires a.Valid() && FitsAdv(r) && forall x :: x in rs ==> FitsAdv(x)
    ensures (forall x :: x in [r] + rs ==> FitsAdv(x)) && Fold(a, [r] + rs) == Fold(Take(a, r), rs)
  {
    assert ([r] + rs)[1..] == rs;
  }

  lemma RecordsFit(was: Adv, a: Adv)
    requires was.Valid() && a.Valid() && Sendable(a) && IsAnki(a.serviceId)
    ensures (forall r :: r in RecordsOf(a) ==> Clean(r)) && forall r :: r in RecordsOf(a) ==> FitsAdv(r)
  {
    NameComesBack(was.localName, a.localName);
    hide TakeLocalName, NameBytes, MfgBytes;
  }

  lemma FoldsTwo(a: Adv, r: Record, s: Record)
    requires a.Valid() && FitsAdv(r) && FitsAdv(s)
    ensures (forall x :: x in [r, s] ==> FitsAdv(x)) && Fold(a, [r, s]) == Take(Take(a, r), s)
  {
    hide Take;
    FoldFirst(Take(a, r), s, []);
    FoldFirst(a, r, [s]);
    assert [r] + [s] == [r, s] && [s] + [] == [s];
  }

  lemma FoldsThree(a: Adv, r: Record, s: Record, t: Record)
    requires a.Valid() && FitsAdv(r) && FitsAdv(s) && FitsAdv(t)
    ensures (forall x :: x in [r, s, t] ==> FitsAdv(x)) && Fold(a, [r, s, t]) == Take(Take(Take(a, r), s), t)
  {
    hide Take;
    FoldsTwo(Take(a, r), s, t);
    FoldFirst(a, r, [s, t]);
    assert [r] + [s, t] == [r, s, t];
  }

  lemma TakesInTurn(was: Adv, a: Adv)
    requires was.Valid() && a.Valid() && Sendable(a) && IsAnki(a.serviceId)
    ensures forall r :: r in RecordsOf(a) ==> FitsAdv(r)
    ensures var rs := RecordsOf(a); Take(Take(Take(Take(Take(was, rs[0]), rs[1]), rs[2]), rs[3]), rs[4]) == a
  {
    RecordsFit(was, a);
    NameComesBack(was.localName, a.localName);
    MfgComesBack(was.mfgData, a.mfgData);
    hide TakeLocalName, TakeMfgData, NameBytes, MfgBytes, ANKI_SERVICE_UUID_LE;
  }

  /** The five records, one after the other, set every field. */
  lemma FoldedBack(was: Adv, a: Adv)
    requires was.Valid() && a.Valid() && Sendable(a) && IsAnki(a.serviceId)
    ensures (forall r :: r in RecordsOf(a) ==> Clean(r)) && (forall r :: r in RecordsOf(a) ==> FitsAdv(r))
    ensures Fold(was, RecordsOf(a)) == a
  {
    RecordsFit(was, a);
    TakesInTurn(was, a);
    var rs := RecordsOf(a);
    hide Clean, RecordsOf, Fold, Take, IsAnki, FitsAdv;
    FoldsThree(was, rs[0], rs[1], rs[2]);
    FoldsTwo(Take(Take(Take(was, rs[0]), rs[1]), rs[2]), rs[3], rs[4]);
    FoldConcat(was, [rs[0], rs[1], rs[2]], [rs[3], rs[4]]);
    assert rs == [rs[0], rs[1], rs[2]] + [rs[3], rs[4]];
  }

  /**
   From the bytes in which a vehicle sends what it is and how it is, the parser gives exactly this back, whatever
   it knew before.
   */
  lemma SentComesBack(was: Adv, a: Adv, pad: seq<Byte>)
    requires was.Valid() && a.Valid() && Sendable(a) && IsAnki(a.serviceId) && Padding(pad)
    ensures (forall r :: r in RecordsOf(a) ==> r.Valid() && FitsAdv(r)) && Complete(Serialize(RecordsOf(a)) + pad)
    ensures Scan(Serialize(RecordsOf(a)) + pad) == RecordsOf(a)
    ensures Interpret(was, Scan(Serialize(RecordsOf(a)) + pad)) == (a, 0)
  {
    hide RecordsOf, Fold, Interpret, Scan, Serialize, Clean;
    FoldedBack(was, a);
    ParseIsFold(was, RecordsOf(a), pad);
  }

  // ----- the data that the repository names -----

  /** What the unit tests of the repository expect of two records. */
  lemma TestRecords(m: MfgData, n: LocalName)
    requires |n.name| == NAME_LEN
    ensures var t := TakeMfgData(m, [0xBE, 0xEF, 0x00, 0x01, 0x00, 0xE0, 0x0A, 0xA3]);
      t.productId == 0xBEEF && t.modelId == 0x01 && t.identifier % 0x1_0000 == 0x0AA3
    ensures var b :=
        [0x50, 0x20, 0x21, 0x01, 0x20, 0x20, 0x5A, 0x39, 0x41, 0x41, 0x33, 0x20, 0x54, 0x4F, 0x4D, 0x4D, 0x59, 0x00];
      var t := TakeLocalName(n, b);
      && t.fullBattery && !t.lowBattery && t.onCharger && t.version == 0x2120
      && t.name[..10] == b[8..]
  {
    hide StateBit;
    StateBits(0x50);
    LowBit(0x50);
    ChargerBit(0x50);
  }

  // The packets of a vehicle in the unit tests: its advertisement and its scan response, record by record.
  const FLAGS_REC: seq<Byte> := [0x02, 0x01, 0x06]
  const SERVICE_REC: seq<Byte> :=
    [0x11, 0x07, 0xF4, 0x8D, 0x4D, 0x9C, 0xD8, 0x0B, 0x81, 0x83, 0x7E, 0x40, 0x86, 0x61, 0xEF, 0xBE, 0x15, 0xBE]
  const MFG_REC: seq<Byte> := [0x09, 0xFF, 0xBE, 0xEF, 0x00, 0x01, 0x00, 0xE0, 0x0A, 0xA3]
  const NAME_REC: seq<Byte> :=
    [0x13, 0x09,
     0x50, 0x20, 0x21, 0x01, 0x20, 0x20, 0x5A, 0x39, 0x41, 0x41, 0x33, 0x20, 0x54, 0x4F, 0x4D, 0x4D, 0x59, 0x00]
  const POWER_REC: seq<Byte> := [0x02, 0x0A, 0x00]
  const ADVERTISEMENT: seq<Byte> := FLAGS_REC + (SERVICE_REC + (MFG_REC + []))
  const SCAN_RESPONSE: seq<Byte> := NAME_REC + (POWER_REC + [])

  lemma RecordScanned(b: seq<Byte>, tail: seq<Byte>)
    requires |b| > 1 && b[0] != 0 && b[1] != 0 && |b| - 1 == b[0] && Complete(tail)
    ensures Complete(b + tail) && Scan(b + tail) == [Record(b[1], b[2..])] + Scan(tail)
  {
    hide Scan, Complete;
    ScanFirst(b + tail);
    assert (b + tail)[1 + b[0]..] == tail && (b + tail)[2..1 + b[0]] == b[2..];
  }

  lemma VehicleScanned()
    ensures Complete(ADVERTISEMENT) && Complete(SCAN_RESPONSE)
    ensures Scan(ADVERTISEMENT)
      == [Record(0x01, FLAGS_REC[2..]), Record(0x07, SERVICE_REC[2..]), Record(0xFF, MFG_REC[2..])]
    ensures Scan(SCAN_RESPONSE) == [Record(0x09, NAME_REC[2..]), Record(0x0A, POWER_REC[2..])]
  {
    hide Scan, Complete;
    PaddingEnds([]);
    RecordScanned(MFG_REC, []);
    RecordScanned(SERVICE_REC, MFG_REC + []);
    RecordScanned(FLAGS_REC, SERVICE_REC + (MFG_REC + []));
    RecordScanned(POWER_REC, []);
    RecordScanned(NAME_REC, POWER_REC + []);
  }

  lemma RecordsHold()
    ensures FLAGS_REC[2..] == [0x06] && SERVICE_REC[2..] == ANKI_SERVICE_UUID_LE && POWER_REC[2..] == [0x00]
    ensures MFG_REC[2..] == [0xBE, 0xEF, 0x00, 0x01, 0x00, 0xE0, 0x0A, 0xA3]
    ensures NAME_REC[2..] ==
      [0x50, 0x20, 0x21, 0x01, 0x20, 0x20, 0x5A, 0x39, 0x41, 0x41, 0x33, 0x20, 0x54, 0x4F, 0x4D, 0x4D, 0x59, 0x00]
  {
  }

  lemma AdvertisementTaken(was: Adv)
    requires was.Valid()
    ensures Complete(ADVERTISEMENT) && forall r :: r in Scan(ADVERTISEMENT) ==> FitsAdv(r)
    ensures Interpret(was, Scan(ADVERTISEMENT))
      == (was.(flags := 0x06, serviceId := ANKI_SERVICE_UUID_LE, mfgData := TakeMfgData(was.mfgData, MFG_REC[2..])), 0)
    ensures Hit(Scan(ADVERTISEMENT), 1)
  {
    VehicleScanned();
    RecordsHold();
    var f, s, m := Record(0x01, FLAGS_REC[2..]), Record(0x07, SERVICE_REC[2..]), Record(0xFF, MFG_REC[2..]);
    hide Scan, Complete, ADVERTISEMENT, SCAN_RESPONSE, FLAGS_REC, SERVICE_REC, MFG_REC, NAME_REC, POWER_REC;
    hide ANKI_SERVICE_UUID_LE, TakeMfgData, Interpret, Fold;
    FoldsThree(was, f, s, m);
    InterpretIsFold(was, [f, s, m]);
  }

  lemma ResponseTaken(was: Adv)
    requires was.Valid() && was.serviceId == ANKI_SERVICE_UUID_LE
    ensures Complete(SCAN_RESPONSE) && forall r :: r in Scan(SCAN_RESPONSE) ==> FitsAdv(r)
    ensures Interpret(was, Scan(SCAN_RESPONSE))
      == (was.(localName := TakeLocalName(was.localName, NAME_REC[2..]), txPower := 0x00), 0)
    ensures forall i: nat :: !Hit(Scan(SCAN_RESPONSE), i)
  {
    VehicleScanned();
    RecordsHold();
    var n, p := Record(0x09, NAME_REC[2..]), Record(0x0A, POWER_REC[2..]);
    hide Scan, Complete, ADVERTISEMENT, SCAN_RESPONSE, FLAGS_REC, SERVICE_REC, MFG_REC, NAME_REC, POWER_REC;
    hide ANKI_SERVICE_UUID_LE, TakeLocalName, Interpret, Fold;
    FoldsTwo(was, n, p);
    InterpretIsFold(was, [n, p]);
  }

  /** What the unit tests of the repository expect of both packets, one after the other. */
  lemma TestPackets(was: Adv)
    requires was.Valid()
    ensures Complete(ADVERTISEMENT) && Complete(SCAN_RESPONSE)
    ensures forall r :: r in Scan(ADVERTISEMENT) || r in Scan(SCAN_RESPONSE) ==> FitsAdv(r)
    ensures var (a, first) := Interpret(was, Scan(ADVERTISEMENT));
      var (b, second) := Interpret(a, Scan(SCAN_RESPONSE));
      && first == second == 0
      && b.flags == 6 && b.txPower == 0 && b.mfgData.productId == 0xBEEF && b.localName.version == 0x2120
    ensures Hit(Scan(ADVERTISEMENT), 1) && forall i: nat :: !Hit(Scan(SCAN_RESPONSE), i)
  {
    AdvertisementTaken(was);
    ResponseTaken(Interpret(was, Scan(ADVERTISEMENT)).0);
    RecordsHold();
    TestRecords(was.mfgData, was.localName);
  }

  lemma ServiceGroups()
    ensures BtUuid.Hex([0xBE, 0x15, 0xBE, 0xEF]) == "be15beef"
    ensures BtUuid.Hex([0x61, 0x86]) == "6186" && BtUuid.Hex([0x40, 0x7E]) == "407e"
    ensures BtUuid.Hex([0x83, 0x81]) == "8381"
  {
    hide BtUuid.Hex;
    BtUuid.TwoPrinted(0xBE, 0x15);
    BtUuid.TwoPrinted(0xBE, 0xEF);
    BtUuid.HexConcat([0xBE, 0x15], [0xBE, 0xEF]);
    assert [0xBE, 0x15] + [0xBE, 0xEF] == [0xBE, 0x15, 0xBE, 0xEF];
    BtUuid.TwoPrinted(0x61, 0x86);
    BtUuid.TwoPrinted(0x40, 0x7E);
    BtUuid.TwoPrinted(0x83, 0x81);
  }

  lemma ServiceNode()
    ensures BtUuid.Hex([0x0B, 0xD8, 0x9C, 0x4D, 0x8D, 0xF4]) == "0bd89c4d8df4"
  {
    hide BtUuid.Hex;
    BtUuid.TwoPrinted(0x0B, 0xD8);
    BtUuid.TwoPrinted(0x9C, 0x4D);
    BtUuid.TwoPrinted(0x8D, 0xF4);
    BtUuid.HexConcat([0x0B, 0xD8], [0x9C, 0x4D]);
    BtUuid.HexConcat([0x0B, 0xD8, 0x9C, 0x4D], [0x8D, 0xF4]);
    assert [0x0B, 0xD8] + [0x9C, 0x4D] == [0x0B, 0xD8, 0x9C, 0x4D];
    assert [0x0B, 0xD8, 0x9C, 0x4D] + [0x8D, 0xF4] == [0x0B, 0xD8, 0x9C, 0x4D, 0x8D, 0xF4];
  }

  lemma ServiceReversed()
    ensures var n := BtUuid.Reverse(ANKI_SERVICE_UUID_LE);
      && n[..4] == [0xBE, 0x15, 0xBE, 0xEF] && n[4..6] == [0x61, 0x86] && n[6..8] == [0x40, 0x7E]
      && n[8..10] == [0x83, 0x81] && n[10..] == [0x0B, 0xD8, 0x9C, 0x4D, 0x8D, 0xF4]
  {
    hide BtUuid.Reverse;
    var n := BtUuid.Reverse(ANKI_SERVICE_UUID_LE);
    assert forall i :: 0 <= i < 16 ==> n[i] == ANKI_SERVICE_UUID_LE[15 - i];
    assert n == [0xBE, 0x15, 0xBE, 0xEF, 0x61, 0x86, 0x40, 0x7E, 0x83, 0x81, 0x0B, 0xD8, 0x9C, 0x4D, 0x8D, 0xF4];
  }

  /** The service that the parser looks for is the one that the vehicle's profile names. */
  lemma AnkiServiceIs()
    ensures BtUuid.ToString(BtUuid.Uuid128(ANKI_SERVICE_UUID_LE)) == "be15beef-6186-407e-8381-0bd89c4d8df4"
  {
    ServiceReversed();
    hide BtUuid.Hex, BtUuid.Reverse, ANKI_SERVICE_UUID_LE;
    ServiceGroups();
    ServiceNode();
    assert "be15beef" + "-" + "6186" + "-" + "407e" + "-" + "8381" + "-" + "0bd89c4d8df4"
      == "be15beef-6186-407e-8381-0bd89c4d8df4";
  }
}

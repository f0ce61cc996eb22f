/** Bluetooth UUIDs: short forms stand for 128-bit values over the base UUID; printing and parsing them. */
module BtUuid {
  import opened Basics
  import opened Bytes

  /** The 128-bit value is kept least significant byte first. */
  datatype Uuid = Uuid16(v: U16) | Uuid32(w: nat) | Uuid128(data: seq<Byte>) {
    predicate Valid() {
      (Uuid32? ==> w < 0x1_0000_0000) && (Uuid128? ==> |data| == 16)
    }
  }

  const BASE: seq<Byte> :=
    [0xFB, 0x34, 0x9B, 0x5F, 0x80, 0x00, 0x00, 0x80, 0x00, 0x10, 0x00, 0x00, 0x00, 0x00, 0x00, 0x00]

  const BASE_UUID16_OFFSET := 12

  function Put32(w: nat): (b: seq<Byte>)
    requires w < 0x1_0000_0000
    ensures |b| == 4
  {
    Put16(w % 0x1_0000) + Put16(w / 0x1_0000)
  }

  /** bt_uuid_to_uuid128: the short value replaces the zeros at the top of the base UUID. */
  function To128(u: Uuid): (r: Uuid)
    requires u.Valid()
    ensures r.Uuid128? && r.Valid()
  {
    match u
    case Uuid128(_) => u
    case Uuid32(w) => Uuid128(BASE[..BASE_UUID16_OFFSET] + Put32(w))
    case Uuid16(v) => Uuid128(BASE[..BASE_UUID16_OFFSET] + Put16(v) + BASE[BASE_UUID16_OFFSET + 2..])
  }

  /** bt_uuid_cmp gives zero. */
  predicate Same(u: Uuid, v: Uuid)
    requires u.Valid() && v.Valid()
  {
    To128(u) == To128(v)
  }

  function Short(u: Uuid): nat
    requires !u.Uuid128?
  {
    if u.Uuid16? then u.v else u.w
  }

  lemma Put32Injective(a: nat, b: nat)
    requires a < 0x1_0000_0000 && b < 0x1_0000_0000 && Put32(a) == Put32(b)
    ensures a == b
  {
    assert Put32(a)[..2] == Put16(a % 0x1_0000) && Put32(b)[..2] == Put16(b % 0x1_0000);
    assert Put32(a)[2..] == Put16(a / 0x1_0000) && Put32(b)[2..] == Put16(b / 0x1_0000);
    Get16OfPut16(a % 0x1_0000, []);
    Get16OfPut16(b % 0x1_0000, []);
    Get16OfPut16(a / 0x1_0000, []);
    Get16OfPut16(b / 0x1_0000, []);
    assert Put16(a % 0x1_0000) + [] == Put16(b % 0x1_0000) + [];
    assert Put16(a / 0x1_0000) + [] == Put16(b / 0x1_0000) + [];
  }

  /** A 16-bit UUID is the 32-bit UUID of the same number. */
  lemma WidenShort(u: Uuid)
    requires u.Valid() && !u.Uuid128?
    ensures To128(u) == Uuid128(BASE[..BASE_UUID16_OFFSET] + Put32(Short(u)))
  {
    if u.Uuid16? {
      assert BASE[BASE_UUID16_OFFSET + 2..] == [0, 0] == Put16(0);
    }
  }

  /** Short UUIDs are the same exactly if their numbers are, whichever forms they have. */
  lemma SameShort(u: Uuid, v: Uuid)
    requires u.Valid() && v.Valid() && !u.Uuid128? && !v.Uuid128?
    ensures Same(u, v) <==> Short(u) == Short(v)
  {
    WidenShort(u);
    WidenShort(v);
    if Same(u, v) {
      assert To128(u).data[12..] == Put32(Short(u)) && To128(v).data[12..] == Put32(Short(v));
      Put32Injective(Short(u), Short(v));
    }
  }

  // ----- strings -----

  const HEX := "0123456789abcdef"

  function HexByte(b: Byte): (s: string)
    ensures |s| == 2
  {
    [HEX[b / 16], HEX[b % 16]]
  }

  /** Bytes, most significant first. */
  function Hex(bs: seq<Byte>): (s: string)
    ensures |s| == 2 * |bs|
  {
    if bs == [] then "" else HexByte(bs[0]) + Hex(bs[1..])
  }

  function Reverse(bs: seq<Byte>): (r: seq<Byte>)
    ensures |r| == |bs| && forall i :: 0 <= i < |bs| ==> r[i] == bs[|bs| - 1 - i]
  {
    if bs == [] then [] else Reverse(bs[1..]) + [bs[0]]
  }

  /** bt_uuid_to_string. */
  function ToString(u: Uuid): string
    requires u.Valid()
  {
    match u
    case Uuid16(v) => Hex(Reverse(Put16(v)))
    case Uuid32(w) => Hex(Reverse(Put32(w)))
    case Uuid128(data) =>
      var n := Reverse(data);
      Hex(n[..4]) + "-" + Hex(n[4..6]) + "-" + Hex(n[6..8]) + "-" + Hex(n[8..10]) + "-" + Hex(n[10..])
  }

  function HexVal(c: char): Option<nat> {
    if '0' <= c <= '9' then Some(c as nat - '0' as nat)
    else if 'a' <= c <= 'f' then Some(c as nat - 'a' as nat + 10)
    else if 'A' <= c <= 'F' then Some(c as nat - 'A' as nat + 10)
    else None
  }

  lemma HexValSmall(c: char)
    ensures HexVal(c).Some? ==> HexVal(c).value < 16
  {
  }

  /** A field of hexadecimal digits, two to a byte. */
  function ParseHex(s: string): (r: Option<seq<Byte>>)
    ensures r.Some? ==> 2 * |r.value| == |s|
    decreases |s|
  {
    if s == "" then Some([])
    else if |s| == 1 then None
    else
      var h, l, rest := HexVal(s[0]), HexVal(s[1]), ParseHex(s[2..]);
      HexValSmall(s[0]);
      HexValSmall(s[1]);
      if h.None? || l.None? || rest.None? then None else Some([16 * h.value + l.value] + rest.value)
  }

  predicate IsUuid128(s: string) {
    |s| == 36 && s[8] == s[13] == s[18] == s[23] == '-'
  }

  function Get32(b: seq<Byte>): (w: nat)
    requires |b| == 4
    ensures w < 0x1_0000_0000
  {
    Get16(b[..2]) + 0x1_0000 * (Get16(b[2..]) as int)
  }

  function NoPrefix(s: string): string {
    if |s| in {6, 10} && s[0] == '0' && s[1] in {'x', 'X'} then s[2..] else s
  }

  /** bt_string_to_uuid on strings of hexadecimal digits; anything else gives no UUID here. */
  function FromString(s: string): (r: Option<Uuid>)
    ensures r.Some? ==> r.value.Valid()
  {
    if IsUuid128(s) then
      var r := ParseHex(s[..8] + s[9..13] + s[14..18] + s[19..23] + s[24..]);
      if r.None? then None else Some(Uuid128(Reverse(r.value)))
    else
      var r := ParseHex(NoPrefix(s));
      if r.None? then None
      else if |s| in {8, 10} && |r.value| == 4 then Some(Uuid32(Get32(Reverse(r.value))))
      else if |s| in {4, 6} && |r.value| == 2 then Some(Uuid16(Get16(Reverse(r.value))))
      else None
  }

  lemma HexValOfHex(d: nat)
    requires d < 16
    ensures HexVal(HEX[d]) == Some(d)
  {
  }

  lemma ParseOneByte(b: Byte, rest: string)
    ensures ParseHex(HexByte(b) + rest) == if ParseHex(rest).None? then None else Some([b] + ParseHex(rest).value)
  {
    hide HexVal;
    HexValOfHex(b / 16);
    HexValOfHex(b % 16);
    var s := HexByte(b) + rest;
    assert s[0] == HEX[b / 16] && s[1] == HEX[b % 16] && s[2..] == rest;
  }

  lemma {:induction false} ParseOfHex(bs: seq<Byte>)
    ensures ParseHex(Hex(bs)) == Some(bs)
  {
    if bs == [] {
      assert ParseHex("") == Some([]);
      assert Hex(bs) == "";
    } else {
      ParseOfHex(bs[1..]);
      ParseOneByte(bs[0], Hex(bs[1..]));
      hide ParseHex, HexByte;
      assert Hex(bs) == HexByte(bs[0]) + Hex(bs[1..]);
      assert [bs[0]] + bs[1..] == bs;
    }
  }

  lemma HexFirst(bs: seq<Byte>)
    requires bs != []
    ensures Hex(bs) == HexByte(bs[0]) + Hex(bs[1..])
  {
  }

  lemma {:induction false} HexConcat(a: seq<Byte>, b: seq<Byte>)
    ensures Hex(a + b) == Hex(a) + Hex(b)
  {
    hide HexByte;
    if a == [] {
      assert a + b == b;
    } else {
      hide Hex;
      HexConcat(a[1..], b);
      assert (a + b)[0] == a[0] && (a + b)[1..] == a[1..] + b;
      HexFirst(a);
      HexFirst(a + b);
    }
  }

  lemma ReverseTwice(bs: seq<Byte>)
    ensures Reverse(Reverse(bs)) == bs
  {
  }

  lemma Get32OfPut32(w: nat)
    requires w < 0x1_0000_0000
    ensures Get32(Put32(w)) == w
  {
    Get16OfPut16(w % 0x1_0000, []);
    Get16OfPut16(w / 0x1_0000, []);
    assert Put32(w)[..2] == Put16(w % 0x1_0000) + [] && Put32(w)[2..] == Put16(w / 0x1_0000) + [];
  }

  /** The five dashed groups of a 128-bit UUID hold its bytes. */
  lemma Dashed(n: seq<Byte>)
    requires |n| == 16
    ensures var s := Hex(n[..4]) + "-" + Hex(n[4..6]) + "-" + Hex(n[6..8]) + "-" + Hex(n[8..10]) + "-" + Hex(n[10..]);
      IsUuid128(s) && s[..8] + s[9..13] + s[14..18] + s[19..23] + s[24..] == Hex(n)
  {
    hide Hex;
    HexConcat(n[..4], n[4..6]);
    HexConcat(n[..6], n[6..8]);
    HexConcat(n[..8], n[8..10]);
    HexConcat(n[..10], n[10..]);
    assert n[..6] == n[..4] + n[4..6] && n[..8] == n[..6] + n[6..8] && n[..10] == n[..8] + n[8..10]
      && n == n[..10] + n[10..];
    var a, b, c, d, e := Hex(n[..4]), Hex(n[4..6]), Hex(n[6..8]), Hex(n[8..10]), Hex(n[10..]);
    assert Hex(n) == a + b + c + d + e;
    var s := a + "-" + b + "-" + c + "-" + d + "-" + e;
    assert s[..8] == a && s[9..13] == b && s[14..18] == c && s[19..23] == d && s[24..] == e;
  }

  /** Parsing a printed UUID gives it back. */
  lemma StringRoundTrip(u: Uuid)
    requires u.Valid()
    ensures FromString(ToString(u)) == Some(u)
  {
    hide Hex, ParseHex;
    match u {
      case Uuid16(v) =>
        ParseOfHex(Reverse(Put16(v)));
        ReverseTwice(Put16(v));
        Get16OfPut16(v, []);
        assert Put16(v) + [] == Put16(v);
      case Uuid32(w) =>
        ParseOfHex(Reverse(Put32(w)));
        ReverseTwice(Put32(w));
        Get32OfPut32(w);
      case Uuid128(data) =>
        Dashed(Reverse(data));
        ParseOfHex(Reverse(data));
        ReverseTwice(data);
    }
  }

  /** A prefix on a short UUID changes nothing. */
  lemma PrefixIgnored(u: Uuid)
    requires u.Valid() && !u.Uuid128?
    ensures FromString("0x" + ToString(u)) == Some(u) && FromString("0X" + ToString(u)) == Some(u)
  {
    hide Hex, ParseHex;
    StringRoundTrip(u);
    var s := ToString(u);
    assert ("0x" + s)[2..] == s && ("0X" + s)[2..] == s;
  }

  // ----- what is printed is the number -----

  predicate IsDigit(c: char) {
    '0' <= c <= '9' || 'a' <= c <= 'f' || 'A' <= c <= 'F'
  }

  predicate Digits(s: string) {
    forall i :: 0 <= i < |s| ==> IsDigit(s[i])
  }

  function LowerChar(c: char): char {
    if 'A' <= c <= 'F' then (c as nat + 32) as char else c
  }

  /** Hexadecimal digits in lower case. */
  function Lower(s: string): (t: string)
    ensures |t| == |s| && forall i :: 0 <= i < |s| ==> t[i] == LowerChar(s[i])
  {
    seq(|s|, i requires 0 <= i < |s| => LowerChar(s[i]))
  }

  lemma DigitParsed(c: char)
    ensures HexVal(c).Some? <==> IsDigit(c)
    ensures IsDigit(c) ==> HexVal(c).value < 16 && HEX[HexVal(c).value] == LowerChar(c)
  {
  }

  lemma DigitsFirst(s: string)
    requires |s| > 1
    ensures Digits(s) <==> IsDigit(s[0]) && IsDigit(s[1]) && Digits(s[2..])
    ensures Lower(s) == [LowerChar(s[0]), LowerChar(s[1])] + Lower(s[2..])
  {
    hide IsDigit, LowerChar;
    assert forall i :: 2 <= i < |s| ==> s[i] == s[2..][i - 2];
  }

  lemma ParseFirst(s: string)
    requires |s| > 1
    ensures var h, l, rest := HexVal(s[0]), HexVal(s[1]), ParseHex(s[2..]);
      && (ParseHex(s).Some? <==> h.Some? && l.Some? && rest.Some?)
      && (ParseHex(s).Some? ==>
           h.value < 16 && l.value < 16 && ParseHex(s).value == [16 * h.value + l.value] + rest.value)
  {
    hide HexVal;
    HexValSmall(s[0]);
    HexValSmall(s[1]);
  }

  lemma ByteOfDigits(c: char, d: char)
    requires HexVal(c).Some? && HexVal(d).Some?
    ensures var n := 16 * HexVal(c).value + HexVal(d).value; n < 256 && HexByte(n) == [LowerChar(c), LowerChar(d)]
  {
    DigitParsed(c);
    DigitParsed(d);
    hide HexVal, IsDigit, LowerChar, HEX;
  }

  /** The first byte prints as the first two digits. */
  lemma FirstPrints(s: string)
    requires |s| > 1 && ParseHex(s).Some?
    ensures ParseHex(s).value != [] && ParseHex(s[2..]) == Some(ParseHex(s).value[1..])
    ensures HexByte(ParseHex(s).value[0]) == [LowerChar(s[0]), LowerChar(s[1])]
  {
    hide HexVal, HexByte, LowerChar, HEX;
    ByteOfDigits(s[0], s[1]);
  }

  /** Fields that parse are digits. */
  lemma {:induction false} FieldDigits(s: string)
    ensures ParseHex(s).Some? <==> |s| % 2 == 0 && Digits(s)
    decreases |s|
  {
    if |s| > 1 {
      hide ParseHex, HexVal, IsDigit, Digits;
      FieldDigits(s[2..]);
      ParseFirst(s);
      DigitParsed(s[0]);
      DigitParsed(s[1]);
      DigitsFirst(s);
      assert |s[2..]| == |s| - 2;
    }
  }

  /** They print as their digits in lower case. */
  lemma {:induction false} FieldPrints(s: string)
    requires ParseHex(s).Some?
    ensures Hex(ParseHex(s).value) == Lower(s)
    decreases |s|
  {
    if |s| > 1 {
      FirstPrints(s);
      DigitsFirst(s);
      hide ParseHex, Hex, HexByte, LowerChar, Lower;
      FieldPrints(s[2..]);
      HexFirst(ParseHex(s).value);
    } else {
      assert Hex([]) == "" == Lower(s);
    }
  }

  lemma PutBack(b: seq<Byte>)
    requires |b| == 2
    ensures Put16(Get16(b)) == b
  {
  }

  lemma PutBack32(b: seq<Byte>)
    requires |b| == 4
    ensures Put32(Get32(b)) == b
  {
    var lo, hi := Get16(b[..2]), Get16(b[2..]);
    assert Get32(b) % 0x1_0000 == lo && Get32(b) / 0x1_0000 == hi;
    hide Get32, Get16, Put16;
    PutBack(b[..2]);
    PutBack(b[2..]);
    assert b == b[..2] + b[2..];
  }

  /** The digits of the five dashed groups. */
  function DigitsOf(s: string): string
    requires |s| == 36
  {
    s[..8] + s[9..13] + s[14..18] + s[19..23] + s[24..]
  }

  lemma GroupsDecide(s: string, t: string)
    requires IsUuid128(s) && IsUuid128(t) && DigitsOf(t) == Lower(DigitsOf(s))
    ensures t == Lower(s)
  {
    var p, q := DigitsOf(s), DigitsOf(t);
    forall i | 0 <= i < 36
      ensures t[i] == LowerChar(s[i])
    {
      var j := i - (if i < 8 then 0 else if i < 13 then 1 else if i < 18 then 2 else if i < 23 then 3 else 4);
      assert i !in {8, 13, 18, 23} ==> s[i] == p[j] && t[i] == q[j];
    }
  }

  /**
   Which strings parse: four or eight digits with or without a prefix, or the five dashed groups. What they parse to
   prints as they are, without the prefix and in lower case.
   */
  lemma ParsesExactly(s: string)
    ensures FromString(s).Some? <==>
      if IsUuid128(s) then Digits(DigitsOf(s)) else |NoPrefix(s)| in {4, 8} && Digits(NoPrefix(s))
    ensures FromString(s).Some? ==> ToString(FromString(s).value) == Lower(NoPrefix(s))
  {
    hide Hex, ParseHex, Digits;
    if IsUuid128(s) {
      FieldDigits(DigitsOf(s));
      if FromString(s).Some? {
        FieldPrints(DigitsOf(s));
        var n := ParseHex(DigitsOf(s)).value;
        ReverseTwice(n);
        Dashed(n);
        GroupsDecide(s, ToString(FromString(s).value));
      }
    } else {
      FieldDigits(NoPrefix(s));
      if FromString(s).Some? {
        FieldPrints(NoPrefix(s));
        var b := ParseHex(NoPrefix(s)).value;
        ReverseTwice(b);
        if |b| == 2 {
          PutBack(Reverse(b));
        } else {
          PutBack32(Reverse(b));
        }
      }
    }
  }

  function DigitOf(c: char): nat {
    if '0' <= c <= '9' then c as nat - '0' as nat
    else if 'a' <= c <= 'f' then c as nat - 'a' as nat + 10
    else 0
  }

  /** The number that hexadecimal digits spell; dashes are skipped. */
  function Number(s: string): nat {
    if s == "" then 0
    else
      var n, last := Number(s[..|s| - 1]), s[|s| - 1];
      if last == '-' then n else 16 * n + DigitOf(last)
  }

  lemma NumberSnoc(s: string, c: char)
    ensures Number(s + [c]) == if c == '-' then Number(s) else 16 * Number(s) + DigitOf(c)
  {
    assert (s + [c])[..|s|] == s;
  }

  lemma DigitOfHex(d: nat)
    requires d < 16
    ensures DigitOf(HEX[d]) == d && HEX[d] != '-'
  {
  }

  lemma HexLast(bs: seq<Byte>)
    requires bs != []
    ensures Hex(bs) == Hex(bs[..|bs| - 1]) + HexByte(bs[|bs| - 1])
  {
    hide HexByte, Hex;
    var b := bs[|bs| - 1];
    assert bs == bs[..|bs| - 1] + [b];
    HexConcat(bs[..|bs| - 1], [b]);
    HexFirst([b]);
    assert Hex([b][1..]) == "";
  }

  /** Bytes printed in order spell the number that has them most significant first. */
  lemma {:induction false} HexNumber(bs: seq<Byte>)
    ensures Number(Hex(bs)) == BigEndian(bs)
  {
    if bs != [] {
      hide Hex, Number, DigitOf;
      var front, b := bs[..|bs| - 1], bs[|bs| - 1];
      HexNumber(front);
      HexLast(bs);
      var h, l := HEX[b / 16], HEX[b % 16];
      assert Hex(front) + HexByte(b) == (Hex(front) + [h]) + [l];
      DigitOfHex(b / 16);
      DigitOfHex(b % 16);
      NumberSnoc(Hex(front), h);
      NumberSnoc(Hex(front) + [h], l);
    }
  }

  lemma {:induction false} ReversedNumber(bs: seq<Byte>)
    ensures BigEndian(Reverse(bs)) == LittleEndian(bs)
  {
    if bs != [] {
      ReversedNumber(bs[1..]);
      var r := Reverse(bs[1..]) + [bs[0]];
      assert r[..|r| - 1] == Reverse(bs[1..]);
    }
  }

  lemma {:induction false} SkipDash(p: string, q: string)
    ensures Number(p + "-" + q) == Number(p + q)
  {
    if q == "" {
      assert p + "-" + q == p + ['-'] && p + q == p;
      NumberSnoc(p, '-');
    } else {
      var front, c := q[..|q| - 1], q[|q| - 1];
      SkipDash(p, front);
      assert p + "-" + q == (p + "-" + front) + [c] && p + q == (p + front) + [c];
      NumberSnoc(p + "-" + front, c);
      NumberSnoc(p + front, c);
    }
  }

  lemma DashedNumber(n: seq<Byte>)
    requires |n| == 16
    ensures var s := Hex(n[..4]) + "-" + Hex(n[4..6]) + "-" + Hex(n[6..8]) + "-" + Hex(n[8..10]) + "-" + Hex(n[10..]);
      Number(s) == BigEndian(n)
  {
    hide Hex, Number;
    var a, b, c, d, e := Hex(n[..4]), Hex(n[4..6]), Hex(n[6..8]), Hex(n[8..10]), Hex(n[10..]);
    var s := a + "-" + b + "-" + c + "-" + d + "-" + e;
    Dashed(n);
    assert s == a + "-" + (b + "-" + c + "-" + d + "-" + e);
    SkipDash(a, b + "-" + c + "-" + d + "-" + e);
    assert a + (b + "-" + c + "-" + d + "-" + e) == (a + b) + "-" + (c + "-" + d + "-" + e);
    SkipDash(a + b, c + "-" + d + "-" + e);
    assert (a + b) + (c + "-" + d + "-" + e) == (a + b + c) + "-" + (d + "-" + e);
    SkipDash(a + b + c, d + "-" + e);
    assert (a + b + c) + (d + "-" + e) == (a + b + c + d) + "-" + e;
    SkipDash(a + b + c + d, e);
    assert a + b + c + d + e == Hex(n) by {
      assert s[..8] == a && s[9..13] == b && s[14..18] == c && s[19..23] == d && s[24..] == e;
    }
    HexNumber(n);
  }

  lemma Put32Number(w: nat)
    requires w < 0x1_0000_0000
    ensures LittleEndian(Put32(w)) == w
  {
    var b, lo, hi := Put32(w), w % 0x1_0000, w / 0x1_0000;
    assert b[1..][1..] == b[2..] == Put16(hi);
    LeastFirst(lo, []);
    LeastFirst(hi, []);
    TwoBytes(Put16(lo));
    assert LittleEndian(b) == b[0] as nat + 256 * LittleEndian(b[1..]);
    assert LittleEndian(b[1..]) == b[1] as nat + 256 * LittleEndian(b[1..][1..]);
  }

  /**
   A printed UUID spells its number: four digits for 16 bits, eight for 32, and for 128 bits the value with its
   last byte first, in groups of 8, 4, 4, 4 and 12 digits.
   */
  lemma PrintsNumber(u: Uuid)
    requires u.Valid()
    ensures var s := ToString(u);
      match u
      case Uuid16(v) => |s| == 4 && Number(s) == v
      case Uuid32(w) => |s| == 8 && Number(s) == w
      case Uuid128(data) => IsUuid128(s) && Number(s) == LittleEndian(data)
  {
    hide Hex, Number;
    match u {
      case Uuid16(v) =>
        HexNumber(Reverse(Put16(v)));
        ReversedNumber(Put16(v));
        LeastFirst(v, []);
      case Uuid32(w) =>
        HexNumber(Reverse(Put32(w)));
        ReversedNumber(Put32(w));
        Put32Number(w);
      case Uuid128(data) =>
        Dashed(Reverse(data));
        DashedNumber(Reverse(data));
        ReversedNumber(data);
    }
  }

  lemma TwoPrinted(a: Byte, b: Byte)
    ensures Hex([a, b]) == HexByte(a) + HexByte(b)
  {
    assert [a, b][1..] == [b] && [b][1..] == [];
    assert Hex([b]) == HexByte(b) + Hex([]);
  }

  lemma BasePrinted()
    ensures Hex([0x00, 0x00]) == "0000" && Hex([0x10, 0x00]) == "1000" && Hex([0x80, 0x00]) == "8000"
    ensures Hex([0x00, 0x80, 0x5F, 0x9B, 0x34, 0xFB]) == "00805f9b34fb"
  {
    hide Hex;
    TwoPrinted(0x00, 0x00);
    TwoPrinted(0x10, 0x00);
    TwoPrinted(0x80, 0x00);
    TwoPrinted(0x00, 0x80);
    TwoPrinted(0x5F, 0x9B);
    TwoPrinted(0x34, 0xFB);
    HexConcat([0x00, 0x80], [0x5F, 0x9B]);
    HexConcat([0x00, 0x80, 0x5F, 0x9B], [0x34, 0xFB]);
    assert [0x00, 0x80] + [0x5F, 0x9B] == [0x00, 0x80, 0x5F, 0x9B];
    assert [0x00, 0x80, 0x5F, 0x9B] + [0x34, 0xFB] == [0x00, 0x80, 0x5F, 0x9B, 0x34, 0xFB];
  }

  lemma LowBytes()
    ensures BASE[..BASE_UUID16_OFFSET] == [0xFB, 0x34, 0x9B, 0x5F, 0x80, 0x00, 0x00, 0x80, 0x00, 0x10, 0x00, 0x00]
  {
  }

  lemma ReverseConcat(a: seq<Byte>, b: seq<Byte>)
    ensures Reverse(a + b) == Reverse(b) + Reverse(a)
  {
  }

  lemma LowReversed(low: seq<Byte>)
    requires low == [0xFB, 0x34, 0x9B, 0x5F, 0x80, 0x00, 0x00, 0x80, 0x00, 0x10, 0x00, 0x00]
    ensures var z := Reverse(low);
      && z[..2] == [0x00, 0x00] && z[2..4] == [0x10, 0x00] && z[4..6] == [0x80, 0x00]
      && z[6..] == [0x00, 0x80, 0x5F, 0x9B, 0x34, 0xFB]
  {
  }

  lemma SlicedBehind(a: seq<Byte>, z: seq<Byte>)
    requires |a| == 4 && |z| == 12
    ensures var n := a + z;
      n[..4] == a && n[4..6] == z[..2] && n[6..8] == z[2..4] && n[8..10] == z[4..6] && n[10..] == z[6..]
  {
  }

  lemma BaseReversed(top: seq<Byte>)
    requires |top| == 4
    ensures var n := Reverse(BASE[..BASE_UUID16_OFFSET] + top);
      && n[..4] == Reverse(top) && n[4..6] == [0x00, 0x00] && n[6..8] == [0x10, 0x00] && n[8..10] == [0x80, 0x00]
      && n[10..] == [0x00, 0x80, 0x5F, 0x9B, 0x34, 0xFB]
  {
    var low := BASE[..BASE_UUID16_OFFSET];
    LowBytes();
    hide BASE;
    ReverseConcat(low, top);
    LowReversed(low);
    SlicedBehind(Reverse(top), Reverse(low));
    hide Reverse;
  }

  lemma OverBase(s: string)
    ensures s + "-" + "0000" + "-" + "1000" + "-" + "8000" + "-" + "00805f9b34fb" == s + "-0000-1000-8000-00805f9b34fb"
  {
    var a, b := s + "-" + "0000" + "-" + "1000", "-" + "8000" + "-" + "00805f9b34fb";
    assert a == s + "-0000-1000";
    assert b == "-8000-00805f9b34fb";
    assert a + b == s + "-0000-1000-8000-00805f9b34fb";
    assert a + "-" + "8000" + "-" + "00805f9b34fb" == a + b;
  }

  lemma PrintedTop(w: nat)
    requires w < 0x1_0000_0000
    ensures ToString(Uuid128(BASE[..BASE_UUID16_OFFSET] + Put32(w)))
      == Hex(Reverse(Put32(w))) + "-0000-1000-8000-00805f9b34fb"
  {
    var top := Reverse(Put32(w));
    var n := Reverse(BASE[..BASE_UUID16_OFFSET] + Put32(w));
    BaseReversed(Put32(w));
    hide Hex, Reverse, Put32, BASE;
    BasePrinted();
    OverBase(Hex(top));
  }

  /** A short UUID in 128 bits is printed over the base UUID of the Bluetooth standard. */
  lemma PrintedOverBase(u: Uuid)
    requires u.Valid() && !u.Uuid128?
    ensures ToString(To128(u)) ==
      (if u.Uuid16? then "0000" else "") + ToString(u) + "-0000-1000-8000-00805f9b34fb"
  {
    hide Hex, BASE;
    WidenShort(u);
    PrintedTop(Short(u));
    if u.Uuid16? {
      assert Reverse(Put32(Short(u))) == [0x00, 0x00] + Reverse(Put16(u.v));
      HexConcat([0x00, 0x00], Reverse(Put16(u.v)));
      BasePrinted();
    }
  }
}

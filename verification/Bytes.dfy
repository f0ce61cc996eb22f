/** Bytes, little-endian words, and byte strings made of equal pieces. */
module Bytes {
  import opened Basics

  type Byte = x: int | 0 <= x < 256
  type U16 = x: int | 0 <= x < 0x1_0000

  /** The number that bytes stand for, least significant first. */
  function LittleEndian(b: seq<Byte>): nat {
    if b == [] then 0 else b[0] as nat + 256 * LittleEndian(b[1..])
  }

  /** The number that bytes stand for, most significant first. */
  function BigEndian(b: seq<Byte>): nat {
    if b == [] then 0 else 256 * BigEndian(b[..|b| - 1]) + b[|b| - 1] as nat
  }

  function Put16(v: U16): (b: seq<Byte>)
    ensures |b| == 2
  {
    [v % 256, v / 256]
  }

  function Get16(b: seq<Byte>): U16
    requires |b| >= 2
  {
    b[0] as int + 256 * (b[1] as int)
  }

  lemma Get16OfPut16(v: U16, rest: seq<Byte>)
    ensures Get16(Put16(v) + rest) == v
  {
  }

  /** Bit i of a byte, counted from the least significant. */
  predicate Bit(b: Byte, i: nat)
    requires i < 8
  {
    (b / [1, 2, 4, 8, 16, 32, 64, 128][i]) % 2 == 1
  }

  lemma TwoBytes(b: seq<Byte>)
    requires |b| == 2
    ensures LittleEndian(b) == b[0] as nat + 256 * (b[1] as nat)
    ensures BigEndian(b) == 256 * (b[0] as nat) + b[1] as nat
  {
    assert b[1..] == [b[1]] && [b[1]][1..] == [];
    assert LittleEndian([b[1]]) == b[1] as nat + 256 * LittleEndian([]);
    assert b[..1] == [b[0]] && [b[0]][..0] == [];
    assert BigEndian([b[0]]) == 256 * BigEndian([]) + b[0] as nat;
  }

  /** Words are sent least significant byte first. */
  lemma LeastFirst(v: U16, b: seq<Byte>)
    ensures LittleEndian(Put16(v)) == v
    ensures |b| >= 2 ==> Get16(b) == LittleEndian(b[..2])
  {
    TwoBytes(Put16(v));
    if |b| >= 2 {
      TwoBytes(b[..2]);
    }
  }

  /** All the pieces, one after the other. */
  function Flat(es: seq<seq<Byte>>): seq<Byte> {
    if es == [] then [] else es[0] + Flat(es[1..])
  }

  /** As many whole pieces of `k` bytes as there are. */
  function Pieces(b: seq<Byte>, k: nat): (r: seq<seq<Byte>>)
    ensures forall e :: e in r ==> |e| == k
    decreases |b|
  {
    if k == 0 || |b| < k then [] else [b[..k]] + Pieces(b[k..], k)
  }

  /** The leading elements that fit into `room` bytes at `k` bytes each. */
  function Fitting<T>(es: seq<T>, room: nat, k: nat): (r: seq<T>)
    ensures r <= es
    decreases |es|
  {
    if es == [] || room < k then [] else [es[0]] + Fitting(es[1..], room - k, k)
  }

  ghost predicate AllLen(es: seq<seq<Byte>>, k: nat) {
    forall e :: e in es ==> |e| == k
  }

  lemma {:induction false} PiecesOfFlat(es: seq<seq<Byte>>, k: nat)
    requires k > 0 && AllLen(es, k)
    ensures Pieces(Flat(es), k) == es
  {
    if es == [] {
    } else {
      assert es[0] in es;
      PiecesOfFlat(es[1..], k);
      var b := Flat(es);
      assert b[..k] == es[0] && b[k..] == Flat(es[1..]);
    }
  }

  lemma DivStep(n: nat, k: nat)
    requires 0 < k <= n
    ensures (n - k) / k == n / k - 1
  {
    var q, r := n / k, n % k;
    assert n == k * q + r;
    assert n - k == k * (q - 1) + r;
    DivModUnique(n - k, k, q - 1, r);
  }

  lemma {:induction false} PiecesCount(b: seq<Byte>, k: nat)
    requires k > 0
    ensures |Pieces(b, k)| == |b| / k
    decreases |b|
  {
    if |b| < k {
      DivModUnique(|b|, k, 0, |b|);
    } else {
      PiecesCount(b[k..], k);
      DivStep(|b|, k);
    }
  }

  /** How many of `count` elements of k bytes fit into the room. */
  function Fit(count: nat, room: nat, k: nat): (n: nat)
    requires k > 0
    ensures n <= count
  {
    Min(count, room / k)
  }

  /** What fits is a prefix, cut where the room or the elements run out. */
  lemma {:induction false} FittingIs<T>(es: seq<T>, room: nat, k: nat)
    requires k > 0
    ensures Fitting(es, room, k) == es[..Fit(|es|, room, k)]
    decreases |es|
  {
    if es == [] {
    } else if room < k {
      DivModUnique(room, k, 0, room);
    } else {
      FittingIs(es[1..], room - k, k);
      DivStep(room, k);
      var n := Fit(|es|, room, k);
      assert es[..n] == [es[0]] + es[1..][..n - 1];
    }
  }
}

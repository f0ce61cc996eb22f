/** The bloom filter's bit array: bytes, set and tested one bit at a time. */
module Bloom {
  import opened Bits

  function BitMask(i: nat): (m: bv8)
    requires i < 8
    ensures m as nat == [1, 2, 4, 8, 16, 32, 64, 128][i]
  {
    if i == 0 then 1 else if i == 1 then 2 else if i == 2 then 4 else if i == 3 then 8
    else if i == 4 then 16 else if i == 5 then 32 else if i == 6 then 64 else 128
  }

  /** Bytes that hold 2^nbits bits. */
  function ByteLen(nbits: nat): (n: nat)
    ensures 8 * (n - 1) < Pow2(nbits) <= 8 * n
  {
    Pow2(nbits) / 8 + if Pow2(nbits) % 8 != 0 then 1 else 0
  }

  predicate BitTest(bv: array<bv8>, idx: nat)
    requires idx / 8 < bv.Length
    reads bv
  {
    bv[idx / 8] & BitMask(idx % 8) != 0
  }

  lemma OrSetsOnly(b: bv8, i: nat, j: nat)
    requires i < 8 && j < 8
    ensures ((b | BitMask(i)) & BitMask(j) != 0) == (i == j || b & BitMask(j) != 0)
  {
  }

  /** Set one bit; every other bit keeps its value. */
  method BitSet(bv: array<bv8>, idx: nat)
    requires idx / 8 < bv.Length
    modifies bv
    ensures forall j: nat {:trigger BitTest(bv, j)} :: j / 8 < bv.Length ==>
      BitTest(bv, j) == (j == idx || old(BitTest(bv, j)))
  {
    bv[idx / 8] := bv[idx / 8] | BitMask(idx % 8);
    forall j: nat | j / 8 < bv.Length
      ensures BitTest(bv, j) == (j == idx || old(BitTest(bv, j)))
    {
      if j / 8 == idx / 8 {
        OrSetsOnly(old(bv[idx / 8]), idx % 8, j % 8);
      }
    }
  }
}

/** Optional values, the range of 32-bit numbers, the smaller of two numbers, division, and concatenation. */
module Basics {

  datatype Option<+T> = None | Some(value: T)

  const UINT_RANGE: nat := 0x1_0000_0000

  function Min(a: nat, b: nat): (m: nat)
    ensures m <= a && m <= b
  {
    if a <= b then a else b
  }

  lemma Assoc<T>(a: seq<T>, b: seq<T>, c: seq<T>)
    ensures (a + b) + c == a + (b + c)
  {
  }

  lemma MulLe(m: nat, x: nat, y: nat)
    requires x <= y
    ensures m * x <= m * y
  {
  }

  lemma DivModUnique(a: nat, m: nat, q: nat, r: nat)
    requires m >= 1 && r < m && a == m * q + r
    ensures a / m == q && a % m == r
  {
    var q', r' := a / m, a % m;
    assert a == m * q' + r';
    if q' > q {
      MulLe(m, q + 1, q');
    } else if q' < q {
      MulLe(m, q' + 1, q);
    }
  }
}

/** Integer division facts shared by the timeline, the groups and the pacing. */
module Arith {

  const TWO32 := 0x1_0000_0000
  const TWO64 := 0x1_0000_0000_0000_0000

  /** The value an unsigned 32-bit register holds. */
  function U32(x: int): (r: nat)
    ensures 0 <= r < TWO32
    ensures 0 <= x < TWO32 ==> r == x
  {
    if 0 <= x < TWO32 then x else x % 0x1_0000_0000
  }

  /** The value an unsigned 64-bit register holds. */
  function U64(x: int): (r: nat)
    ensures 0 <= r < TWO64
    ensures 0 <= x < TWO64 ==> r == x
  {
    if 0 <= x < TWO64 then x else x % 0x1_0000_0000_0000_0000
  }

  function Min(a: nat, b: nat): nat {
    if a <= b then a else b
  }

  /** Division rounded up, in the quotient-then-adjust form the source uses. */
  function CeilDiv(a: nat, d: nat): nat
    requires 0 < d
  {
    if a % d == 0 then a / d else a / d + 1
  }

  lemma MulMono(a: int, b: int, d: int)
    requires a <= b
    requires 0 <= d
    ensures a * d <= b * d
  {
    assert (b - a) * d >= 0;
  }

  lemma Distribute(a: int, b: int, d: int)
    ensures (a + b) * d == a * d + b * d
  {
  }

  lemma DivSplit(a: int, d: int)
    requires 0 < d
    ensures a == (a / d) * d + a % d
    ensures 0 <= a % d < d
  {
  }

  /** Floor division is the right adjoint of multiplication. */
  lemma FloorGalois(a: int, d: int, m: int)
    requires 0 < d
    ensures m <= a / d <==> m * d <= a
  {
    DivSplit(a, d);
    if m <= a / d {
      MulMono(m, a / d, d);
    } else {
      MulMono(a / d + 1, m, d);
      assert (a / d + 1) * d == (a / d) * d + d;
    }
  }

  /** Rounded-up division is the left adjoint of multiplication. */
  lemma CeilGalois(a: nat, d: nat, m: int)
    requires 0 < d
    ensures CeilDiv(a, d) <= m <==> a <= m * d
  {
    DivSplit(a, d);
    FloorGalois(a, d, m);
    FloorGalois(a, d, m + 1);
    assert (m + 1) * d == m * d + d;
    if a % d == 0 {
      if a / d <= m { MulMono(a / d, m, d); } else { MulMono(m + 1, a / d, d); }
    } else {
      if a / d + 1 <= m { MulMono(a / d + 1, m, d); assert (a / d + 1) * d == (a / d) * d + d; }
      else { MulMono(m, a / d, d); }
    }
  }

  lemma CeilBounds(a: nat, d: nat)
    requires 0 < d
    ensures a <= CeilDiv(a, d) * d < a + d
  {
    DivSplit(a, d);
    assert (a / d + 1) * d == (a / d) * d + d;
  }

  /** A quotient with an in-range remainder is the quotient. */
  lemma DivUnique(a: int, d: int, q: int)
    requires 0 < d
    requires q * d <= a < q * d + d
    ensures a / d == q
    ensures a % d == a - q * d
  {
    FloorGalois(a, d, q);
    FloorGalois(a, d, q + 1);
    assert (q + 1) * d == q * d + d;
    DivSplit(a, d);
  }

  lemma CeilUnique(a: nat, d: nat, q: nat)
    requires 0 < d
    requires a <= q * d < a + d
    ensures CeilDiv(a, d) == q
  {
    CeilGalois(a, d, q);
    CeilGalois(a, d, q - 1);
    assert (q - 1) * d == q * d - d;
  }

  lemma CeilMono(a: nat, b: nat, d: nat)
    requires 0 < d
    requires a <= b
    ensures CeilDiv(a, d) <= CeilDiv(b, d)
  {
    CeilBounds(b, d);
    CeilGalois(a, d, CeilDiv(b, d));
  }

  lemma FloorMono(a: int, b: int, d: int)
    requires 0 < d
    requires a <= b
    ensures a / d <= b / d
  {
    DivSplit(a, d);
    FloorGalois(b, d, a / d);
  }

  /** Adding a whole multiple of the divisor moves both roundings by exactly that much. */
  lemma ShiftByMultiple(a: nat, d: nat, j: nat)
    requires 0 < d
    requires 0 <= j * d
    ensures (a + j * d) / d == a / d + j
    ensures CeilDiv(a + j * d, d) == CeilDiv(a, d) + j
  {
    DivSplit(a, d);
    assert (a / d + j) * d == (a / d) * d + j * d;
    DivUnique(a + j * d, d, a / d + j);
  }

  /** Advancing by x rounds to floor(x/d) or ceil(x/d) whole steps. */
  lemma CeilStep(a: nat, x: nat, d: nat)
    requires 0 < d
    ensures x / d <= CeilDiv(a + x, d) - CeilDiv(a, d) <= CeilDiv(x, d)
  {
    var c := CeilDiv(a, d);
    CeilBounds(a, d);
    CeilBounds(x, d);
    DivSplit(x, d);
    assert (c + CeilDiv(x, d)) * d == c * d + CeilDiv(x, d) * d;
    CeilGalois(a + x, d, c + CeilDiv(x, d));
    assert (c + x / d - 1) * d == c * d + (x / d) * d - d;
    CeilGalois(a + x, d, c + x / d - 1);
  }

  lemma MulPos(a: int, b: int)
    requires 0 < a && 0 < b
    ensures 0 < a * b
  {
  }

  lemma WrapSplit(x: int)
    ensures x == (x / TWO64) * TWO64 + U64(x)
  {
  }

  lemma WrapUnique(x: int, q: int, r: nat)
    requires x == q * TWO64 + r
    requires r < TWO64
    ensures U64(x) == r
  {
    DivUnique(x, TWO64, q);
  }

  lemma WrapSum(a: nat, b: nat)
    ensures U64(U64(a) + b) == U64(a + b)
  {
    WrapSplit(a);
    WrapSplit(U64(a) + b);
    var q := (U64(a) + b) / 0x1_0000_0000_0000_0000;
    WrapUnique(a + b, a / 0x1_0000_0000_0000_0000 + q, U64(U64(a) + b));
  }

  /** Nested 64-bit wrapping of a product is one wrap of the whole product. */
  lemma WrapProduct(a: nat, b: nat)
    ensures U64(U64(a) * b) == U64(a * b)
  {
    WrapSplit(a);
    var q := a / TWO64;
    assert a * b == U64(a) * b + (q * b) * TWO64 by {
      assert a == U64(a) + q * TWO64;
      assert (U64(a) + q * TWO64) * b == U64(a) * b + (q * TWO64) * b;
      assert (q * TWO64) * b == (q * b) * TWO64;
    }
    WrapSplit(U64(a) * b);
    var p := (U64(a) * b) / TWO64;
    assert (p + q * b) * TWO64 == p * TWO64 + (q * b) * TWO64;
    WrapUnique(a * b, p + q * b, U64(U64(a) * b));
  }
}

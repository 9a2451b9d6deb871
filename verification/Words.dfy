/**
 Fixed-width unsigned words as integer subset types, the two 32-bit halves of a
 64-bit word, and single bits. A bitwise operation is described by what it does
 to each bit, so no bit-vector arithmetic is needed anywhere in the project.
 */
module Words {
  const TWO32: int := 0x1_0000_0000
  const TWO64: int := 0x1_0000_0000_0000_0000

  type u8 = x: int | 0 <= x < 0x100
  type u16 = x: int | 0 <= x < 0x1_0000
  type u32 = x: int | 0 <= x < TWO32
  type u64 = x: int | 0 <= x < TWO64

  datatype Option<+T> = None | Some(value: T)

  function Lo(x: u64): u32 { x % TWO32 }

  function Hi(x: u64): u32 { x / TWO32 }

  /** Bit i of a natural number. */
  predicate Bit(x: nat, i: nat)
    decreases i
  {
    if i == 0 then x % 2 == 1 else Bit(x / 2, i - 1)
  }

  /** The C test (x & mask) != 0 on words of the given width. */
  predicate AndNonZero(x: nat, mask: nat, width: nat) {
    exists i: nat :: i < width && Bit(x, i) && Bit(mask, i)
  }

  /** The C complement ~x of a 64-bit word. */
  function Not64(x: u64): u64 { TWO64 - 1 - x }

  function Pow2(n: nat): (p: nat)
    ensures p > 0
  {
    if n == 0 then 1 else 2 * Pow2(n - 1)
  }

  lemma Pow2At32()
    ensures Pow2(32) == TWO32 && Pow2(64) == TWO64
  {
    assert Pow2(8) == 256;
    assert Pow2(16) == 65536;
    assert Pow2(24) == 0x100_0000;
    assert Pow2(32) == TWO32;
    assert Pow2(40) == 0x100 * TWO32;
    assert Pow2(48) == 0x1_0000 * TWO32;
    assert Pow2(56) == 0x100_0000 * TWO32;
  }

  function Quotient(x: nat, d: nat): nat
    requires d > 0
  {
    x / d
  }

  lemma {:induction false} BitOfQuotient(x: nat, n: nat, i: nat)
    ensures Bit(Quotient(x, Pow2(n)), i) == Bit(x, n + i)
    decreases n
  {
    if n > 0 {
      BitOfQuotient(x / 2, n - 1, i);
      DivTwice(x, Pow2(n - 1));
    }
  }

  lemma DivTwice(x: nat, p: nat)
    requires p > 0
    ensures Quotient(x, 2 * p) == Quotient(x / 2, p)
    ensures (x % (2 * p)) % 2 == x % 2 && (x % (2 * p)) / 2 == (x / 2) % p
  {
    var q, r := (x / 2) / p, (x / 2) % p;
    assert x == 2 * (q * p + r) + x % 2;
    assert x == q * (2 * p) + (2 * r + x % 2);
    QuotientUnique(x, 2 * p, q, 2 * r + x % 2);
  }

  lemma QuotientUnique(x: nat, d: nat, q: nat, r: nat)
    requires d > 0 && x == q * d + r && r < d
    ensures x / d == q && x % d == r
  {
    var k, e := x / d - q, r - x % d;
    assert k * d == e by {
      assert x == d * (x / d) + x % d;
    }
    if k != 0 {
      MultipleAtLeast(if k > 0 then k else -k, d);
    }
  }

  lemma MultipleAtLeast(k: int, d: nat)
    requires k >= 1
    ensures k * d >= d
  {
  }

  lemma {:induction false} BitOfRemainder(x: nat, n: nat, i: nat)
    requires i < n
    ensures Bit(x % Pow2(n), i) == Bit(x, i)
    decreases n
  {
    DivTwice(x, Pow2(n - 1));
    if i > 0 {
      BitOfRemainder(x / 2, n - 1, i - 1);
    }
  }

  lemma HalfComplement(x: nat, p: nat)
    requires x < 2 * p
    ensures (2 * p - 1 - x) / 2 == p - 1 - x / 2 && (2 * p - 1 - x) % 2 == 1 - x % 2
  {
  }

  lemma {:induction false} BitOfComplement(x: nat, n: nat, i: nat)
    requires i < n && x < Pow2(n)
    ensures Bit(Pow2(n) - 1 - x, i) == !Bit(x, i)
    decreases n
  {
    HalfComplement(x, Pow2(n - 1));
    if i > 0 {
      BitOfComplement(x / 2, n - 1, i - 1);
    }
  }

  /** ~x flips each of the 64 bits. */
  lemma Not64Bits(x: u64, i: nat)
    requires i < 64
    ensures Bit(Not64(x), i) == !Bit(x, i)
  {
    Pow2At32();
    BitOfComplement(x, 64, i);
  }

  lemma HalfBits(x: u64, i: nat)
    requires i < 32
    ensures Bit(Lo(x), i) == Bit(x, i) && Bit(Hi(x), i) == Bit(x, 32 + i)
  {
    Pow2At32();
    BitOfRemainder(x, 32, i);
    BitOfQuotient(x, 32, i);
  }

  /** A 64-bit AND is non-zero exactly when one of its 32-bit halves is. */
  lemma AndByHalves(x: u64, m: u64)
    ensures AndNonZero(x, m, 64) <==>
            AndNonZero(Hi(x), Hi(m), 32) || AndNonZero(Lo(x), Lo(m), 32)
  {
    forall i: nat | i < 32
      ensures Bit(Lo(x), i) == Bit(x, i) && Bit(Hi(x), i) == Bit(x, 32 + i)
      ensures Bit(Lo(m), i) == Bit(m, i) && Bit(Hi(m), i) == Bit(m, 32 + i)
    {
      HalfBits(x, i);
      HalfBits(m, i);
    }
    if AndNonZero(x, m, 64) {
      var i: nat :| i < 64 && Bit(x, i) && Bit(m, i);
      if i >= 32 {
        assert Bit(Hi(x), i - 32) && Bit(Hi(m), i - 32);
      }
    }
    if AndNonZero(Hi(x), Hi(m), 32) {
      var i: nat :| i < 32 && Bit(Hi(x), i) && Bit(Hi(m), i);
      assert Bit(x, 32 + i) && Bit(m, 32 + i);
    }
  }

  function Pow256(n: nat): (p: nat)
    ensures p > 0
  {
    if n == 0 then 1 else 256 * Pow256(n - 1)
  }

  lemma Sizes()
    ensures Pow256(1) == 0x100 && Pow256(2) == 0x1_0000 && Pow256(4) == TWO32 && Pow256(8) == TWO64
  {
    assert Pow256(3) == 0x100_0000;
    assert Pow256(5) == 0x100 * TWO32;
    assert Pow256(6) == 0x1_0000 * TWO32;
    assert Pow256(7) == 0x100_0000 * TWO32;
  }
}

/** Fixed-width words of the C++ program: 16-bit sequence numbers as residues of
    unwrapped integers, and the 64-bit ACK vector as its bits, least significant first. */
module Words {
  import opened Arithmetic

  type u16 = n: nat | n < 65536

  /** The 16 bits that are left of an unwrapped (possibly negative) sequence number. */
  function Wrap16(n: int): u16 {
    n % 65536
  }

  /** Two numbers less than 65536 apart differ in their lower 16 bits, unless they are equal. */
  lemma NearNumbersDiffer(u: int, v: int)
    requires -65536 < u - v < 65536
    ensures Wrap16(u) == Wrap16(v) <==> u == v
  {
  }

  type u32 = n: nat | n < 0x1_0000_0000

  function Wrap32(n: int): u32 {
    n % 0x1_0000_0000
  }

  /** A 64-bit word; element k is bit k. */
  type Word64 = w: seq<bool> | |w| == 64 witness seq(64, _ => false)

  function Zero64(): Word64 {
    seq(64, _ => false)
  }

  /** `w << d` on 64 bits: the upper d bits are lost and zeros come in from below. */
  function ShiftLeft(w: Word64, d: nat): Word64 {
    seq(64, k requires 0 <= k < 64 => k >= d && w[k - d])
  }

  /** `1 << j`. */
  function OneBit(j: nat): Word64
    requires j < 64
  {
    Zero64()[j := true]
  }

  function BitOr(v: Word64, w: Word64): Word64 {
    seq(64, k requires 0 <= k < 64 => v[k] || w[k])
  }

  /** The number whose binary digits are `bits`, least significant first. */
  function Value(bits: seq<bool>): nat {
    if bits == [] then 0 else (if bits[0] then 1 else 0) + 2 * Value(bits[1..])
  }

  /** The lowest `len` binary digits of n, least significant first. */
  function Bits(n: nat, len: nat): (bits: seq<bool>)
    ensures |bits| == len
  {
    if len == 0 then [] else [n % 2 == 1] + Bits(n / 2, len - 1)
  }

  lemma {:induction false} BitsOfValue(bits: seq<bool>)
    ensures Bits(Value(bits), |bits|) == bits
  {
    if bits != [] {
      BitsOfValue(bits[1..]);
      assert Value(bits) / 2 == Value(bits[1..]);
    }
  }

  lemma {:induction false} ValueOfBits(n: nat, len: nat)
    requires n < Pow2(len)
    ensures Value(Bits(n, len)) == n
  {
    if len > 0 {
      ValueOfBits(n / 2, len - 1);
      assert Bits(n, len)[1..] == Bits(n / 2, len - 1);
    }
  }

  function Pow2(n: nat): (p: nat)
    ensures p >= 1
  {
    if n == 0 then 1 else 2 * Pow2(n - 1)
  }

  lemma {:induction false} ValueBound(bits: seq<bool>)
    ensures Value(bits) < Pow2(|bits|)
  {
    if bits != [] {
      ValueBound(bits[1..]);
    }
  }

  lemma Pow2Of32()
    ensures Pow2(32) == 0x1_0000_0000
  {
    assert Pow2(8) == 256;
    assert Pow2(16) == 65536 by { Pow2Sum(8, 8); }
    Pow2Sum(16, 16);
  }

  lemma {:induction false} Pow2Sum(a: nat, b: nat)
    ensures Pow2(a + b) == Pow2(a) * Pow2(b)
  {
    if a > 0 {
      Pow2Sum(a - 1, b);
      assert Pow2(a + b) == 2 * (Pow2(a - 1) * Pow2(b));
    }
  }

  /** The digits of the first part count less than those of the second. */
  lemma {:induction false} ValueOfJoined(a: seq<bool>, b: seq<bool>)
    ensures Value(a + b) == Value(a) + Pow2(|a|) * Value(b)
  {
    if a == [] {
      assert a + b == b;
    } else {
      ValueOfJoined(a[1..], b);
      assert (a + b)[1..] == a[1..] + b;
      assert Pow2(|a|) * Value(b) == 2 * (Pow2(|a| - 1) * Value(b));
    }
  }

  lemma HalfQuotient(n: nat, d: nat)
    requires d > 0
    ensures n / 2 / d == n / (2 * d)
  {
    var q, r := n / 2 / d, n / 2 % d;
    assert n / 2 == d * q + r;
    assert n == (2 * d) * q + (2 * r + n % 2) by {
      assert (2 * d) * q == 2 * (d * q);
    }
    QuotientIs(n, 2 * d, q, 2 * r + n % 2);
  }

  lemma QuotientIs(n: nat, d: nat, q: nat, r: nat)
    requires d > 0 && n == d * q + r && r < d
    ensures n / d == q
  {
    DivBounds(n, d);
    var p := n / d;
    if p < q {
      Grow(d, p + 1, q);
    } else if p > q {
      Grow(d, q + 1, p);
    }
  }

  /** Bit k of n is set. */
  predicate Digit(n: nat, k: nat) {
    n / Pow2(k) % 2 == 1
  }

  /** Digit k counts 2^k. */
  lemma {:induction false} DigitOfValue(bits: seq<bool>, k: nat)
    requires k < |bits|
    ensures Digit(Value(bits), k) <==> bits[k]
  {
    if k > 0 {
      DigitOfValue(bits[1..], k - 1);
      assert Value(bits) / 2 == Value(bits[1..]);
      HalfQuotient(Value(bits), Pow2(k - 1));
    }
  }
}

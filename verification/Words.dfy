/** 32-bit words as numbers, and their bits. */
module Words {
  import opened Basics

  const WORD: nat := 0x1_0000_0000
  type Word32 = w: nat | w < 0x1_0000_0000

  function Pow2(n: nat): (r: nat)
    ensures r >= 1
  {
    if n == 0 then 1 else 2 * Pow2(n - 1)
  }

  predicate Bit(w: nat, k: nat) {
    if k == 0 then w % 2 == 1 else Bit(w / 2, k - 1)
  }

  function And(a: nat, b: nat): (r: nat)
    ensures r <= a && r <= b
  {
    if a == 0 || b == 0 then 0 else 2 * And(a / 2, b / 2) + One(a % 2 == 1 && b % 2 == 1)
  }

  function Or(a: nat, b: nat): nat {
    if a == 0 then b else if b == 0 then a else 2 * Or(a / 2, b / 2) + One(a % 2 == 1 || b % 2 == 1)
  }

  /** `~w` on 32 bits. */
  function Not(w: Word32): Word32 {
    WORD - 1 - w
  }

  /** `w << 1` on 32 bits. */
  function Shl1(w: Word32): Word32 {
    2 * w % WORD
  }

  /** `w << n` on 32 bits. */
  function Shl(w: Word32, n: nat): Word32
    decreases n
  {
    if n == 0 then w else Shl(Shl1(w), n - 1)
  }

  /** `htonl` and `ntohl` on a little-endian host: the four bytes in reverse order. */
  function Swap(w: Word32): Word32 {
    FromBytes(ByteAt(w, 3), ByteAt(w, 2), ByteAt(w, 1), ByteAt(w, 0))
  }

  // ------------------------------------------------------------------------------------

  lemma PowersOf2()
    ensures Pow2(8) == 0x100 && Pow2(31) == 0x8000_0000 && Pow2(32) == WORD
  {
    assert Pow2(4) == 0x10;
    assert Pow2(12) == 0x1000;
    assert Pow2(16) == 0x1_0000;
    assert Pow2(20) == 0x10_0000;
    assert Pow2(24) == 0x100_0000;
    assert Pow2(28) == 0x1000_0000;
  }

  lemma {:induction false} ZeroBits(k: nat)
    ensures !Bit(0, k)
  {
    if k > 0 {
      ZeroBits(k - 1);
    }
  }

  lemma {:induction false} BitAnd(a: nat, b: nat, k: nat)
    ensures Bit(And(a, b), k) <==> Bit(a, k) && Bit(b, k)
  {
    if a == 0 || b == 0 {
      ZeroBits(k);
    } else if k > 0 {
      BitAnd(a / 2, b / 2, k - 1);
    }
  }

  lemma {:induction false} BitOr(a: nat, b: nat, k: nat)
    ensures Bit(Or(a, b), k) <==> Bit(a, k) || Bit(b, k)
  {
    if a == 0 || b == 0 {
      ZeroBits(k);
    } else if k > 0 {
      BitOr(a / 2, b / 2, k - 1);
    }
  }

  lemma {:induction false} OrBound(a: nat, b: nat, n: nat)
    requires a < Pow2(n) && b < Pow2(n)
    ensures Or(a, b) < Pow2(n)
  {
    if a != 0 && b != 0 {
      OrBound(a / 2, b / 2, n - 1);
    }
  }

  lemma OrWord(a: Word32, b: Word32)
    ensures Or(a, b) < WORD
  {
    PowersOf2();
    OrBound(a, b, 32);
  }

  lemma HalfComplement(p: nat, w: nat)
    requires w < 2 * p
    ensures w / 2 < p && (2 * p - 1 - w) / 2 == p - 1 - w / 2
    ensures (2 * p - 1 - w) % 2 == 1 <==> w % 2 != 1
  {
  }

  lemma {:induction false} BitComplement(w: nat, n: nat, k: nat)
    requires w < Pow2(n) && k < n
    ensures Bit(Pow2(n) - 1 - w, k) <==> !Bit(w, k)
  {
    HalfComplement(Pow2(n - 1), w);
    if k > 0 {
      BitComplement(w / 2, n - 1, k - 1);
    }
  }

  lemma BitNot(w: Word32, k: nat)
    requires k < 32
    ensures Bit(Not(w), k) <==> !Bit(w, k)
  {
    PowersOf2();
    BitComplement(w, 32, k);
  }

  lemma {:induction false} BitPow2(i: nat, k: nat)
    ensures Bit(Pow2(i), k) <==> k == i
  {
    if i == 0 {
      if k > 0 {
        ZeroBits(k - 1);
      }
    } else if k > 0 {
      BitPow2(i - 1, k - 1);
    }
  }

  lemma {:induction false} PowMono(i: nat, n: nat)
    requires i < n
    ensures 2 * Pow2(i) <= Pow2(n)
  {
    if i < n - 1 {
      PowMono(i, n - 1);
    }
  }

  lemma PowWord(i: nat)
    requires i < 32
    ensures Pow2(i) < WORD
  {
    PowersOf2();
    PowMono(i, 32);
  }

  /** Words with the same bits are equal. */
  lemma {:induction false} SameBits(a: nat, b: nat, n: nat)
    requires a < Pow2(n) && b < Pow2(n)
    requires forall k :: 0 <= k < n ==> (Bit(a, k) <==> Bit(b, k))
    ensures a == b
  {
    if n > 0 {
      forall k | 0 <= k < n - 1 ensures Bit(a / 2, k) <==> Bit(b / 2, k) {
        assert Bit(a, k + 1) <==> Bit(b, k + 1);
      }
      SameBits(a / 2, b / 2, n - 1);
      assert Bit(a, 0) <==> Bit(b, 0);
    }
  }

  /** Multiples of 2^n do not reach the low n bits. */
  lemma {:induction false} BitLow(a: nat, h: nat, n: nat, k: nat)
    requires k < n
    ensures Bit(a + h * Pow2(n), k) <==> Bit(a, k)
  {
    var t := h * Pow2(n - 1);
    assert h * Pow2(n) == 2 * t;
    if k > 0 {
      BitLow(a / 2, h, n - 1, k - 1);
      assert (a + 2 * t) / 2 == a / 2 + t;
    }
  }

  /** Bits of the lowest byte, and of the bytes above it. */
  lemma BitOfBytes(lo: Byte, hi: nat, k: nat)
    ensures k < 8 ==> (Bit(lo + 256 * hi, k) <==> Bit(lo, k))
    ensures Bit(lo + 256 * hi, k + 8) <==> Bit(hi, k)
  {
    PowersOf2();
    if k < 8 {
      BitLow(lo, hi, 8, k);
    }
    var w := lo + 256 * hi;
    assert w / 2 / 2 / 2 / 2 / 2 / 2 / 2 / 2 == hi;
    assert Bit(w, k + 8) == Bit(w / 2, k + 7) == Bit(w / 2 / 2, k + 6) == Bit(w / 2 / 2 / 2, k + 5);
    var v := w / 2 / 2 / 2;
    assert Bit(v, k + 5) == Bit(v / 2, k + 4) == Bit(v / 2 / 2, k + 3) == Bit(v / 2 / 2 / 2, k + 2);
    var u := v / 2 / 2 / 2;
    assert Bit(u, k + 2) == Bit(u / 2, k + 1) == Bit(u / 2 / 2, k);
  }

  /** A word from its bytes, the least significant first. */
  function FromBytes(b0: Byte, b1: Byte, b2: Byte, b3: Byte): Word32 {
    b0 + 256 * (b1 + 256 * (b2 + 256 * b3))
  }

  function ByteAt(w: Word32, j: nat): Byte
    requires j < 4
  {
    if j == 0 then w % 256 else if j == 1 then w / 0x100 % 256
    else if j == 2 then w / 0x1_0000 % 256 else w / 0x100_0000
  }

  lemma Bytes(w: Word32)
    ensures w == FromBytes(ByteAt(w, 0), ByteAt(w, 1), ByteAt(w, 2), ByteAt(w, 3))
  {
    var v := w / 0x100;
    var u := v / 0x100;
    assert w == w % 256 + 256 * v;
    assert v == v % 256 + 256 * u;
    assert u == u % 256 + 256 * (u / 256);
    assert u == w / 0x1_0000 && u / 256 == w / 0x100_0000;
  }

  lemma BytesBack(b0: Byte, b1: Byte, b2: Byte, b3: Byte)
    ensures var w := FromBytes(b0, b1, b2, b3);
            ByteAt(w, 0) == b0 && ByteAt(w, 1) == b1 && ByteAt(w, 2) == b2 && ByteAt(w, 3) == b3
  {
    var w := FromBytes(b0, b1, b2, b3);
    assert w / 0x100 == b1 + 256 * (b2 + 256 * b3);
    assert w / 0x1_0000 == b2 + 256 * b3;
  }

  lemma SwapTwice(w: Word32)
    ensures Swap(Swap(w)) == w
  {
    Bytes(w);
    BytesBack(ByteAt(w, 3), ByteAt(w, 2), ByteAt(w, 1), ByteAt(w, 0));
    Bytes(Swap(w));
  }

  lemma BitOfWord(b0: Byte, b1: Byte, b2: Byte, b3: Byte, r: nat)
    requires r < 8
    ensures var w := FromBytes(b0, b1, b2, b3);
            && (Bit(w, r) <==> Bit(b0, r)) && (Bit(w, 8 + r) <==> Bit(b1, r))
            && (Bit(w, 16 + r) <==> Bit(b2, r)) && (Bit(w, 24 + r) <==> Bit(b3, r))
  {
    var h2 := b2 + 256 * b3;
    var h1 := b1 + 256 * h2;
    BitOfBytes(b0, h1, r);
    BitOfBytes(b0, h1, 8 + r);
    BitOfBytes(b0, h1, 16 + r);
    BitOfBytes(b1, h2, r);
    BitOfBytes(b1, h2, 8 + r);
    BitOfBytes(b2, b3, r);
  }

  /** Where the i-th bit of a word in network order lies in the word a little-endian host loads
      from memory. */
  function HostBit(i: nat): nat
    requires i < 32
  {
    8 * (i / 8) + 7 - i % 8
  }

  lemma SwapBitAt(b0: Byte, b1: Byte, b2: Byte, b3: Byte, q: nat, r: nat)
    requires q < 4 && r < 8
    ensures Bit(FromBytes(b3, b2, b1, b0), 8 * q + r) <==> Bit(FromBytes(b0, b1, b2, b3), 8 * (3 - q) + r)
  {
    BitOfWord(b0, b1, b2, b3, r);
    BitOfWord(b3, b2, b1, b0, r);
    var w, v := FromBytes(b0, b1, b2, b3), FromBytes(b3, b2, b1, b0);
    if q == 0 {
      assert Bit(v, r) <==> Bit(w, 24 + r);
    } else if q == 1 {
      assert Bit(v, 8 + r) <==> Bit(w, 16 + r);
    } else if q == 2 {
      assert Bit(v, 16 + r) <==> Bit(w, 8 + r);
    } else {
      assert Bit(v, 24 + r) <==> Bit(w, r);
    }
  }

  lemma SwapBitVia(w: Word32, v: Word32, b0: Byte, b1: Byte, b2: Byte, b3: Byte, i: nat)
    requires i < 32 && w == FromBytes(b0, b1, b2, b3) && v == FromBytes(b3, b2, b1, b0)
    ensures Bit(v, HostBit(i)) <==> Bit(w, 31 - i)
  {
    var q, r := i / 8, 7 - i % 8;
    assert HostBit(i) == 8 * q + r && 31 - i == 8 * (3 - q) + r;
    SwapBitAt(b0, b1, b2, b3, q, r);
  }

  lemma SwapBit(w: Word32, i: nat)
    requires i < 32
    ensures Bit(Swap(w), HostBit(i)) <==> Bit(w, 31 - i)
  {
    var v := Swap(w);
    var b0, b1, b2, b3 := ByteAt(w, 0), ByteAt(w, 1), ByteAt(w, 2), ByteAt(w, 3);
    assert w == FromBytes(b0, b1, b2, b3) by {
      Bytes(w);
    }
    SwapBitVia(w, v, b0, b1, b2, b3, i);
  }
}

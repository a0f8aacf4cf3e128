/**
 * Random bitfields (pktgen-2.8.6/app/pktgen-random.c, and the mask filter of
 * pktgen-2.8.6/app/commands.c): a mask such as "01.X" compiles to three words, which are applied
 * to four packet bytes and can be printed back.
 */
module RandomBits {
  import opened Basics
  import opened Words

  const MAX_RND_BITFIELDS: nat := 32
  const MAX_BITFIELD_SIZE: nat := 32

  predicate MaskChar(c: char) {
    c == '0' || c == '1' || c == '.' || c == 'X'
  }

  predicate IsMask(mask: string) {
    1 <= |mask| <= MAX_BITFIELD_SIZE && forall i :: 0 <= i < |mask| ==> MaskChar(mask[i])
  }

  /** A specification as stored: the words are in network byte order. */
  datatype Spec = Spec(offset: Byte, andMask: Word32, orMask: Word32, rndMask: Word32)

  // ------------------------------------------------------------------------------------
  // What a mask means
  // ------------------------------------------------------------------------------------

  /** The mask with the bits it leaves out ignored. */
  function Pad(mask: string): (r: string)
    requires |mask| <= MAX_BITFIELD_SIZE
    ensures |r| == MAX_BITFIELD_SIZE
  {
    mask + seq(MAX_BITFIELD_SIZE - |mask|, _ => '.')
  }

  /** The word with a one wherever the mask has the character `c`, the last one at bit 0. */
  function Fill(mask: string, c: char): nat {
    if mask == [] then 0 else 2 * Fill(mask[..|mask| - 1], c) + One(mask[|mask| - 1] == c)
  }

  lemma {:induction false} FillBound(mask: string, c: char)
    ensures Fill(mask, c) < Pow2(|mask|)
  {
    if mask != [] {
      FillBound(mask[..|mask| - 1], c);
    }
  }

  lemma FillWord(mask: string, c: char)
    requires |mask| <= 32
    ensures Fill(mask, c) < WORD
    ensures |mask| < 32 ==> 2 * Fill(mask, c) < WORD
  {
    PowersOf2();
    FillBound(mask, c);
    if |mask| < 32 {
      PowMono(|mask|, 32);
    }
  }

  /** Bit 31 - i of the word of a full mask is its i-th character. */
  lemma {:induction false} FillBit(mask: string, c: char, i: nat)
    requires i < |mask|
    ensures Bit(Fill(mask, c), |mask| - 1 - i) <==> mask[i] == c
  {
    var n := |mask| - 1;
    DoubleBit(Fill(mask[..n], c), mask[n] == c, n - i);
    if i < n {
      FillBit(mask[..n], c, i);
    }
  }

  lemma DoubleBit(h: nat, b: bool, k: nat)
    ensures Bit(2 * h + One(b), k) <==> if k == 0 then b else Bit(h, k - 1)
  {
    assert (2 * h + One(b)) / 2 == h;
  }

  /** One turn of the loop over the mask. */
  lemma FillStep(mask: string, i: nat, c: char)
    requires i < |mask| <= 32
    ensures Fill(mask[..i], c) < WORD
    ensures Fill(mask[..i + 1], c) == Shl1(Fill(mask[..i], c)) + One(mask[i] == c) < WORD
  {
    assert mask[..i + 1][..i] == mask[..i];
    FillWord(mask[..i], c);
    FillWord(mask[..i + 1], c);
  }

  /** Shifting a word left appends ignored characters to its mask. */
  lemma {:induction false} FillShift(mask: string, c: char, n: nat)
    requires |mask| + n <= 32 && c != '.'
    ensures Fill(mask, c) < WORD
    ensures Shl(Fill(mask, c), n) == Fill(mask + seq(n, _ => '.'), c)
    decreases n
  {
    FillWord(mask, c);
    if n == 0 {
      assert mask + seq(0, _ => '.') == mask;
    } else {
      var mask' := mask + ['.'];
      assert mask'[..|mask|] == mask;
      assert Fill(mask', c) == Shl1(Fill(mask, c));
      FillShift(mask', c, n - 1);
      assert mask' + seq(n - 1, _ => '.') == mask + seq(n, _ => '.');
    }
  }

  function FillPad(mask: string, c: char): (w: Word32)
    requires |mask| <= MAX_BITFIELD_SIZE
  {
    FillWord(Pad(mask), c);
    Fill(Pad(mask), c)
  }

  /** The specification a mask stands for. */
  function SpecOf(offset: Byte, mask: string): Spec
    requires |mask| <= MAX_BITFIELD_SIZE
  {
    var m0, m1, mx := FillPad(mask, '0'), FillPad(mask, '1'), FillPad(mask, 'X');
    OrWord(m0, mx);
    Spec(offset, Swap(Not(Or(m0, mx))), Swap(m1), Swap(mx))
  }

  /** The three words of a mask, bit by bit in network order. */
  lemma SpecBits(offset: Byte, mask: string, i: nat)
    requires |mask| <= MAX_BITFIELD_SIZE && i < 32
    ensures var s, c := SpecOf(offset, mask), Pad(mask)[i];
            && (Bit(Swap(s.andMask), 31 - i) <==> c != '0' && c != 'X')
            && (Bit(Swap(s.orMask), 31 - i) <==> c == '1')
            && (Bit(Swap(s.rndMask), 31 - i) <==> c == 'X')
            && (Bit(s.andMask, HostBit(i)) <==> c != '0' && c != 'X')
            && (Bit(s.orMask, HostBit(i)) <==> c == '1')
            && (Bit(s.rndMask, HostBit(i)) <==> c == 'X')
  {
    var m0, m1, mx := FillPad(mask, '0'), FillPad(mask, '1'), FillPad(mask, 'X');
    FillBit(Pad(mask), '0', i);
    FillBit(Pad(mask), '1', i);
    FillBit(Pad(mask), 'X', i);
    OrWord(m0, mx);
    BitOr(m0, mx, 31 - i);
    BitNot(Or(m0, mx), 31 - i);
    SwapTwice(Not(Or(m0, mx)));
    SwapTwice(m1);
    SwapTwice(mx);
    SwapBit(Not(Or(m0, mx)), i);
    SwapBit(m1, i);
    SwapBit(mx, i);
  }

  // ------------------------------------------------------------------------------------
  // Compiling
  // ------------------------------------------------------------------------------------

  class RndBits {
    var activeSpecs: Word32
    var specs: seq<Spec>

    ghost predicate Valid()
      reads this
    {
      |specs| == MAX_RND_BITFIELDS
    }

    constructor ()
      ensures Valid() && activeSpecs == 0
    {
      activeSpecs := 0;
      specs := seq(MAX_RND_BITFIELDS, _ => Spec(0, 0, 0, 0));
    }

    /** pktgen_set_random_bitfield. A mask that is too long or has another character, and an
        index out of range, change nothing; an empty mask switches the specification off. */
    method SetRandomBitfield(idx: Byte, offset: Byte, mask: string) returns (active: Word32)
      requires Valid()
      modifies this
      ensures Valid() && active == activeSpecs
      ensures idx < MAX_RND_BITFIELDS && IsMask(mask) ==> specs == old(specs)[idx := SpecOf(offset, mask)]
      ensures !(idx < MAX_RND_BITFIELDS && IsMask(mask)) ==> specs == old(specs)
      ensures forall k :: 0 <= k < 32 ==>
                (Bit(activeSpecs, k) <==>
                 if k == idx && mask == "" then false else if k == idx && IsMask(mask) then true
                 else Bit(old(activeSpecs), k))
    {
      active := activeSpecs;
      if idx >= MAX_RND_BITFIELDS {
        return;
      }
      if |mask| > MAX_BITFIELD_SIZE {
        return;
      }
      if |mask| == 0 {
        ClearBit(activeSpecs, idx);
        activeSpecs := And(activeSpecs, Not(Pow2(idx)));
        return activeSpecs;
      }
      var ok, m0, m1, mx := ReadMask(mask);
      if !ok {
        return;
      }
      OrWord(m0, mx);
      RaiseBit(activeSpecs, idx);
      activeSpecs := Or(activeSpecs, Pow2(idx));
      specs := specs[idx := Spec(offset, Swap(Not(Or(m0, mx))), Swap(m1), Swap(mx))];
      return activeSpecs;
    }
  }

  lemma ClearBit(active: Word32, idx: nat)
    requires idx < 32
    ensures Pow2(idx) < WORD
    ensures forall k :: 0 <= k < 32 ==> (Bit(And(active, Not(Pow2(idx))), k) <==> Bit(active, k) && k != idx)
  {
    PowWord(idx);
    forall k | 0 <= k < 32 ensures Bit(And(active, Not(Pow2(idx))), k) <==> Bit(active, k) && k != idx {
      BitAnd(active, Not(Pow2(idx)), k);
      BitNot(Pow2(idx), k);
      BitPow2(idx, k);
    }
  }

  lemma RaiseBit(active: Word32, idx: nat)
    requires idx < 32
    ensures Or(active, Pow2(idx)) < WORD
    ensures forall k :: 0 <= k < 32 ==> (Bit(Or(active, Pow2(idx)), k) <==> Bit(active, k) || k == idx)
  {
    PowWord(idx);
    OrWord(active, Pow2(idx));
    forall k | 0 <= k < 32 ensures Bit(Or(active, Pow2(idx)), k) <==> Bit(active, k) || k == idx {
      BitOr(active, Pow2(idx), k);
      BitPow2(idx, k);
    }
  }

  /** The loop over the mask characters and the final shift to the most significant bits. */
  method ReadMask(mask: string) returns (ok: bool, m0: Word32, m1: Word32, mx: Word32)
    requires 1 <= |mask| <= MAX_BITFIELD_SIZE
    ensures ok <==> IsMask(mask)
    ensures ok <==> forall i :: 0 <= i < |mask| ==> mask[i] in ['0', '1', '.', 'X']
    ensures ok ==> m0 == FillPad(mask, '0') && m1 == FillPad(mask, '1') && mx == FillPad(mask, 'X')
  {
    m0, m1, mx := 0, 0, 0;
    var i := 0;
    while i < |mask|
      invariant 0 <= i <= |mask|
      invariant forall j :: 0 <= j < i ==> MaskChar(mask[j])
      invariant m0 == Fill(mask[..i], '0') && m1 == Fill(mask[..i], '1') && mx == Fill(mask[..i], 'X')
    {
      FillStep(mask, i, '0');
      FillStep(mask, i, '1');
      FillStep(mask, i, 'X');
      m0, m1, mx := Shl1(m0), Shl1(m1), Shl1(mx);
      match mask[i] {
        case '0' => m0 := m0 + 1;
        case '1' => m1 := m1 + 1;
        case '.' =>
        case 'X' => mx := mx + 1;
        case _ => return false, m0, m1, mx;
      }
      i := i + 1;
    }
    assert mask[..i] == mask;
    var padLen := MAX_BITFIELD_SIZE - |mask|;
    FillShift(mask, '0', padLen);
    FillShift(mask, '1', padLen);
    FillShift(mask, 'X', padLen);
    m0, m1, mx := Shl(m0, padLen), Shl(m1, padLen), Shl(mx, padLen);
    ok := true;
  }
}

/**
 * Applying random bitfields to packets (pktgen_rnd_bits_apply in
 * pktgen-2.8.6/app/pktgen-random.c).
 */
module RandomApply {
  import opened Basics
  import opened Words
  import opened RandomBits

  /** The data room of an mbuf; an offset of at most 255 and four bytes always fit. */
  type Data = p: seq<Byte> | |p| >= 259 witness seq(259, _ => 0)

  /** The 32-bit values the generator returns, one after another. */
  type Draws = nat -> Word32

  // ------------------------------------------------------------------------------------
  // One specification, one packet
  // ------------------------------------------------------------------------------------

  function LoadWord(p: seq<Byte>, off: nat): Word32
    requires off + 4 <= |p|
  {
    FromBytes(p[off], p[off + 1], p[off + 2], p[off + 3])
  }

  function StoreWord(p: seq<Byte>, off: nat, w: Word32): (q: seq<Byte>)
    requires off + 4 <= |p|
    ensures |q| == |p|
  {
    p[off := ByteAt(w, 0)][off + 1 := ByteAt(w, 1)][off + 2 := ByteAt(w, 2)][off + 3 := ByteAt(w, 3)]
  }

  /** No byte outside the four changes. */
  lemma StoreKeeps(p: seq<Byte>, off: nat, w: Word32, k: nat)
    requires off + 4 <= |p| && k < |p| && !(off <= k < off + 4)
    ensures StoreWord(p, off, w)[k] == p[k]
  {
  }

  /** The word the three masks make of `w`; `draw` is the next random value, if one is needed. */
  function Mix(s: Spec, w: Word32, draw: Word32): Word32 {
    var a := And(w, s.andMask);
    OrWord(a, s.orMask);
    var b := Or(a, s.orMask);
    if s.rndMask == 0 then b
    else
      OrWord(b, And(draw, s.rndMask));
      Or(b, And(draw, s.rndMask))
  }

  function ApplySpec(p: Data, s: Spec, draw: Word32): (q: Data)
    ensures |q| == |p|
  {
    StoreWord(p, s.offset, Mix(s, LoadWord(p, s.offset), draw))
  }

  /** The i-th bit, in network order, of the four bytes at `off`. */
  predicate PacketBit(p: seq<Byte>, off: nat, i: nat)
    requires off + 4 <= |p| && i < 32
  {
    Bit(p[off + i / 8], 7 - i % 8)
  }

  lemma LoadBit(p: seq<Byte>, off: nat, i: nat)
    requires off + 4 <= |p| && i < 32
    ensures Bit(LoadWord(p, off), HostBit(i)) <==> PacketBit(p, off, i)
  {
    BitOfWord(p[off], p[off + 1], p[off + 2], p[off + 3], 7 - i % 8);
    var q, r := i / 8, 7 - i % 8;
    if q == 0 {
      assert HostBit(i) == r;
    } else if q == 1 {
      assert HostBit(i) == 8 + r;
    } else if q == 2 {
      assert HostBit(i) == 16 + r;
    } else {
      assert HostBit(i) == 24 + r;
    }
  }

  lemma LoadStored(p: seq<Byte>, off: nat, w: Word32)
    requires off + 4 <= |p|
    ensures LoadWord(StoreWord(p, off, w), off) == w
  {
    Bytes(w);
  }

  lemma MixBit(s: Spec, w: Word32, draw: Word32, k: nat)
    ensures Bit(Mix(s, w, draw), k) <==>
            (Bit(w, k) && Bit(s.andMask, k)) || Bit(s.orMask, k) || (Bit(draw, k) && Bit(s.rndMask, k))
  {
    var a := And(w, s.andMask);
    BitAnd(w, s.andMask, k);
    BitOr(a, s.orMask, k);
    BitAnd(draw, s.rndMask, k);
    BitOr(Or(a, s.orMask), And(draw, s.rndMask), k);
    if s.rndMask == 0 {
      ZeroBits(k);
    }
  }

  /** What applying a compiled mask does to the packet, bit by bit: 0 clears, 1 sets, X takes the
      bit of the random value at the same place, '.' and everything past the mask keeps; the
      bytes around the four are untouched. */
  lemma ApplyMeaning(p: Data, offset: Byte, mask: string, draw: Word32, i: nat)
    requires |mask| <= MAX_BITFIELD_SIZE && i < 32
    ensures PacketBit(ApplySpec(p, SpecOf(offset, mask), draw), offset, i) <==>
            match Pad(mask)[i]
            case '0' => false
            case '1' => true
            case 'X' => Bit(draw, HostBit(i))
            case _ => PacketBit(p, offset, i)
    ensures forall k :: 0 <= k < |p| && !(offset <= k < offset + 4) ==>
              ApplySpec(p, SpecOf(offset, mask), draw)[k] == p[k]
  {
    var s := SpecOf(offset, mask);
    var q := ApplySpec(p, s, draw);
    var w := LoadWord(p, offset);
    SpecBits(offset, mask, i);
    MixBit(s, w, draw, HostBit(i));
    LoadStored(p, offset, Mix(s, w, draw));
    LoadBit(p, offset, i);
    LoadBit(q, offset, i);
    forall k | 0 <= k < |p| && !(offset <= k < offset + 4) ensures q[k] == p[k] {
      StoreKeeps(p, offset, Mix(s, w, draw), k);
    }
  }

  // ------------------------------------------------------------------------------------
  // All active specifications, all packets
  // ------------------------------------------------------------------------------------

  function Needs(s: Spec): nat {
    One(s.rndMask != 0)
  }

  /** The random values a list of specifications uses up on one packet. */
  function DrawsOf(ss: seq<Spec>): nat {
    if ss == [] then 0 else Needs(ss[0]) + DrawsOf(ss[1..])
  }

  /** What one specification does to a packet, given the next random value. */
  type Step<!P> = (P, Spec, Word32) -> P

  /** Specifications applied one after the other, each to what the one before left. The loops below
      do the same whatever `f` is; for packets it is ApplySpec. */
  function Fold<P>(f: Step<P>, p: P, ss: seq<Spec>, draws: Draws, pos: nat): P
    decreases |ss|
  {
    if ss == [] then p
    else Fold(f, f(p, ss[0], draws(pos)), ss[1..], draws, pos + Needs(ss[0]))
  }

  /** The indices whose bit is set, counted from `i`. */
  function ActiveFrom(active: nat, i: nat): seq<nat> {
    if active == 0 then [] else (if active % 2 == 1 then [i] else []) + ActiveFrom(active / 2, i + 1)
  }

  /** These are all the active indices ... */
  lemma {:induction false} ActiveMember(active: nat, i: nat, k: nat)
    ensures k in ActiveFrom(active, i) <==> k >= i && Bit(active, k - i)
    decreases active
  {
    if active == 0 {
      if k >= i {
        ZeroBits(k - i);
      }
    } else {
      ActiveMember(active / 2, i + 1, k);
      var head := if active % 2 == 1 then [i] else [];
      assert k in head + ActiveFrom(active / 2, i + 1) <==> k in head || k in ActiveFrom(active / 2, i + 1);
    }
  }

  predicate Increasing(s: seq<nat>, lo: nat) {
    && (forall a :: 0 <= a < |s| ==> s[a] >= lo)
    && (forall a, b :: 0 <= a < b < |s| ==> s[a] < s[b])
  }

  lemma IncreasingCons(i: nat, s: seq<nat>)
    requires Increasing(s, i + 1)
    ensures Increasing([i] + s, i)
  {
    var t := [i] + s;
    forall a | 0 <= a < |t| ensures t[a] >= i {
      if a > 0 {
        assert t[a] == s[a - 1];
      }
    }
    forall a, b | 0 <= a < b < |t| ensures t[a] < t[b] {
      assert t[b] == s[b - 1];
      if a > 0 {
        assert t[a] == s[a - 1];
      }
    }
  }

  /** ... in increasing order. */
  lemma {:induction false} ActiveIncreasing(active: nat, i: nat)
    ensures Increasing(ActiveFrom(active, i), i)
    decreases active
  {
    if active != 0 {
      var rest := ActiveFrom(active / 2, i + 1);
      ActiveIncreasing(active / 2, i + 1);
      IncreasingCons(i, rest);
      assert [] + rest == rest;
    }
  }

  function Pick(specs: seq<Spec>, idx: seq<nat>): seq<Spec> {
    if idx == [] then [] else (if idx[0] < |specs| then [specs[idx[0]]] else []) + Pick(specs, idx[1..])
  }

  /** The active specifications in index order. */
  function ActiveSpecs(active: nat, specs: seq<Spec>): seq<Spec> {
    Pick(specs, ActiveFrom(active, 0))
  }

  lemma {:induction false} PickAt(specs: seq<Spec>, idx: seq<nat>, j: nat)
    requires (forall i :: 0 <= i < |idx| ==> idx[i] < |specs|) && j < |idx|
    ensures |Pick(specs, idx)| == |idx| && Pick(specs, idx)[j] == specs[idx[j]]
  {
    if |idx| > 1 {
      PickAt(specs, idx[1..], if j > 0 then j - 1 else 0);
    }
  }

  /** One turn of the inner loop on the list of specifications still to be applied. */
  lemma PickStep(active: nat, i: nat, specs: seq<Spec>)
    requires active > 0 && i < |specs|
    ensures var rest := Pick(specs, ActiveFrom(active / 2, i + 1));
            Pick(specs, ActiveFrom(active, i)) == if active % 2 == 1 then [specs[i]] + rest else rest
  {
    var rest := ActiveFrom(active / 2, i + 1);
    if active % 2 == 1 {
      assert ([i] + rest)[1..] == rest;
    } else {
      assert [] + rest == rest;
    }
  }

  lemma FoldStep<P>(f: Step<P>, p: P, s: Spec, rest: seq<Spec>, draws: Draws, pos: nat)
    ensures Fold(f, p, [s] + rest, draws, pos) == Fold(f, f(p, s, draws(pos)), rest, draws, pos + Needs(s))
    ensures DrawsOf([s] + rest) == Needs(s) + DrawsOf(rest)
  {
    assert ([s] + rest)[1..] == rest;
  }

  /** `w` has at most `n` binary digits. */
  predicate Digits(w: nat, n: nat) {
    if n == 0 then w == 0 else Digits(w / 2, n - 1)
  }

  lemma {:induction false} DigitsOf(w: nat, n: nat)
    requires w < Pow2(n)
    ensures Digits(w, n)
  {
    if n > 0 {
      DigitsOf(w / 2, n - 1);
    }
  }

  /** The inner loop with the bits `active` left, from specification `i` on: `p` and `pos'` lead to
      the same result as `packet` and `pos` with all of them. */
  ghost predicate Turning<P(!new)>(f: Step<P>, packet: P, all: seq<Spec>, draws: Draws, pos: nat,
                                   left: seq<Spec>, p: P, pos': nat) {
    && Fold(f, packet, all, draws, pos) == Fold(f, p, left, draws, pos')
    && pos + DrawsOf(all) == pos' + DrawsOf(left)
  }

  /** The specifications still to come. */
  function Left(active: nat, specs: seq<Spec>, i: nat): seq<Spec> {
    Pick(specs, ActiveFrom(active, i))
  }

  /** A turn that applies a specification... */
  lemma ActiveTurn<P(!new)>(f: Step<P>, packet: P, all: seq<Spec>, draws: Draws, pos: nat, active: nat,
                      specs: seq<Spec>, i: nat, p: P, pos': nat)
    requires active % 2 == 1 && i < |specs|
    requires Turning(f, packet, all, draws, pos, Left(active, specs, i), p, pos')
    ensures Turning(f, packet, all, draws, pos, Left(active / 2, specs, i + 1),
                    f(p, specs[i], draws(pos')), pos' + Needs(specs[i]))
  {
    PickStep(active, i, specs);
    FoldStep(f, p, specs[i], Left(active / 2, specs, i + 1), draws, pos');
  }

  /** ...and one that skips one. */
  lemma IdleTurn(active: nat, specs: seq<Spec>, i: nat)
    requires active > 0 && active % 2 == 0 && i < |specs|
    ensures Left(active, specs, i) == Left(active / 2, specs, i + 1)
  {
    PickStep(active, i, specs);
  }

  /** The inner loop: the bits of the active vector are shifted out while the specification
      pointer advances. */
  method ApplyAll<P(!new)>(f: Step<P>, packet: P, activeSpecs: Word32, specs: seq<Spec>, draws: Draws, pos: nat)
    returns (p: P, pos': nat)
    requires |specs| == MAX_RND_BITFIELDS
    ensures p == Fold(f, packet, ActiveSpecs(activeSpecs, specs), draws, pos)
    ensures pos' == pos + DrawsOf(ActiveSpecs(activeSpecs, specs))
    ensures pos' == pos + |RandomSpecs(activeSpecs, specs)|
  {
    p, pos' := packet, pos;
    var active: nat, i := activeSpecs, 0;
    ghost var all := ActiveSpecs(activeSpecs, specs);
    assert Digits(active, 32) by {
      PowersOf2();
      DigitsOf(active, 32);
    }
    DrawsByBits(activeSpecs, specs);
    while active > 0
      invariant 0 <= i <= 32 && Digits(active, 32 - i)
      invariant Turning(f, packet, all, draws, pos, Left(active, specs, i), p, pos')
    {
      if active % 2 == 1 {
        ActiveTurn(f, packet, all, draws, pos, active, specs, i, p, pos');
        p := f(p, specs[i], draws(pos'));
        if specs[i].rndMask != 0 {
          pos' := pos' + 1;
        }
      } else {
        IdleTurn(active, specs, i);
      }
      i := i + 1;
      active := active / 2;
    }
    assert Left(active, specs, i) == [];
  }

  // ------------------------------------------------------------------------------------
  // Which random value is used where
  // ------------------------------------------------------------------------------------

  /** How many of the first `n` specifications have a random mask. */
  function RandomTo(ss: seq<Spec>, n: nat): nat
    requires n <= |ss|
  {
    if n == 0 then 0 else RandomTo(ss, n - 1) + if ss[n - 1].rndMask != 0 then 1 else 0
  }

  lemma {:induction false} RandomToCounts(ss: seq<Spec>, n: nat)
    requires n <= |ss|
    ensures RandomTo(ss, n) == |set j | 0 <= j < n && ss[j].rndMask != 0|
  {
    var now := set j | 0 <= j < n && ss[j].rndMask != 0;
    if n == 0 {
      assert now == {};
    } else {
      var before := set j | 0 <= j < n - 1 && ss[j].rndMask != 0;
      RandomToCounts(ss, n - 1);
      assert now == if ss[n - 1].rndMask != 0 then before + {n - 1} else before;
    }
  }

  lemma {:induction false} RandomToShift(ss: seq<Spec>, n: nat)
    requires 0 < n <= |ss|
    ensures RandomTo(ss, n) == RandomTo(ss[1..], n - 1) + if ss[0].rndMask != 0 then 1 else 0
  {
    if n > 1 {
      RandomToShift(ss, n - 1);
    }
  }

  lemma {:induction false} DrawsAreRandom(ss: seq<Spec>)
    ensures DrawsOf(ss) == RandomTo(ss, |ss|)
  {
    if ss != [] {
      DrawsAreRandom(ss[1..]);
      RandomToShift(ss, |ss|);
    }
  }

  lemma {:induction false} FoldUsesCount<P(!new)>(f: Step<P>, p: P, ss: seq<Spec>, draws: Draws, pos: nat, i: nat)
    requires i < |ss|
    ensures var n := pos + RandomTo(ss, i);
            Fold(f, p, ss, draws, pos) ==
            Fold(f, f(Fold(f, p, ss[..i], draws, pos), ss[i], draws(n)), ss[i + 1..], draws,
                 n + if ss[i].rndMask != 0 then 1 else 0)
    decreases |ss|
  {
    if i > 0 {
      var q := f(p, ss[0], draws(pos));
      FoldUsesCount(f, q, ss[1..], draws, pos + Needs(ss[0]), i - 1);
      RandomToShift(ss, i);
      assert ss[..i][1..] == ss[1..][..i - 1];
      assert ss[1..][i..] == ss[i + 1..];
    }
  }

  /** The i-th specification is applied to what those before it leave, with the random value whose
      number counts the specifications before it that have a random mask; one with a random mask
      uses its value up. */
  lemma FoldUses<P(!new)>(f: Step<P>, p: P, ss: seq<Spec>, draws: Draws, pos: nat, i: nat)
    requires i < |ss|
    ensures var n := pos + |set j | 0 <= j < i && ss[j].rndMask != 0|;
            Fold(f, p, ss, draws, pos) ==
            Fold(f, f(Fold(f, p, ss[..i], draws, pos), ss[i], draws(n)), ss[i + 1..], draws,
                 n + if ss[i].rndMask != 0 then 1 else 0)
  {
    FoldUsesCount(f, p, ss, draws, pos, i);
    RandomToCounts(ss, i);
  }

  /** Specification `k` is active and has a random mask; `active` are the bits from `i` on. */
  predicate Asks(active: nat, specs: seq<Spec>, i: nat, k: nat) {
    i <= k < |specs| && Bit(active, k - i) && specs[k].rndMask != 0
  }

  lemma AsksLater(active: nat, specs: seq<Spec>, i: nat, k: nat)
    ensures Asks(active, specs, i, k) <==>
            Asks(active / 2, specs, i + 1, k) ||
            (k == i < |specs| && active % 2 == 1 && specs[i].rndMask != 0)
  {
  }

  ghost function Asking(active: nat, specs: seq<Spec>, i: nat): (r: set<nat>)
    ensures forall k: nat :: k in r <==> Asks(active, specs, i, k)
  {
    set k: nat | k < |specs| && Asks(active, specs, i, k)
  }

  lemma AskingNow(active: nat, specs: seq<Spec>, i: nat)
    requires i < |specs|
    ensures var rest := Asking(active / 2, specs, i + 1);
            && i !in rest
            && Asking(active, specs, i) == if active % 2 == 1 && specs[i].rndMask != 0 then rest + {i} else rest
  {
    forall k ensures k in Asking(active, specs, i) <==>
                     k in Asking(active / 2, specs, i + 1) || (k == i && active % 2 == 1 && specs[i].rndMask != 0) {
      AsksLater(active, specs, i, k);
    }
  }

  lemma NoneAsking(specs: seq<Spec>, i: nat)
    ensures Asking(0, specs, i) == {}
  {
    forall k | k in Asking(0, specs, i) ensures false {
      ZeroBits(k - i);
    }
  }

  lemma LeftDraws(active: nat, specs: seq<Spec>, i: nat)
    requires active > 0 && i < |specs|
    ensures DrawsOf(Left(active, specs, i)) ==
            DrawsOf(Left(active / 2, specs, i + 1)) + if active % 2 == 1 && specs[i].rndMask != 0 then 1 else 0
  {
    PickStep(active, i, specs);
    var left := Left(active / 2, specs, i + 1);
    assert ([specs[i]] + left)[1..] == left;
  }

  /** The random values one packet uses up: as many as there are active specifications with a
      random mask. */
  lemma {:induction false} ActiveDraws(active: nat, specs: seq<Spec>, i: nat)
    requires i <= |specs| && Digits(active, |specs| - i)
    ensures DrawsOf(Left(active, specs, i)) == |Asking(active, specs, i)|
    decreases |specs| - i
  {
    if active == 0 {
      NoneAsking(specs, i);
    } else {
      ActiveDraws(active / 2, specs, i + 1);
      AskingNow(active, specs, i);
      LeftDraws(active, specs, i);
    }
  }

  /** The active specifications that have a random mask. */
  ghost function RandomSpecs(activeSpecs: Word32, specs: seq<Spec>): (r: set<nat>)
    ensures forall k: nat :: k in r <==> k < |specs| && Bit(activeSpecs, k) && specs[k].rndMask != 0
  {
    Asking(activeSpecs, specs, 0)
  }

  lemma DrawsByBits(activeSpecs: Word32, specs: seq<Spec>)
    requires |specs| == MAX_RND_BITFIELDS
    ensures DrawsOf(ActiveSpecs(activeSpecs, specs)) == |RandomSpecs(activeSpecs, specs)|
  {
    PowersOf2();
    DigitsOf(activeSpecs, 32);
    ActiveDraws(activeSpecs, specs, 0);
  }

  lemma {:induction false} RandomToMono(ss: seq<Spec>, i: nat, n: nat)
    requires i < n <= |ss| && ss[i].rndMask != 0
    ensures RandomTo(ss, i) < RandomTo(ss, n)
  {
    if i < n - 1 {
      RandomToMono(ss, i, n - 1);
    }
  }

  lemma Apart(a: nat, x: nat, b: nat, y: nat, d: nat)
    requires a < b && x < d
    ensures a * d + x < b * d + y
  {
    MulMono(d, a + 1, b);
    assert (a + 1) * d == a * d + d;
  }

  /** Two specifications with a random mask never share a random value, neither on one packet nor on
      two: (j, i) is the i-th specification on the j-th packet, which starts at value `pos + j * d`,
      where `d` is what a packet uses up. */
  lemma DrawsDiffer(ss: seq<Spec>, pos: nat, j: nat, i: nat, j': nat, i': nat)
    requires i < |ss| && ss[i].rndMask != 0 && i' < |ss| && ss[i'].rndMask != 0
    requires (j, i) != (j', i')
    ensures var d := DrawsOf(ss);
            pos + j * d + |set k | 0 <= k < i && ss[k].rndMask != 0| !=
            pos + j' * d + |set k | 0 <= k < i' && ss[k].rndMask != 0|
  {
    var d := DrawsOf(ss);
    DrawsAreRandom(ss);
    RandomToCounts(ss, i);
    RandomToCounts(ss, i');
    RandomToMono(ss, i, |ss|);
    RandomToMono(ss, i', |ss|);
    if j < j' {
      Apart(j, RandomTo(ss, i), j', RandomTo(ss, i'), d);
    } else if j' < j {
      Apart(j', RandomTo(ss, i'), j, RandomTo(ss, i), d);
    } else if i < i' {
      RandomToMono(ss, i, i');
    } else {
      RandomToMono(ss, i', i);
    }
  }

  /** The outer loop, for the list `ss` of active specifications. */
  method ApplyEach<P(!new)>(f: Step<P>, pkts: array<P>, rnd: RndBits, draws: Draws, pos: nat, ghost ss: seq<Spec>)
    returns (pos': nat, ghost at: seq<nat>)
    requires rnd.Valid() && ss == ActiveSpecs(rnd.activeSpecs, rnd.specs)
    modifies pkts
    ensures |at| == pkts.Length + 1 && pos' == at[pkts.Length] && Strides(at, pos, DrawsOf(ss))
    ensures forall j :: 0 <= j < pkts.Length ==> pkts[j] == Fold(f, old(pkts[j]), ss, draws, at[j])
  {
    pos', at := pos, [pos];
    ghost var d := DrawsOf(ss);
    var n := 0;
    while n < pkts.Length
      invariant 0 <= n <= pkts.Length
      invariant |at| == n + 1 && pos' == at[n] && Strides(at, pos, d)
      invariant forall j :: n <= j < pkts.Length ==> pkts[j] == old(pkts[j])
      invariant forall j :: 0 <= j < n ==> pkts[j] == Fold(f, old(pkts[j]), ss, draws, at[j])
    {
      var p: P;
      p, pos' := ApplyAll(f, pkts[n], rnd.activeSpecs, rnd.specs, draws, pos');
      StridesOn(at, pos, d);
      pkts[n] := p;
      at := at + [pos'];
      n := n + 1;
    }
  }

  lemma StridesOn(at: seq<nat>, pos: nat, d: nat)
    requires Strides(at, pos, d)
    ensures Strides(at + [at[|at| - 1] + d], pos, d)
  {
  }

  /** pktgen_rnd_bits_apply: every packet is treated independently of the others; `at[j]` is the
      number of the first random value used for packet j. */
  method Apply(pkts: array<Data>, rnd: RndBits, draws: Draws, pos: nat) returns (pos': nat, ghost at: seq<nat>)
    requires rnd.Valid()
    modifies pkts
    ensures var ss := ActiveSpecs(rnd.activeSpecs, rnd.specs);
            && Strides(at, pos, DrawsOf(ss)) && |at| == pkts.Length + 1 && pos' == at[pkts.Length]
            && forall j :: 0 <= j < pkts.Length ==>
                 pkts[j] == Fold(ApplySpec, old(pkts[j]), ss, draws, at[j])
    ensures var d := |RandomSpecs(rnd.activeSpecs, rnd.specs)|;
            pos' == pos + pkts.Length * d && forall j :: 0 <= j < |at| ==> at[j] == pos + j * d
  {
    ghost var ss := ActiveSpecs(rnd.activeSpecs, rnd.specs);
    if rnd.activeSpecs == 0 {
      assert ss == [];
      pos', at := pos, seq(pkts.Length + 1, _ => pos);
    } else {
      pos', at := ApplyEach(ApplySpec, pkts, rnd, draws, pos, ss);
    }
    DrawsByBits(rnd.activeSpecs, rnd.specs);
    forall j | 0 <= j < |at| ensures at[j] == pos + j * DrawsOf(ss) {
      DrawsInOrder(at, pos, DrawsOf(ss), j);
    }
  }

  /** `at` starts at `pos` and goes up by `d`. */
  ghost predicate Strides(at: seq<nat>, pos: nat, d: nat) {
    && |at| > 0 && at[0] == pos
    && forall j :: 0 < j < |at| ==> at[j] == at[j - 1] + d
  }

  /** Each packet uses the same number of random values, in packet order. */
  lemma {:induction false} DrawsInOrder(at: seq<nat>, pos: nat, d: nat, j: nat)
    requires Strides(at, pos, d) && j < |at|
    ensures at[j] == pos + j * d
  {
    if j > 0 {
      DrawsInOrder(at, pos, d, j - 1);
      assert j * d == (j - 1) * d + d;
    }
  }

  /** What every specification keeps, the fold keeps. */
  lemma {:induction false} FoldKeeps<P(!new)>(f: Step<P>, keep: P -> bool, p: P, ss: seq<Spec>, draws: Draws,
                                              pos: nat)
    requires keep(p)
    requires forall j, q, draw :: 0 <= j < |ss| && keep(q) ==> keep(f(q, ss[j], draw))
    ensures keep(Fold(f, p, ss, draws, pos))
    decreases |ss|
  {
    if ss != [] {
      var rest := ss[1..];
      assert forall j :: 0 <= j < |rest| ==> rest[j] == ss[j + 1];
      FoldKeeps(f, keep, f(p, ss[0], draws(pos)), rest, draws, pos + Needs(ss[0]));
    }
  }

  lemma ApplyKeeps(p: Data, s: Spec, draw: Word32, k: nat)
    requires k < |p| && !(s.offset <= k < s.offset + 4)
    ensures ApplySpec(p, s, draw)[k] == p[k]
  {
    StoreKeeps(p, s.offset, Mix(s, LoadWord(p, s.offset), draw), k);
  }

  /** A byte outside every window keeps its value through the whole fold. */
  lemma FoldFrame(p: Data, ss: seq<Spec>, draws: Draws, pos: nat, k: nat)
    requires k < |p|
    requires forall j :: 0 <= j < |ss| ==> !(ss[j].offset <= k < ss[j].offset + 4)
    ensures |Fold(ApplySpec, p, ss, draws, pos)| == |p| && Fold(ApplySpec, p, ss, draws, pos)[k] == p[k]
  {
    var keep := (q: Data) => |q| == |p| && q[k] == p[k];
    forall j, q, draw | 0 <= j < |ss| && keep(q) ensures keep(ApplySpec(q, ss[j], draw)) {
      ApplyKeeps(q, ss[j], draw, k);
    }
    FoldKeeps(ApplySpec, keep, p, ss, draws, pos);
  }
}

/** The xorshift128+ generator (pktgen-2.8.6/app/xorshift128plus.h). */
module XorShift {
  import opened Seqs

  datatype Seed = Seed(s0: bv64, s1: bv64)

  const ZERO := Seed(0, 0)

  /** The word the step computes from the two it finds. */
  function Mix(x: bv64, y: bv64): bv64 {
    var a := x ^ (x << 23);
    a ^ y ^ (a >> 17) ^ (y >> 26)
  }

  /** The first word again, from the second one and the new one. */
  function Unmix(y: bv64, n: bv64): bv64 {
    var u := n ^ y ^ (y >> 26);
    var a := u ^ (u >> 17) ^ (u >> 34) ^ (u >> 51);
    a ^ (a << 23) ^ (a << 46)
  }

  lemma MixUndone(x: bv64, y: bv64)
    ensures Unmix(y, Mix(x, y)) == x
  {
    assert Mix(x, y) == var a := x ^ (x << 23); a ^ y ^ (a >> 17) ^ (y >> 26);
    assert Unmix(y, var a := x ^ (x << 23); a ^ y ^ (a >> 17) ^ (y >> 26)) == x;
  }

  lemma MixRedone(y: bv64, n: bv64)
    ensures Mix(Unmix(y, n), y) == n
  {
    assert Unmix(y, n) ==
           var u := n ^ y ^ (y >> 26);
           var a := u ^ (u >> 17) ^ (u >> 34) ^ (u >> 51);
           a ^ (a << 23) ^ (a << 46);
    assert Mix(var u := n ^ y ^ (y >> 26);
               var a := u ^ (u >> 17) ^ (u >> 34) ^ (u >> 51);
               a ^ (a << 23) ^ (a << 46), y) == n;
  }

  /** The new state of the generator. */
  function Step(s: Seed): Seed {
    Seed(s.s1, Mix(s.s0, s.s1))
  }

  function Sum(n: bv64, y: bv64): bv64 {
    n + y
  }

  /** The value the generator returns on the way to its new state. */
  function Value(s: Seed): bv64 {
    Sum(Mix(s.s0, s.s1), s.s1)
  }

  /** The shifts of the source: 23 to the left, then 17 and 26 to the right. */
  lemma MixIs(x: bv64, y: bv64)
    ensures Mix(x, y) == var a := x ^ (x << 23); a ^ y ^ (a >> 17) ^ (y >> 26)
  {
  }

  lemma SumIs(n: bv64, y: bv64)
    ensures Sum(n, y) == n + y
  {
  }

  /** The second word moves up, the new one takes its place, and their sum is returned. */
  lemma StepIs(s: Seed)
    ensures Step(s).s0 == s.s1 && Step(s).s1 == Mix(s.s0, s.s1) && Value(s) == Sum(Step(s).s1, Step(s).s0)
  {
  }

  /** The state a state comes from. */
  function Back(t: Seed): Seed {
    Seed(Unmix(t.s0, t.s1), t.s0)
  }

  /** The step is a bijection on pairs of 64-bit words. */
  lemma StepThenBack(s: Seed)
    ensures Back(Step(s)) == s
  {
    MixUndone(s.s0, s.s1);
  }

  lemma BackThenStep(t: Seed)
    ensures Step(Back(t)) == t
  {
    MixRedone(t.s0, t.s1);
  }

  function Steps(s: Seed, n: nat): Seed {
    if n == 0 then s else Step(Steps(s, n - 1))
  }

  /** Two different seeds never meet at the same step. */
  lemma {:induction false} SeedsStayApart(s: Seed, t: Seed, n: nat)
    requires Steps(s, n) == Steps(t, n)
    ensures s == t
  {
    if n > 0 {
      StepThenBack(Steps(s, n - 1));
      StepThenBack(Steps(t, n - 1));
      SeedsStayApart(s, t, n - 1);
    }
  }

  lemma {:induction false} ZeroStays(n: nat)
    ensures Steps(ZERO, n) == ZERO
  {
    if n > 0 {
      ZeroStays(n - 1);
    }
  }

  /** A seed that is not everywhere zero never reaches the zero state. */
  lemma NeverZero(s: Seed, n: nat)
    requires s != ZERO
    ensures Steps(s, n) != ZERO
  {
    ZeroStays(n);
    if Steps(s, n) == ZERO {
      SeedsStayApart(s, ZERO, n);
    }
  }

  /** If a state comes up again, so does the seed, as many steps later: there is no run-in before
      the cycle. */
  lemma {:induction false} CycleThroughSeed(s: Seed, i: nat, p: nat)
    requires Steps(s, i + p) == Steps(s, i)
    ensures Steps(s, p) == s
  {
    if i > 0 {
      StepThenBack(Steps(s, i + p - 1));
      StepThenBack(Steps(s, i - 1));
      CycleThroughSeed(s, i - 1, p);
    }
  }

  // ------------------------------------------------------------------------------------
  // A state does come up again
  // ------------------------------------------------------------------------------------

  /** `x` has at most `n` bits. */
  predicate Fits(x: bv64, n: nat) {
    if n == 0 then x == 0 else Fits(x >> 1, n - 1)
  }

  lemma Fit8(x: bv64, n: nat)
    requires Fits(x >> 8, n)
    ensures Fits(x, n + 8)
  {
    assert ((x >> 7) >> 1) == x >> 8 && Fits(x >> 7, n + 1);
    assert ((x >> 6) >> 1) == x >> 7 && Fits(x >> 6, n + 2);
    assert ((x >> 5) >> 1) == x >> 6 && Fits(x >> 5, n + 3);
    assert ((x >> 4) >> 1) == x >> 5 && Fits(x >> 4, n + 4);
    assert ((x >> 3) >> 1) == x >> 4 && Fits(x >> 3, n + 5);
    assert ((x >> 2) >> 1) == x >> 3 && Fits(x >> 2, n + 6);
    assert ((x >> 1) >> 1) == x >> 2 && Fits(x >> 1, n + 7);
  }

  lemma Fit16(x: bv64, n: nat)
    requires Fits(x >> 16, n)
    ensures Fits(x, n + 16)
  {
    assert (x >> 8) >> 8 == x >> 16;
    Fit8(x >> 8, n);
    Fit8(x, n + 8);
  }

  lemma Fit32(x: bv64, n: nat)
    requires Fits(x >> 32, n)
    ensures Fits(x, n + 32)
  {
    assert (x >> 16) >> 16 == x >> 32;
    Fit16(x >> 16, n);
    Fit16(x, n + 16);
  }

  lemma AllFit(x: bv64)
    ensures Fits(x, 64)
  {
    assert (x >> 32) >> 32 == 0;
    Fit32(x >> 32, 0);
    Fit32(x, 32);
  }

  function Twice(x: bv64): bv64 {
    x << 1
  }

  function TwiceAndOne(x: bv64): bv64 {
    (x << 1) | 1
  }

  /** The words of at most `n` bits. */
  ghost function Words(n: nat): set<bv64> {
    if n == 0 then {0}
    else (set x | x in Words(n - 1) :: Twice(x)) + (set x | x in Words(n - 1) :: TwiceAndOne(x))
  }

  lemma Halves(x: bv64)
    ensures x == Twice(x >> 1) || x == TwiceAndOne(x >> 1)
  {
  }

  lemma {:induction false} WordIn(x: bv64, n: nat)
    requires Fits(x, n)
    ensures x in Words(n)
  {
    if n > 0 {
      WordIn(x >> 1, n - 1);
      Halves(x);
    }
  }

  ghost function AllSeeds(): set<Seed> {
    set x, y | x in Words(64) && y in Words(64) :: Seed(x, y)
  }

  lemma IsSeed(s: Seed)
    ensures s in AllSeeds()
  {
    AllFit(s.s0);
    WordIn(s.s0, 64);
    AllFit(s.s1);
    WordIn(s.s1, 64);
  }

  /** Among more states than there are, one comes up twice. */
  lemma Repeats(run: seq<Seed>)
    requires |run| > |AllSeeds()|
    ensures !NoDup(run)
  {
    if NoDup(run) {
      forall i | 0 <= i < |run| ensures run[i] in AllSeeds() {
        IsSeed(run[i]);
      }
      DistinctBound(run, AllSeeds());
    }
  }

  ghost function States(s: Seed, n: nat): (run: seq<Seed>)
    ensures |run| == n && forall i :: 0 <= i < n ==> run[i] == Steps(s, i)
  {
    seq(n, i requires 0 <= i => Steps(s, i))
  }

  /** Every seed comes back after some number of steps: the generator runs in a cycle. */
  lemma SeedReturns(s: Seed)
    ensures exists p :: 0 < p && Steps(s, p) == s
  {
    var run := States(s, |AllSeeds()| + 1);
    Repeats(run);
    var i, j :| 0 <= i < j < |run| && run[i] == run[j];
    CycleThroughSeed(s, i, j - i);
    assert 0 < j - i && Steps(s, j - i) == s;
  }

  class Generator {
    var seed: Seed

    constructor (seed: Seed)
      ensures this.seed == seed
    {
      this.seed := seed;
    }

    /** xor_next: the two words are updated one after the other. */
    method Next() returns (v: bv64)
      modifies this
      ensures seed == Step(old(seed)) && v == Value(old(seed))
    {
      var s1 := seed.s0;
      var s0 := seed.s1;
      seed := seed.(s0 := s0);
      var n := NewWord(s1, s0);
      seed := seed.(s1 := n);
      v := Sum(n, s0);
    }

    static method NewWord(s1: bv64, s0: bv64) returns (n: bv64)
      ensures n == Mix(s1, s0)
    {
      n := var a := s1 ^ (s1 << 23); a ^ s0 ^ (a >> 17) ^ (s0 >> 26);
    }
  }
}

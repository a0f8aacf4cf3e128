/**
 * The shared transmit counter (pkt_atomic64_tx_count in pktgen-2.8.6/app/pktgen-port-cfg.h): any
 * number of lcores take bursts from one counter with a read and a compare-and-set that may
 * interleave with those of the others.
 */
module TxCounter {
  import opened Basics

  /** Where a lcore is: outside the function, about to read again after a failed cmpset, or
      between its read of the counter and its cmpset. */
  datatype Phase = Outside | Retrying(burst: nat) | Loaded(seen: nat, burst: nat)

  datatype Grant = Grant(worker: nat, burst: nat, amount: nat)

  /** The counter, the lcores, and what has happened: the grants in the order of their cmpsets,
      the calls that returned 0, and the failed cmpsets. */
  datatype State = State(count: nat, workers: seq<Phase>, grants: seq<Grant>, zeros: nat, retries: nat)

  datatype Step = Call(w: nat, burst: nat) | Reload(w: nat) | CmpSet(w: nat)

  function Init(count: nat, workers: nat): State {
    State(count, seq(workers, _ => Outside), [], 0, 0)
  }

  predicate Enabled(s: State, e: Step) {
    && e.w < |s.workers|
    && match e
       case Call(w, burst) => s.workers[w].Outside? && burst >= 1
       case Reload(w) => s.workers[w].Retrying?
       case CmpSet(w) => s.workers[w].Loaded?
  }

  /** `likely(tmp1 > burst) ? burst : tmp1` */
  function Take(count: nat, burst: nat): nat {
    if count > burst then burst else count
  }

  /** The read of the counter and the test for 0 behind it. */
  function Load(s: State, w: nat, burst: nat): State
    requires w < |s.workers|
  {
    if s.count == 0 then s.(workers := s.workers[w := Outside], zeros := s.zeros + 1)
    else s.(workers := s.workers[w := Loaded(s.count, burst)])
  }

  function Next(s: State, e: Step): State
    requires Enabled(s, e)
  {
    match e
    case Call(w, burst) => Load(s, w, burst)
    case Reload(w) => Load(s, w, s.workers[w].burst)
    case CmpSet(w) =>
      var seen, burst := s.workers[w].seen, s.workers[w].burst;
      var amount := Take(seen, burst);
      if s.count == seen then
        State(seen - amount, s.workers[w := Outside], s.grants + [Grant(w, burst, amount)], s.zeros, s.retries)
      else
        s.(workers := s.workers[w := Retrying(burst)], retries := s.retries + 1)
  }

  /** A compare-and-set that finds the counter as it was read takes a whole burst, or all that is
      left of it, for this lcore; one that does not takes nothing and sends the lcore back. */
  lemma CmpSetEffect(s: State, w: nat)
    requires Enabled(s, CmpSet(w))
    ensures var s', p := Next(s, CmpSet(w)), s.workers[w];
            && s'.zeros == s.zeros
            && if s.count == p.seen
               then && s'.count == (if s.count > p.burst then s.count - p.burst else 0)
                    && s'.grants == s.grants + [Grant(w, p.burst, s.count - s'.count)]
                    && s'.workers == s.workers[w := Outside] && s'.retries == s.retries
               else && s'.count == s.count && s'.grants == s.grants
                    && s'.workers == s.workers[w := Retrying(p.burst)] && s'.retries == s.retries + 1
  {
  }

  ghost predicate Legal(s: State, es: seq<Step>)
    decreases |es|
  {
    es == [] || (Enabled(s, es[0]) && Legal(Next(s, es[0]), es[1..]))
  }

  function Run(s: State, es: seq<Step>): State
    requires Legal(s, es)
    decreases |es|
  {
    if es == [] then s else Run(Next(s, es[0]), es[1..])
  }

  // ------------------------------------------------------------------------------------
  // What the grants amount to
  // ------------------------------------------------------------------------------------

  function Total(gs: seq<Grant>): nat {
    if gs == [] then 0 else Total(gs[..|gs| - 1]) + gs[|gs| - 1].amount
  }

  /** The grants are those of a sequential program that takes the bursts one after another. */
  predicate Sequential(start: nat, gs: seq<Grant>) {
    gs == [] ||
    (var g, rest := gs[|gs| - 1], gs[..|gs| - 1];
     && Sequential(start, rest)
     && Total(rest) < start && g.burst >= 1
     && g.amount == Take(start - Total(rest), g.burst))
  }

  // ------------------------------------------------------------------------------------
  // Lcores whose cmpset is bound to fail
  // ------------------------------------------------------------------------------------

  predicate IsStale(p: Phase, count: nat) {
    p.Loaded? && p.seen != count
  }

  function Stale(ws: seq<Phase>, count: nat): (n: nat)
    ensures n <= |ws|
  {
    if ws == [] then 0 else Stale(ws[..|ws| - 1], count) + One(IsStale(ws[|ws| - 1], count))
  }

  lemma {:induction false} StaleUpdate(ws: seq<Phase>, w: nat, p: Phase, count: nat)
    requires w < |ws|
    ensures Stale(ws[w := p], count) + One(IsStale(ws[w], count)) == Stale(ws, count) + One(IsStale(p, count))
  {
    var n := |ws| - 1;
    if w == n {
      assert ws[w := p][..n] == ws[..n];
    } else {
      StaleUpdate(ws[..n], w, p, count);
      assert ws[w := p][..n] == ws[..n][w := p];
    }
  }

  lemma {:induction false} StaleBelow(ws: seq<Phase>, w: nat, count: nat)
    requires w < |ws| && !IsStale(ws[w], count)
    ensures Stale(ws, count) <= |ws| - 1
  {
    if w < |ws| - 1 {
      StaleBelow(ws[..|ws| - 1], w, count);
    }
  }

  lemma {:induction false} NoneStale(n: nat, count: nat)
    ensures Stale(seq(n, _ => Outside), count) == 0
  {
    if n > 0 {
      NoneStale(n - 1, count);
      assert seq(n, _ => Outside)[..n - 1] == seq(n - 1, _ => Outside);
    }
  }

  // ------------------------------------------------------------------------------------
  // The invariant
  // ------------------------------------------------------------------------------------

  ghost predicate PhaseOk(p: Phase, count: nat) {
    match p
    case Outside => true
    case Retrying(burst) => burst >= 1
    case Loaded(seen, burst) => burst >= 1 && seen >= 1 && seen >= count
  }

  /** The other lcores. */
  function Others(n: nat): nat {
    if n == 0 then 0 else n - 1
  }

  lemma OneMore(a: nat, b: nat)
    ensures (a + 1) * b == a * b + b
  {
  }

  ghost predicate Inv(start: nat, s: State) {
    // conservation
    && s.count + Total(s.grants) == start
    && Sequential(start, s.grants)
    // 0 is returned only when the count is used up
    && (s.zeros > 0 ==> s.count == 0)
    && (forall w :: 0 <= w < |s.workers| ==> PhaseOk(s.workers[w], s.count))
    // each successful cmpset can make those of the other lcores fail once
    && s.retries + Stale(s.workers, s.count) <= |s.grants| * Others(|s.workers|)
    && |s.grants| + s.count <= start
  }

  lemma InitInv(start: nat, n: nat)
    ensures Inv(start, Init(start, n))
  {
    NoneStale(n, start);
  }

  lemma LoadKeeps(start: nat, s: State, w: nat, burst: nat)
    requires Inv(start, s) && w < |s.workers| && burst >= 1 && !s.workers[w].Loaded?
    ensures Inv(start, Load(s, w, burst))
  {
    StaleUpdate(s.workers, w, Outside, s.count);
    StaleUpdate(s.workers, w, Loaded(s.count, burst), s.count);
  }

  lemma FailKeeps(start: nat, s: State, w: nat)
    requires Inv(start, s) && Enabled(s, CmpSet(w)) && s.count != s.workers[w].seen
    ensures Inv(start, Next(s, CmpSet(w)))
  {
    assert PhaseOk(s.workers[w], s.count);
    StaleUpdate(s.workers, w, Retrying(s.workers[w].burst), s.count);
  }

  lemma SuccessKeeps(start: nat, s: State, w: nat)
    requires Inv(start, s) && Enabled(s, CmpSet(w)) && s.count == s.workers[w].seen
    ensures Inv(start, Next(s, CmpSet(w)))
  {
    var s' := Next(s, CmpSet(w));
    assert PhaseOk(s.workers[w], s.count);
    assert s'.grants[..|s.grants|] == s.grants;
    forall k | 0 <= k < |s'.workers| ensures PhaseOk(s'.workers[k], s'.count) {
      assert PhaseOk(s.workers[k], s.count);
    }
    StaleBelow(s'.workers, w, s'.count);
    OneMore(|s.grants|, Others(|s.workers|));
  }

  lemma StepKeeps(start: nat, s: State, e: Step)
    requires Inv(start, s) && Enabled(s, e)
    ensures Inv(start, Next(s, e))
  {
    match e
    case Call(w, burst) => LoadKeeps(start, s, w, burst);
    case Reload(w) =>
      assert PhaseOk(s.workers[w], s.count);
      LoadKeeps(start, s, w, s.workers[w].burst);
    case CmpSet(w) =>
      if s.count == s.workers[w].seen {
        SuccessKeeps(start, s, w);
      } else {
        FailKeeps(start, s, w);
      }
  }

  lemma {:induction false} RunKeeps(start: nat, s: State, es: seq<Step>)
    requires Inv(start, s) && Legal(s, es)
    ensures Inv(start, Run(s, es))
    ensures |Run(s, es).workers| == |s.workers|
    decreases |es|
  {
    if es != [] {
      StepKeeps(start, s, es[0]);
      RunKeeps(start, Next(s, es[0]), es[1..]);
    }
  }

  // ------------------------------------------------------------------------------------
  // Results
  // ------------------------------------------------------------------------------------

  /** Every grant is a whole burst, or takes all that the grants before it have left. */
  lemma {:induction false} GrantBounds(start: nat, gs: seq<Grant>, k: nat)
    requires Sequential(start, gs) && k < |gs|
    ensures 1 <= gs[k].amount <= gs[k].burst && Total(gs[..k]) + gs[k].amount <= start
    ensures gs[k].amount == gs[k].burst || Total(gs[..k]) + gs[k].amount == start
  {
    if k < |gs| - 1 {
      GrantBounds(start, gs[..|gs| - 1], k);
      assert gs[..|gs| - 1][..k] == gs[..k];
    }
  }

  /** Only the last grant can be less than a burst. */
  lemma {:induction false} FullBeforeLast(start: nat, gs: seq<Grant>, k: nat)
    requires Sequential(start, gs) && k + 1 < |gs|
    ensures gs[k].amount == gs[k].burst
  {
    var rest := gs[..|gs| - 1];
    if k + 1 < |gs| - 1 {
      FullBeforeLast(start, rest, k);
    } else {
      GrantBounds(start, gs, k);
      assert rest[..k] == gs[..k] && rest[k] == gs[k];
    }
  }

  lemma {:induction false} FullTotal(gs: seq<Grant>, n: nat, burst: nat)
    requires n <= |gs| && forall k :: 0 <= k < n ==> gs[k].amount == burst
    ensures Total(gs[..n]) == n * burst
  {
    if n > 0 {
      FullTotal(gs, n - 1, burst);
      assert gs[..n][..n - 1] == gs[..n - 1];
      OneMore(n - 1, burst);
    }
  }

  /** Lcores that all ask for the same burst use up the counter in the fewest grants possible: one
      grant less would leave some of it. */
  lemma FewestGrants(start: nat, gs: seq<Grant>, burst: nat)
    requires Sequential(start, gs) && |gs| > 0
    requires forall k :: 0 <= k < |gs| ==> gs[k].burst == burst
    ensures (|gs| - 1) * burst < start
  {
    var n := |gs| - 1;
    forall k | 0 <= k < n ensures gs[k].amount == burst {
      FullBeforeLast(start, gs, k);
    }
    FullTotal(gs, n, burst);
    GrantBounds(start, gs, n);
  }

  /** Every interleaving of n lcores from a counter of `start`: nothing is granted twice or lost,
      every grant is a whole burst or takes all that is left, in the order of the compare-and-sets,
      0 is returned only after everything has been granted, and at most (n - 1) * start
      compare-and-sets fail. */
  lemma EveryInterleaving(start: nat, n: nat, es: seq<Step>)
    requires Legal(Init(start, n), es)
    ensures var s := Run(Init(start, n), es);
            && s.count + Total(s.grants) == start
            && Sequential(start, s.grants)
            && (forall k :: 0 <= k < |s.grants| ==>
                  && 1 <= s.grants[k].amount <= s.grants[k].burst
                  && (s.grants[k].amount == s.grants[k].burst || Total(s.grants[..k]) + s.grants[k].amount == start))
            && (s.zeros > 0 ==> Total(s.grants) == start)
            && (n > 0 ==> s.retries <= start * (n - 1)) && (n == 0 ==> s.retries == 0)
  {
    InitInv(start, n);
    RunKeeps(start, Init(start, n), es);
    var s := Run(Init(start, n), es);
    forall k | 0 <= k < |s.grants|
      ensures && 1 <= s.grants[k].amount <= s.grants[k].burst
              && (s.grants[k].amount == s.grants[k].burst || Total(s.grants[..k]) + s.grants[k].amount == start) {
      GrantBounds(start, s.grants, k);
    }
    MulMono(Others(n), |s.grants|, start);
  }
}

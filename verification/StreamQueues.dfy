/**
 * The stream queues of an mTCP core (example_code/core.c).
 *
 * A stream is a record in the flow pool and a pointer to it is its key, so two queue
 * entries that hold the same key see the same record, and a stream that has been given
 * back to the pool has no key left: every dereference below is checked against that.
 */
module StreamQueues {
  import opened Basics
  import opened Seqs

  type StreamId = nat
  type Pool = map<StreamId, Stream>

  datatype TcpState =
    | Closed | Listen | SynSent | SynRcvd | Established | FinWait1 | FinWait2
    | CloseWait | Closing | LastAck | TimeWait

  datatype CloseReason = NotClosed | ActiveClose | PassiveClose | TcpReset | OtherReason

  datatype SendBuffer = SendBuffer(headSeq: nat, len: nat)

  /** Membership of the sender's lists. */
  datatype Lists = Lists(control: bool, send: bool, ack: bool)

  /** Membership of the application's queues and of the two internal ones. */
  datatype Flags = Flags(sendq: bool, ackq: bool, closeq: bool, closeqInt: bool, resetq: bool, resetqInt: bool)

  datatype Sequence = Sequence(sndbuf: Option<SendBuffer>, sndNxt: nat, fss: nat)

  datatype Stream = Stream(
    state: TcpState,
    closeReason: CloseReason,
    haveReset: bool,
    controlListWaiting: bool,
    onTimeoutList: bool,
    on: Lists,
    flags: Flags,
    num: Sequence)

  /** Sequence numbers are 32 bits wide. */
  const SEQ_MOD: nat := 0x1_0000_0000

  /** Everything HandleApplicationCalls can see. `freed` lists the streams given back to the
      pool, oldest first; a new stream never takes one of those names again. */
  datatype Mtcp = Mtcp(
    pool: Pool,
    connectq: seq<StreamId>,
    sendq: seq<StreamId>,
    ackq: seq<StreamId>,
    closeq: seq<StreamId>,
    closeqInt: seq<StreamId>,
    resetq: seq<StreamId>,
    resetqInt: seq<StreamId>,
    destroyq: seq<StreamId>,
    freed: seq<StreamId>,
    wakeup: bool,
    maxConcurrency: nat,
    tcpTimeout: nat)

  // ------------------------------------------------------------------------------------
  // What one stage does with one stream
  // ------------------------------------------------------------------------------------

  datatype Stage = Connect | Send | Ack | Close | CloseInt | Reset | ResetInt | Destroy

  /** `Keep` leaves the stream in the pool and off the queue, `Delay` puts it on the internal
      queue, `Free` destroys it with the record it had at that moment. */
  datatype Verdict = Keep(s: Stream) | Delay(s: Stream) | Free(s: Stream)

  /** The effect of a CLOSE on the connection state: section 3.10.4 of RFC 9293 for the two
      states in which the code moves. */
  function AfterClose(st: TcpState): TcpState {
    if st == Established then FinWait1
    else if st == CloseWait then LastAck
    else st
  }

  function FinalSeq(s: Stream): nat {
    match s.num.sndbuf
    case Some(b) => (b.headSeq + b.len) % SEQ_MOD
    case None => s.num.sndNxt
  }

  predicate Busy(s: Stream) {
    s.on.control || s.on.send || s.on.ack
  }

  /** A stream taken off the close queue: its last sequence number is fixed. */
  function LeaveCloseq(tcpTimeout: nat, s: Stream): Stream {
    s.(flags := s.flags.(closeq := false), num := s.num.(fss := FinalSeq(s)),
       onTimeoutList := s.onTimeoutList && tcpTimeout == 0)
  }

  function JudgeClose(a: Stream): Verdict {
    if a.haveReset then
      if a.state == Closed then Keep(a)
      else Free(a.(closeReason := TcpReset, state := Closed))
    else if a.on.control then Delay(a.(flags := a.flags.(closeqInt := true)))
    else if Busy(a) then Keep(a.(state := AfterClose(a.state), controlListWaiting := true))
    else if a.state == Closed then Keep(a)
    else Keep(a.(state := AfterClose(a.state), on := a.on.(control := true)))
  }

  function Judge(stage: Stage, tcpTimeout: nat, s: Stream): Verdict {
    match stage
    case Connect => Keep(s.(on := s.on.(control := true)))
    case Send => Keep(s.(flags := s.flags.(sendq := false), on := s.on.(send := true)))
    case Ack => Keep(s.(flags := s.flags.(ackq := false), on := s.on.(ack := true)))
    case Close => JudgeClose(LeaveCloseq(tcpTimeout, s))
    case CloseInt =>
      if s.on.control then Delay(s)
      else if s.state == Closed then Keep(s.(flags := s.flags.(closeqInt := false)))
      else Keep(s.(flags := s.flags.(closeqInt := false), state := AfterClose(s.state), on := s.on.(control := true)))
    case Reset =>
      var a := s.(flags := s.flags.(resetq := false), onTimeoutList := s.onTimeoutList && tcpTimeout == 0);
      if a.haveReset then
        if a.state == Closed then Keep(a)
        else Free(a.(closeReason := TcpReset, state := Closed))
      else if Busy(a) then Delay(a.(flags := a.flags.(resetqInt := true)))
      else if a.state == Closed then Keep(a)
      else Keep(a.(closeReason := ActiveClose, state := Closed, on := a.on.(control := true)))
    case ResetInt =>
      if Busy(s) then Delay(s)
      else if s.state == Closed then Keep(s.(flags := s.flags.(resetqInt := false)))
      else
        Keep(s.(flags := s.flags.(resetqInt := false), closeReason := ActiveClose, state := Closed,
                on := s.on.(control := true)))
    case Destroy => Free(s)
  }

  // ------------------------------------------------------------------------------------
  // What one stage does with a whole queue, stream by stream
  // ------------------------------------------------------------------------------------

  type Verdicts = map<StreamId, Verdict>

  /** Every stream judged on the record it has in `p`. */
  function JudgeAll(stage: Stage, t: nat, p: Pool): Verdicts {
    map x | x in p :: Judge(stage, t, p[x])
  }

  /** The pool after the streams of `q` have been treated as `j` says. */
  function PoolAfter(j: Verdicts, q: seq<StreamId>, p: Pool): Pool {
    map x | x in p && !(x in q && x in j && j[x].Free?) ::
      if x in q && x in j then j[x].s else p[x]
  }

  /** The streams of `q` that `j` delays, in queue order. */
  function Delayed(j: Verdicts, q: seq<StreamId>): (r: seq<StreamId>)
    ensures |r| <= |q|
  {
    if q == [] then []
    else
      var x := q[|q| - 1];
      Delayed(j, q[..|q| - 1]) + if x in j && j[x].Delay? then [x] else []
  }

  /** The streams of `q` that `j` frees, in queue order. */
  function Freed(j: Verdicts, q: seq<StreamId>): (r: seq<StreamId>)
    ensures |r| <= |q|
  {
    if q == [] then []
    else
      var x := q[|q| - 1];
      Freed(j, q[..|q| - 1]) + if x in j && j[x].Free? then [x] else []
  }

  lemma {:induction false} DelayedMembers(j: Verdicts, q: seq<StreamId>)
    ensures forall x :: x in Delayed(j, q) <==> x in q && x in j && j[x].Delay?
    ensures NoDup(q) ==> NoDup(Delayed(j, q))
  {
    if q != [] {
      DelayedMembers(j, q[..|q| - 1]);
      assert q == q[..|q| - 1] + [q[|q| - 1]];
    }
  }

  lemma {:induction false} FreedMembers(j: Verdicts, q: seq<StreamId>)
    ensures forall x :: x in Freed(j, q) <==> x in q && x in j && j[x].Free?
    ensures NoDup(q) ==> NoDup(Freed(j, q))
  {
    if q != [] {
      FreedMembers(j, q[..|q| - 1]);
      assert q == q[..|q| - 1] + [q[|q| - 1]];
    }
  }

  /** The queue functions look only at the verdicts of the queued streams. */
  lemma {:induction false} DelayedFrame(j: Verdicts, j': Verdicts, q: seq<StreamId>)
    requires forall x :: x in q ==> (x in j <==> x in j') && (x in j ==> j[x] == j'[x])
    ensures Delayed(j, q) == Delayed(j', q)
    ensures Freed(j, q) == Freed(j', q)
  {
    if q != [] {
      DelayedFrame(j, j', q[..|q| - 1]);
    }
  }

  lemma {:induction false} DelayedConcat(j: Verdicts, q: seq<StreamId>, q': seq<StreamId>)
    ensures Delayed(j, q + q') == Delayed(j, q) + Delayed(j, q')
  {
    if q' == [] {
      assert q + q' == q;
    } else {
      DelayedConcat(j, q, q'[..|q'| - 1]);
      assert (q + q')[..|q + q'| - 1] == q + q'[..|q'| - 1];
    }
  }

  /** One more stream of a queue without duplicates: its record is still the original one. */
  lemma StageStep(j: Verdicts, q: seq<StreamId>, i: nat, p: Pool)
    requires i < |q| && q[i] in p && q[i] in j && NoDup(q)
    ensures var p1 := PoolAfter(j, q[..i], p);
            q[i] in p1 && p1[q[i]] == p[q[i]]
            && PoolAfter(j, q[..i + 1], p) ==
               if j[q[i]].Free? then p1 - {q[i]} else p1[q[i] := j[q[i]].s]
    ensures j[q[i]].Delay? ==> Delayed(j, q[..i + 1]) == Delayed(j, q[..i]) + [q[i]]
    ensures !j[q[i]].Delay? ==> Delayed(j, q[..i + 1]) == Delayed(j, q[..i])
    ensures j[q[i]].Free? ==> Freed(j, q[..i + 1]) == Freed(j, q[..i]) + [q[i]]
    ensures !j[q[i]].Free? ==> Freed(j, q[..i + 1]) == Freed(j, q[..i])
  {
    assert q[..i + 1] == q[..i] + [q[i]];
    assert q[..i + 1][..i] == q[..i];
    assert q[i] !in q[..i];
  }

  /** What treating `x` as `v` says does to the pool, the internal queue and the freed streams. */
  ghost predicate Settled(v: Verdict, x: StreamId, p: Pool, p': Pool,
                          qi: seq<StreamId>, qi': seq<StreamId>, f: seq<StreamId>, f': seq<StreamId>) {
    match v
    case Keep(s) => p' == p[x := s] && qi' == qi && f' == f
    case Delay(s) => p' == p[x := s] && qi' == qi + [x] && f' == f
    case Free(_) => p' == p - {x} && qi' == qi && f' == f + [x]
  }

  /** `i` streams of `q` have been treated: the loop invariant of every stage. */
  ghost predicate Progress(j: Verdicts, q: seq<StreamId>, i: nat, p: Pool, p': Pool,
                           qi: seq<StreamId>, qi': seq<StreamId>, f: seq<StreamId>, f': seq<StreamId>) {
    && i <= |q|
    && p' == PoolAfter(j, q[..i], p)
    && qi' == qi + Delayed(j, q[..i])
    && f' == f + Freed(j, q[..i])
  }

  lemma ProgressStep(j: Verdicts, q: seq<StreamId>, i: nat, p: Pool, p1: Pool, p2: Pool,
                     qi: seq<StreamId>, qi1: seq<StreamId>, qi2: seq<StreamId>,
                     f: seq<StreamId>, f1: seq<StreamId>, f2: seq<StreamId>)
    requires i < |q| && q[i] in p && q[i] in j && NoDup(q)
    requires Progress(j, q, i, p, p1, qi, qi1, f, f1)
    requires Settled(j[q[i]], q[i], p1, p2, qi1, qi2, f1, f2)
    ensures Progress(j, q, i + 1, p, p2, qi, qi2, f, f2)
  {
    StageStep(j, q, i, p);
    assert (qi + Delayed(j, q[..i])) + [q[i]] == qi + (Delayed(j, q[..i]) + [q[i]]);
    assert (f + Freed(j, q[..i])) + [q[i]] == f + (Freed(j, q[..i]) + [q[i]]);
  }

  /** A stream put back on a rotating queue goes behind those already put back. */
  lemma SettledBehind(v: Verdict, x: StreamId, p: Pool, p': Pool, front: seq<StreamId>, back: seq<StreamId>,
                      qi': seq<StreamId>, f: seq<StreamId>, f': seq<StreamId>)
    requires Settled(v, x, p, p', front + back, qi', f, f')
    ensures var back' := if v.Delay? then back + [x] else back;
            qi' == front + back' && Settled(v, x, p, p', back, back', f, f')
  {
    assert (front + back) + [x] == front + (back + [x]);
  }

  /** One turn of a rotation: of the queue, `front` has not been met yet and `back` was put back. */
  lemma RotateStep(j: Verdicts, q: seq<StreamId>, i: nat, p: Pool, p1: Pool, p2: Pool, front: seq<StreamId>,
                   back: seq<StreamId>, qi': seq<StreamId>, f: seq<StreamId>, f1: seq<StreamId>, f2: seq<StreamId>)
    requires i < |q| && q[i] in p && q[i] in j && NoDup(q)
    requires Progress(j, q, i, p, p1, [], back, f, f1)
    requires Settled(j[q[i]], q[i], p1, p2, front + back, qi', f1, f2)
    ensures var back' := if j[q[i]].Delay? then back + [q[i]] else back;
            qi' == front + back' && Progress(j, q, i + 1, p, p2, [], back', f, f2)
  {
    SettledBehind(j[q[i]], q[i], p1, p2, front, back, qi', f1, f2);
    var back' := if j[q[i]].Delay? then back + [q[i]] else back;
    ProgressStep(j, q, i, p, p1, p2, [], back, back', f, f1, f2);
  }

  lemma ProgressStart(j: Verdicts, q: seq<StreamId>, p: Pool, qi: seq<StreamId>, f: seq<StreamId>)
    ensures Progress(j, q, 0, p, p, qi, qi, f, f)
  {
    assert PoolAfter(j, [], p) == p;
  }

  lemma ProgressEnd(j: Verdicts, q: seq<StreamId>, p: Pool, p': Pool,
                    qi: seq<StreamId>, qi': seq<StreamId>, f: seq<StreamId>, f': seq<StreamId>)
    requires Progress(j, q, |q|, p, p', qi, qi', f, f')
    ensures p' == PoolAfter(j, q, p) && qi' == qi + Delayed(j, q) && f' == f + Freed(j, q)
  {
    assert q[..|q|] == q;
  }

  /** A stream not reached yet still has its original record. */
  lemma ProgressAhead(j: Verdicts, q: seq<StreamId>, i: nat, p: Pool, p': Pool,
                      qi: seq<StreamId>, qi': seq<StreamId>, f: seq<StreamId>, f': seq<StreamId>)
    requires i < |q| && q[i] in p && q[i] in j && NoDup(q)
    requires Progress(j, q, i, p, p', qi, qi', f, f')
    ensures q[i] in p' && p'[q[i]] == p[q[i]]
    ensures |qi'| < |qi| + |q|
  {
    StageStep(j, q, i, p);
  }

  /** The first three stages may meet a stream twice: their effect is idempotent. */
  lemma TouchTwice(stage: Stage, t: nat, s: Stream)
    requires stage.Connect? || stage.Send? || stage.Ack?
    ensures Judge(stage, t, s).Keep?
    ensures Judge(stage, t, Judge(stage, t, s).s) == Judge(stage, t, s)
  {
  }

  lemma RepeatStep(j: Verdicts, q: seq<StreamId>, i: nat, p: Pool)
    requires i < |q| && q[i] in p && q[i] in j && !j[q[i]].Free?
    ensures var p1 := PoolAfter(j, q[..i], p);
            && q[i] in p1 && (p1[q[i]] == p[q[i]] || p1[q[i]] == j[q[i]].s)
            && PoolAfter(j, q[..i + 1], p) == p1[q[i] := j[q[i]].s]
  {
    assert q[..i + 1] == q[..i] + [q[i]];
  }

  lemma TouchStep(stage: Stage, t: nat, q: seq<StreamId>, i: nat, p: Pool)
    requires stage.Connect? || stage.Send? || stage.Ack?
    requires i < |q| && q[i] in p
    ensures var j := JudgeAll(stage, t, p);
            var p1 := PoolAfter(j, q[..i], p);
            q[i] in p1 && PoolAfter(j, q[..i + 1], p) == p1[q[i] := Judge(stage, t, p1[q[i]]).s]
  {
    TouchTwice(stage, t, p[q[i]]);
    RepeatStep(JudgeAll(stage, t, p), q, i, p);
  }

  // ------------------------------------------------------------------------------------
  // What a whole call does with one stream
  // ------------------------------------------------------------------------------------

  function Touch(stage: Stage, t: nat, q: seq<StreamId>, x: StreamId, s: Stream): Stream {
    if x in q then Judge(stage, t, s).s else s
  }

  /** The record of `x` once the connect, send and ack queues have been drained. */
  function Touched(m: Mtcp, x: StreamId): Stream
    requires x in m.pool
  {
    var a := Touch(Connect, m.tcpTimeout, m.connectq, x, m.pool[x]);
    var b := Touch(Send, m.tcpTimeout, m.sendq, x, a);
    Touch(Ack, m.tcpTimeout, m.ackq, x, b)
  }

  /** The fate of one stream in one call: it depends on its own record and on the queues it
      is on, and on no other stream. */
  function Outcome(m: Mtcp, x: StreamId): Verdict
    requires x in m.pool
  {
    var s := Touched(m, x);
    if x in m.closeq then Judge(Close, m.tcpTimeout, s)
    else if x in m.closeqInt then Judge(CloseInt, m.tcpTimeout, s)
    else if x in m.resetq then Judge(Reset, m.tcpTimeout, s)
    else if x in m.resetqInt then Judge(ResetInt, m.tcpTimeout, s)
    else if x in m.destroyq then Judge(Destroy, m.tcpTimeout, s)
    else Keep(s)
  }

  function Outcomes(m: Mtcp): Verdicts {
    map x | x in m.pool :: Outcome(m, x)
  }

  /** The state after a call: every stream treated independently of the others, the internal
      queues filtered in order with the newly delayed streams behind, all others empty. */
  function AfterCall(m: Mtcp): Mtcp {
    var o := Outcomes(m);
    m.(pool := map x | x in m.pool && !o[x].Free? :: o[x].s,
       connectq := [], sendq := [], ackq := [], closeq := [], resetq := [], destroyq := [],
       closeqInt := Delayed(o, m.closeqInt) + Delayed(o, m.closeq),
       resetqInt := Delayed(o, m.resetqInt) + Delayed(o, m.resetq),
       freed := m.freed + Freed(o, m.closeq) + Freed(o, m.resetq) + m.destroyq,
       wakeup := false)
  }

  // ------------------------------------------------------------------------------------
  // The invariant
  // ------------------------------------------------------------------------------------

  ghost predicate AllLive(q: seq<StreamId>, p: Pool) {
    forall i :: 0 <= i < |q| ==> q[i] in p
  }

  ghost predicate Live(m: Mtcp) {
    && AllLive(m.connectq, m.pool) && AllLive(m.sendq, m.pool) && AllLive(m.ackq, m.pool)
    && AllLive(m.closeq, m.pool) && AllLive(m.closeqInt, m.pool)
    && AllLive(m.resetq, m.pool) && AllLive(m.resetqInt, m.pool) && AllLive(m.destroyq, m.pool)
  }

  ghost predicate NeverTwice(m: Mtcp) {
    && NoDup(m.closeq) && NoDup(m.closeqInt) && NoDup(m.resetq) && NoDup(m.resetqInt)
    && NoDup(m.destroyq)
  }

  /** The queue flags of `x` say exactly which queues it is on. */
  predicate FlagsAgree(m: Mtcp, x: StreamId)
    requires x in m.pool
  {
    var s := m.pool[x];
    && (s.flags.sendq <==> x in m.sendq) && (s.flags.ackq <==> x in m.ackq)
    && (s.flags.closeq <==> x in m.closeq) && (s.flags.closeqInt <==> x in m.closeqInt)
    && (s.flags.resetq <==> x in m.resetq) && (s.flags.resetqInt <==> x in m.resetqInt)
  }

  /** `x` waits to be closed, to be reset or to be destroyed, for one reason only. */
  predicate OnePlace(m: Mtcp, x: StreamId) {
    && (x in m.closeq ==> x !in m.closeqInt && x !in m.resetq && x !in m.resetqInt && x !in m.destroyq)
    && (x in m.closeqInt ==> x !in m.resetq && x !in m.resetqInt && x !in m.destroyq)
    && (x in m.resetq ==> x !in m.resetqInt && x !in m.destroyq)
    && (x in m.resetqInt ==> x !in m.destroyq)
  }

  predicate Waiting(m: Mtcp, x: StreamId) {
    x in m.closeq || x in m.closeqInt || x in m.resetq || x in m.resetqInt || x in m.destroyq
  }

  ghost predicate Exclusive(m: Mtcp) {
    forall x :: x in m.pool ==> OnePlace(m, x)
  }

  ghost predicate Inv(m: Mtcp) {
    && |m.pool| <= m.maxConcurrency
    && Live(m)
    && NeverTwice(m)
    && Exclusive(m)
    && (forall x :: x in m.pool ==> FlagsAgree(m, x))
    && NoDup(m.freed)
    && (forall x :: x in m.freed ==> x !in m.pool)
  }

  /** Both internal queues have room for everything that is waiting for them. */
  lemma InternalQueuesNeverFull(m: Mtcp)
    requires Inv(m)
    ensures |m.closeqInt| + |m.closeq| <= m.maxConcurrency
    ensures |m.resetqInt| + |m.resetq| <= m.maxConcurrency
  {
    NoDupConcat(m.closeqInt, m.closeq);
    DistinctBound(m.closeqInt + m.closeq, m.pool.Keys);
    NoDupConcat(m.resetqInt, m.resetq);
    DistinctBound(m.resetqInt + m.resetq, m.pool.Keys);
  }

  // ------------------------------------------------------------------------------------
  // From stages to the whole call
  // ------------------------------------------------------------------------------------

  /** What the second stage of a pair does to the streams the first stage has delayed:
      nothing, they are still blocked. */
  lemma JustDelayed(outer: Stage, inner: Stage, t: nat, s: Stream)
    requires (outer, inner) == (Close, CloseInt) || (outer, inner) == (Reset, ResetInt)
    ensures Judge(outer, t, s).Delay? ==> Judge(inner, t, Judge(outer, t, s).s) == Judge(outer, t, s)
    ensures !Judge(inner, t, s).Free?
  {
  }

  /** How the verdicts `j` of a drain of `q`, the verdicts `j1` of the rotation of the internal
      queue on the pool the drain left, and the verdicts `both` of the two together agree. */
  ghost predicate PairAgrees(j: Verdicts, j1: Verdicts, both: Verdicts, q: seq<StreamId>, qi: seq<StreamId>, p: Pool) {
    && j.Keys == p.Keys == both.Keys
    && j1.Keys == PoolAfter(j, q, p).Keys
    && AllLive(q, p) && AllLive(qi, p)
    && (forall x :: x in q && x in j ==> both[x] == j[x])
    && (forall x :: x in q && x in j && j[x].Delay? ==> x in j1 && j1[x] == j[x])
    && (forall x :: x in qi ==> x !in q && x in j1 && j1[x] == both[x])
    && (forall x :: x in j1 ==> !j1[x].Free?)
  }

  /** Draining `q` into the internal queue `qi` and then rotating that queue once treats each
      stream once. */
  lemma PairQueues(j: Verdicts, j1: Verdicts, both: Verdicts, q: seq<StreamId>, qi: seq<StreamId>, p: Pool)
    requires PairAgrees(j, j1, both, q, qi, p)
    ensures var qi1 := qi + Delayed(j, q);
            && Delayed(j1, qi1) == Delayed(both, qi) + Delayed(both, q)
            && Freed(j, q) == Freed(both, q)
            && AllLive(qi1, PoolAfter(j, q, p))
  {
    PairDelayed(j, j1, both, q, qi, p);
    PairLive(j, j1, both, q, qi, p);
  }

  lemma PairDelayed(j: Verdicts, j1: Verdicts, both: Verdicts, q: seq<StreamId>, qi: seq<StreamId>, p: Pool)
    requires PairAgrees(j, j1, both, q, qi, p)
    ensures Delayed(j1, qi + Delayed(j, q)) == Delayed(both, qi) + Delayed(both, q)
    ensures Freed(j, q) == Freed(both, q)
  {
    var d := Delayed(j, q);
    DelayedMembers(j, q);
    DelayedConcat(j1, qi, d);
    DelayedFrame(j1, both, qi);
    AllDelayed(j1, d);
    DelayedFrame(both, j, q);
  }

  lemma PairLive(j: Verdicts, j1: Verdicts, both: Verdicts, q: seq<StreamId>, qi: seq<StreamId>, p: Pool)
    requires PairAgrees(j, j1, both, q, qi, p)
    ensures AllLive(qi + Delayed(j, q), PoolAfter(j, q, p))
  {
    DelayedMembers(j, q);
  }

  lemma PairPool(j: Verdicts, j1: Verdicts, both: Verdicts, q: seq<StreamId>, qi: seq<StreamId>, p: Pool)
    requires PairAgrees(j, j1, both, q, qi, p)
    ensures PoolAfter(j1, qi + Delayed(j, q), PoolAfter(j, q, p)) == PoolAfter(both, q + qi, p)
  {
    var p1, d := PoolAfter(j, q, p), Delayed(j, q);
    DelayedMembers(j, q);
    var a, b := PoolAfter(j1, qi + d, p1), PoolAfter(both, q + qi, p);
    forall x
      ensures x in a <==> x in b
      ensures x in a ==> a[x] == b[x]
    {
      assert x in q + qi <==> x in q || x in qi;
      assert x in qi + d <==> x in qi || x in d;
      if x in p {
        if x in q {
        } else if x in qi {
        }
      }
    }
  }

  lemma {:induction false} AllDelayed(j: Verdicts, q: seq<StreamId>)
    requires forall x :: x in q ==> x in j && j[x].Delay?
    ensures Delayed(j, q) == q
  {
    if q != [] {
      AllDelayed(j, q[..|q| - 1]);
      assert q == q[..|q| - 1] + [q[|q| - 1]];
    }
  }

  /** The pool once the first three queues have been drained. */
  function TouchedPool(m: Mtcp): Pool {
    var t := m.tcpTimeout;
    var p1 := PoolAfter(JudgeAll(Connect, t, m.pool), m.connectq, m.pool);
    var p2 := PoolAfter(JudgeAll(Send, t, p1), m.sendq, p1);
    PoolAfter(JudgeAll(Ack, t, p2), m.ackq, p2)
  }

  lemma TouchPoolAt(stage: Stage, t: nat, q: seq<StreamId>, p: Pool, x: StreamId)
    requires stage.Connect? || stage.Send? || stage.Ack?
    ensures var p1 := PoolAfter(JudgeAll(stage, t, p), q, p);
            (x in p1 <==> x in p) && (x in p ==> p1[x] == Touch(stage, t, q, x, p[x]))
  {
    if x in p {
      TouchTwice(stage, t, p[x]);
    }
  }

  lemma TouchedPoolAt(m: Mtcp, x: StreamId)
    ensures x in TouchedPool(m) <==> x in m.pool
    ensures x in m.pool ==> TouchedPool(m)[x] == Touched(m, x)
  {
    var t := m.tcpTimeout;
    TouchPoolAt(Connect, t, m.connectq, m.pool, x);
    var p1 := PoolAfter(JudgeAll(Connect, t, m.pool), m.connectq, m.pool);
    TouchPoolAt(Send, t, m.sendq, p1, x);
    var p2 := PoolAfter(JudgeAll(Send, t, p1), m.sendq, p1);
    TouchPoolAt(Ack, t, m.ackq, p2, x);
  }

  /** Pool, internal queue and freed streams after a drain of `q` and a rotation of `qi`. */
  function AfterPair(outer: Stage, inner: Stage, t: nat, q: seq<StreamId>, qi: seq<StreamId>, p: Pool)
    : (Pool, seq<StreamId>, seq<StreamId>)
  {
    var j := JudgeAll(outer, t, p);
    var p1 := PoolAfter(j, q, p);
    var j1 := JudgeAll(inner, t, p1);
    var qi1 := qi + Delayed(j, q);
    (PoolAfter(j1, qi1, p1), Delayed(j1, qi1), Freed(j, q))
  }

  /** When the verdicts `o` of a whole call are those of the two stages of a pair. */
  ghost predicate PairCase(outer: Stage, inner: Stage, t: nat, q: seq<StreamId>, qi: seq<StreamId>, p: Pool,
                           o: Verdicts) {
    && ((outer, inner) == (Close, CloseInt) || (outer, inner) == (Reset, ResetInt))
    && AllLive(q, p) && AllLive(qi, p) && p.Keys <= o.Keys
    && (forall x :: x in q && x in p ==> o[x] == Judge(outer, t, p[x]))
    && (forall x :: x in qi && x in p ==> x !in q && o[x] == Judge(inner, t, p[x]))
  }

  function Restrict(o: Verdicts, p: Pool): Verdicts {
    map x | x in p && x in o :: o[x]
  }

  lemma PairCaseAgrees(outer: Stage, inner: Stage, t: nat, q: seq<StreamId>, qi: seq<StreamId>, p: Pool, o: Verdicts)
    requires PairCase(outer, inner, t, q, qi, p, o)
    ensures var j := JudgeAll(outer, t, p);
            PairAgrees(j, JudgeAll(inner, t, PoolAfter(j, q, p)), Restrict(o, p), q, qi, p)
  {
    var j := JudgeAll(outer, t, p);
    var p1 := PoolAfter(j, q, p);
    forall x | x in p {
      JustDelayed(outer, inner, t, p[x]);
    }
    forall x | x in p1 {
      JustDelayed(outer, inner, t, p1[x]);
    }
  }

  lemma RestrictPool(o: Verdicts, q: seq<StreamId>, p: Pool)
    requires p.Keys <= o.Keys
    ensures PoolAfter(Restrict(o, p), q, p) == PoolAfter(o, q, p)
  {
  }

  lemma AfterPairIs(outer: Stage, inner: Stage, t: nat, q: seq<StreamId>, qi: seq<StreamId>, p: Pool, o: Verdicts)
    requires PairCase(outer, inner, t, q, qi, p, o)
    ensures AfterPair(outer, inner, t, q, qi, p) ==
            (PoolAfter(o, q + qi, p), Delayed(o, qi) + Delayed(o, q), Freed(o, q))
    ensures AllLive(qi + Delayed(JudgeAll(outer, t, p), q), PoolAfter(JudgeAll(outer, t, p), q, p))
  {
    var j := JudgeAll(outer, t, p);
    var p1 := PoolAfter(j, q, p);
    var j1 := JudgeAll(inner, t, p1);
    var both := Restrict(o, p);
    PairCaseAgrees(outer, inner, t, q, qi, p, o);
    PairQueues(j, j1, both, q, qi, p);
    PairPool(j, j1, both, q, qi, p);
    DelayedFrame(both, o, q);
    DelayedFrame(both, o, qi);
    RestrictPool(o, q + qi, p);
  }

  lemma {:induction false} AllFreed(j: Verdicts, q: seq<StreamId>)
    requires forall x :: x in q ==> x in j && j[x].Free?
    ensures Freed(j, q) == q
  {
    if q != [] {
      AllFreed(j, q[..|q| - 1]);
      assert q == q[..|q| - 1] + [q[|q| - 1]];
    }
  }

  lemma ClosePairAt(m: Mtcp, x: StreamId)
    requires x in m.pool && OnePlace(m, x)
    ensures x in TouchedPool(m)
    ensures x in m.closeq ==> Outcome(m, x) == Judge(Close, m.tcpTimeout, TouchedPool(m)[x])
    ensures x in m.closeqInt ==> x !in m.closeq && Outcome(m, x) == Judge(CloseInt, m.tcpTimeout, TouchedPool(m)[x])
  {
    TouchedPoolAt(m, x);
  }

  lemma ClosePairCase(m: Mtcp)
    requires AllLive(m.closeq, m.pool) && AllLive(m.closeqInt, m.pool) && Exclusive(m)
    ensures PairCase(Close, CloseInt, m.tcpTimeout, m.closeq, m.closeqInt, TouchedPool(m), Outcomes(m))
  {
    var p, o := TouchedPool(m), Outcomes(m);
    forall x | x in m.pool
      ensures x in p
      ensures x in m.closeq ==> o[x] == Judge(Close, m.tcpTimeout, p[x])
      ensures x in m.closeqInt ==> x !in m.closeq && o[x] == Judge(CloseInt, m.tcpTimeout, p[x])
    {
      ClosePairAt(m, x);
    }
    forall x | x in p ensures x in m.pool {
      TouchedPoolAt(m, x);
    }
  }

  /** The pool between the two pairs of stages. */
  function MiddlePool(m: Mtcp): Pool {
    PoolAfter(Outcomes(m), m.closeq + m.closeqInt, TouchedPool(m))
  }

  lemma MiddlePoolAt(m: Mtcp, x: StreamId)
    ensures x in MiddlePool(m) <==>
            x in m.pool && !((x in m.closeq || x in m.closeqInt) && Outcome(m, x).Free?)
    ensures x in MiddlePool(m) ==>
            MiddlePool(m)[x] == if x in m.closeq || x in m.closeqInt then Outcome(m, x).s else Touched(m, x)
  {
    TouchedPoolAt(m, x);
    assert x in m.closeq + m.closeqInt <==> x in m.closeq || x in m.closeqInt;
  }

  lemma ResetPairAt(m: Mtcp, x: StreamId)
    requires x in m.pool && OnePlace(m, x)
    ensures x in m.resetq || x in m.resetqInt ==> x in MiddlePool(m)
    ensures x in m.resetq ==> Outcome(m, x) == Judge(Reset, m.tcpTimeout, MiddlePool(m)[x])
    ensures x in m.resetqInt ==> x !in m.resetq && Outcome(m, x) == Judge(ResetInt, m.tcpTimeout, MiddlePool(m)[x])
  {
    MiddlePoolAt(m, x);
  }

  lemma ResetPairCase(m: Mtcp)
    requires AllLive(m.resetq, m.pool) && AllLive(m.resetqInt, m.pool) && Exclusive(m)
    ensures PairCase(Reset, ResetInt, m.tcpTimeout, m.resetq, m.resetqInt, MiddlePool(m), Outcomes(m))
  {
    var p, o := MiddlePool(m), Outcomes(m);
    forall x | x in m.pool
      ensures x in m.resetq || x in m.resetqInt ==> x in p
      ensures x in m.resetq ==> o[x] == Judge(Reset, m.tcpTimeout, p[x])
      ensures x in m.resetqInt ==> x !in m.resetq && o[x] == Judge(ResetInt, m.tcpTimeout, p[x])
    {
      ResetPairAt(m, x);
    }
    forall x | x in p ensures x in m.pool {
      MiddlePoolAt(m, x);
    }
  }

  /** The pool before the destroy queue is drained. */
  function LatePool(m: Mtcp): Pool {
    PoolAfter(Outcomes(m), m.resetq + m.resetqInt, MiddlePool(m))
  }

  lemma LatePoolAt(m: Mtcp, x: StreamId)
    requires x in m.pool ==> OnePlace(m, x)
    ensures x in LatePool(m) <==> x in m.pool && (x in m.destroyq || !Outcome(m, x).Free?)
    ensures x in LatePool(m) && x !in m.destroyq ==> LatePool(m)[x] == Outcome(m, x).s
  {
    MiddlePoolAt(m, x);
    assert x in m.resetq + m.resetqInt <==> x in m.resetq || x in m.resetqInt;
  }

  lemma DestroyStage(t: nat, q: seq<StreamId>, p: Pool)
    requires AllLive(q, p)
    ensures Freed(JudgeAll(Destroy, t, p), q) == q
    ensures PoolAfter(JudgeAll(Destroy, t, p), q, p) == p - set x | x in q
  {
    AllFreed(JudgeAll(Destroy, t, p), q);
  }

  lemma DestroyedAt(m: Mtcp, x: StreamId)
    requires x in m.pool && x in m.destroyq && OnePlace(m, x)
    ensures Outcome(m, x).Free?
  {
  }

  lemma AfterCallAt(m: Mtcp, x: StreamId)
    ensures x in AfterCall(m).pool <==> x in m.pool && !Outcome(m, x).Free?
    ensures x in AfterCall(m).pool ==> AfterCall(m).pool[x] == Outcome(m, x).s
  {
  }

  lemma FinalPoolAt(m: Mtcp, x: StreamId)
    requires x in m.pool ==> OnePlace(m, x)
    ensures x in AfterCall(m).pool <==> x in LatePool(m) && x !in m.destroyq
    ensures x in AfterCall(m).pool ==> AfterCall(m).pool[x] == LatePool(m)[x]
    ensures x in m.pool && x in m.destroyq ==> x in LatePool(m)
  {
    LatePoolAt(m, x);
    AfterCallAt(m, x);
    if x in m.pool && x in m.destroyq {
      DestroyedAt(m, x);
    }
  }

  lemma SamePool(p: Pool, q: seq<StreamId>, b: Pool)
    requires forall x :: x in b <==> x in p && x !in q
    requires forall x :: x in b ==> b[x] == p[x]
    ensures p - (set x | x in q) == b
  {
  }

  lemma FinalPool(m: Mtcp)
    requires Exclusive(m)
    ensures LatePool(m) - (set x | x in m.destroyq) == AfterCall(m).pool
    ensures AllLive(m.destroyq, m.pool) ==> AllLive(m.destroyq, LatePool(m))
  {
    var p, b := LatePool(m), AfterCall(m).pool;
    forall x
      ensures x in b <==> x in p && x !in m.destroyq
      ensures x in b ==> b[x] == p[x]
      ensures x in m.pool && x in m.destroyq ==> x in p
    {
      FinalPoolAt(m, x);
    }
    SamePool(p, m.destroyq, b);
  }

  lemma {:induction false} RotationFreesNone(stage: Stage, t: nat, q: seq<StreamId>, p: Pool)
    requires stage.CloseInt? || stage.ResetInt?
    ensures Freed(JudgeAll(stage, t, p), q) == []
  {
    if q != [] {
      RotationFreesNone(stage, t, q[..|q| - 1], p);
    }
  }

  lemma PairFits(outer: Stage, inner: Stage, t: nat, q: seq<StreamId>, qi: seq<StreamId>, p: Pool, o: Verdicts)
    requires PairCase(outer, inner, t, q, qi, p, o)
    requires NoDup(q) && NoDup(qi)
    ensures var j := JudgeAll(outer, t, p);
            var qi1 := qi + Delayed(j, q);
            AllLive(qi1, PoolAfter(j, q, p)) && NoDup(qi1) && |qi1| <= |qi| + |q|
  {
    AfterPairIs(outer, inner, t, q, qi, p, o);
    DelayedMembers(JudgeAll(outer, t, p), q);
    NoDupConcat(qi, Delayed(JudgeAll(outer, t, p), q));
  }

  /** A pair of stages finds its queues without duplicates, with live streams and with room,
      and leaves the pool `p'` and the internal queue `qi'`, having freed `f'`. */
  ghost predicate PairReady(outer: Stage, inner: Stage, t: nat, q: seq<StreamId>, qi: seq<StreamId>, p: Pool,
                            p': Pool, qi': seq<StreamId>, f': seq<StreamId>, room: nat) {
    var j := JudgeAll(outer, t, p);
    var qi1 := qi + Delayed(j, q);
    && AllLive(q, p) && NoDup(q) && |qi| + |q| <= room
    && AllLive(qi1, PoolAfter(j, q, p)) && NoDup(qi1)
    && AfterPair(outer, inner, t, q, qi, p) == (p', qi', f')
  }

  /** Eight loops over shared mutable state amount to one independent verdict per stream: each
      stage finds its queue without duplicates, its streams alive and room to delay them, and
      together they lead to AfterCall. */
  lemma StagesCompose(m: Mtcp)
    requires Inv(m)
    ensures AllLive(m.connectq, m.pool) && AllLive(m.sendq, m.pool) && AllLive(m.ackq, m.pool)
    ensures PairReady(Close, CloseInt, m.tcpTimeout, m.closeq, m.closeqInt, TouchedPool(m),
                      MiddlePool(m), AfterCall(m).closeqInt, Freed(Outcomes(m), m.closeq), m.maxConcurrency)
    ensures PairReady(Reset, ResetInt, m.tcpTimeout, m.resetq, m.resetqInt, MiddlePool(m),
                      LatePool(m), AfterCall(m).resetqInt, Freed(Outcomes(m), m.resetq), m.maxConcurrency)
    ensures AllLive(m.destroyq, LatePool(m)) && NoDup(m.destroyq)
    ensures var j := JudgeAll(Destroy, m.tcpTimeout, LatePool(m));
            PoolAfter(j, m.destroyq, LatePool(m)) == AfterCall(m).pool && Freed(j, m.destroyq) == m.destroyq
  {
    InternalQueuesNeverFull(m);
    ClosePairCase(m);
    PairFits(Close, CloseInt, m.tcpTimeout, m.closeq, m.closeqInt, TouchedPool(m), Outcomes(m));
    AfterPairIs(Close, CloseInt, m.tcpTimeout, m.closeq, m.closeqInt, TouchedPool(m), Outcomes(m));
    ResetPairCase(m);
    PairFits(Reset, ResetInt, m.tcpTimeout, m.resetq, m.resetqInt, MiddlePool(m), Outcomes(m));
    AfterPairIs(Reset, ResetInt, m.tcpTimeout, m.resetq, m.resetqInt, MiddlePool(m), Outcomes(m));
    FinalPool(m);
    DestroyStage(m.tcpTimeout, m.destroyq, LatePool(m));
  }
}

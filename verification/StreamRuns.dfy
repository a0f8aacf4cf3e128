/**
 * Runs of an mTCP core: calls of HandleApplicationCalls interleaved with whatever the
 * application and the rest of the stack do in between (example_code/core.c).
 */
module StreamRuns {
  import opened Basics
  import opened Seqs
  import opened StreamQueues

  // ------------------------------------------------------------------------------------
  // One call keeps the invariant
  // ------------------------------------------------------------------------------------

  /** What one of the first three loops does to a stream it may or may not meet. */
  lemma TouchFlags(stage: Stage, t: nat, q: seq<StreamId>, x: StreamId, s: Stream)
    requires stage.Connect? || stage.Send? || stage.Ack?
    ensures var a := Touch(stage, t, q, x, s);
            && a.state == s.state && a.haveReset == s.haveReset
            && a.flags == s.flags.(sendq := s.flags.sendq && !(stage.Send? && x in q),
                                   ackq := s.flags.ackq && !(stage.Ack? && x in q))
            && a.on == Lists(s.on.control || (stage.Connect? && x in q),
                             s.on.send || (stage.Send? && x in q), s.on.ack || (stage.Ack? && x in q))
            && a == s.(flags := a.flags, on := a.on)
  {
  }

  /** Draining the first three queues touches no flag of the others. */
  lemma TouchedFlags(m: Mtcp, x: StreamId)
    requires x in m.pool
    ensures var s, a := m.pool[x], Touched(m, x);
            && a.state == s.state && a.haveReset == s.haveReset
            && a.flags == s.flags.(sendq := s.flags.sendq && x !in m.sendq, ackq := s.flags.ackq && x !in m.ackq)
            && a.on == Lists(s.on.control || x in m.connectq, s.on.send || x in m.sendq, s.on.ack || x in m.ackq)
            && a == s.(flags := a.flags, on := a.on)
  {
    var a := Touch(Connect, m.tcpTimeout, m.connectq, x, m.pool[x]);
    var b := Touch(Send, m.tcpTimeout, m.sendq, x, a);
    TouchFlags(Connect, m.tcpTimeout, m.connectq, x, m.pool[x]);
    TouchFlags(Send, m.tcpTimeout, m.sendq, x, a);
    TouchFlags(Ack, m.tcpTimeout, m.ackq, x, b);
  }

  /** The flags a call leaves on a stream say which internal queue it is now on. */
  lemma OutcomeFlags(m: Mtcp, x: StreamId)
    requires x in m.pool && OnePlace(m, x) && FlagsAgree(m, x)
    ensures var v := Outcome(m, x);
            && !v.s.flags.sendq && !v.s.flags.ackq
            && (v.Free? ==> x in m.closeq || x in m.resetq || x in m.destroyq)
            && (v.Delay? ==> x in m.closeq || x in m.closeqInt || x in m.resetq || x in m.resetqInt)
            && (x in m.destroyq ==> v.Free?)
            && (!v.Free? ==> !v.s.flags.closeq && !v.s.flags.resetq)
            && (!v.Free? ==> (v.s.flags.closeqInt <==> v.Delay? && (x in m.closeq || x in m.closeqInt)))
            && (!v.Free? ==> (v.s.flags.resetqInt <==> v.Delay? && (x in m.resetq || x in m.resetqInt)))
  {
    TouchedFlags(m, x);
  }

  lemma AfterCallQueues(m: Mtcp)
    ensures forall x :: x in AfterCall(m).closeqInt <==>
              (x in m.closeq || x in m.closeqInt) && x in m.pool && Outcome(m, x).Delay?
    ensures forall x :: x in AfterCall(m).resetqInt <==>
              (x in m.resetq || x in m.resetqInt) && x in m.pool && Outcome(m, x).Delay?
  {
    var o := Outcomes(m);
    DelayedMembers(o, m.closeq);
    DelayedMembers(o, m.closeqInt);
    DelayedMembers(o, m.resetq);
    DelayedMembers(o, m.resetqInt);
  }

  lemma AfterCallNoDup(m: Mtcp)
    requires NeverTwice(m) && Exclusive(m) && Live(m)
    ensures NeverTwice(AfterCall(m))
  {
    var o := Outcomes(m);
    DelayedMembers(o, m.closeq);
    DelayedMembers(o, m.closeqInt);
    DelayedMembers(o, m.resetq);
    DelayedMembers(o, m.resetqInt);
    forall x | x in m.closeqInt ensures x !in m.closeq {
      assert x in m.pool && OnePlace(m, x);
    }
    forall x | x in m.resetqInt ensures x !in m.resetq {
      assert x in m.pool && OnePlace(m, x);
    }
    NoDupConcat(Delayed(o, m.closeqInt), Delayed(o, m.closeq));
    NoDupConcat(Delayed(o, m.resetqInt), Delayed(o, m.resetq));
  }

  lemma FreedGone(m: Mtcp, x: StreamId)
    requires x in m.pool && OnePlace(m, x)
    requires x in m.destroyq || Outcome(m, x).Free?
    ensures x !in AfterCall(m).pool
  {
    AfterCallAt(m, x);
    if x in m.destroyq {
      DestroyedAt(m, x);
    }
  }

  /** A stream a call frees was alive, waited on one queue only, and is gone. */
  lemma FreedAt(m: Mtcp, x: StreamId)
    requires Live(m) && Exclusive(m)
    ensures var o := Outcomes(m);
            var a, b := x in Freed(o, m.closeq), x in Freed(o, m.resetq);
            && (a ==> x in m.closeq && !b && x !in m.destroyq)
            && (b ==> x in m.resetq && x !in m.destroyq)
            && (a || b || x in m.destroyq ==> x in m.pool && x !in AfterCall(m).pool)
  {
    var o := Outcomes(m);
    FreedMembers(o, m.closeq);
    FreedMembers(o, m.resetq);
    if x in Freed(o, m.closeq) || x in Freed(o, m.resetq) || x in m.destroyq {
      assert x in m.pool && OnePlace(m, x);
      FreedGone(m, x);
    }
  }

  /** What a call frees is freed once, and no freed stream comes back. */
  lemma AfterCallFreed(m: Mtcp)
    requires Live(m) && Exclusive(m) && NeverTwice(m)
    requires NoDup(m.freed) && forall x :: x in m.freed ==> x !in m.pool
    ensures NoDup(AfterCall(m).freed)
    ensures forall x :: x in AfterCall(m).freed ==> x !in AfterCall(m).pool
  {
    var o := Outcomes(m);
    var a, b, c := Freed(o, m.closeq), Freed(o, m.resetq), m.destroyq;
    FreedMembers(o, m.closeq);
    FreedMembers(o, m.resetq);
    forall x
      ensures x in a ==> x !in b && x !in c
      ensures x in b ==> x !in c
      ensures x in a || x in b || x in c ==> x in m.pool && x !in AfterCall(m).pool
      ensures x in m.freed ==> x !in AfterCall(m).pool
    {
      FreedAt(m, x);
      AfterCallAt(m, x);
    }
    NoDupConcat4(m.freed, a, b, c);
    assert AfterCall(m).freed == m.freed + a + b + c;
  }

  lemma AfterCallPlaces(m: Mtcp, x: StreamId)
    requires x in m.pool ==> OnePlace(m, x) && FlagsAgree(m, x)
    ensures x in AfterCall(m).closeqInt || x in AfterCall(m).resetqInt ==> x in AfterCall(m).pool
    ensures x in AfterCall(m).pool ==> OnePlace(AfterCall(m), x) && FlagsAgree(AfterCall(m), x)
  {
    AfterCallAt(m, x);
    AfterCallQueues(m);
    if x in m.pool {
      OutcomeFlags(m, x);
    }
  }

  lemma AfterCallLive(m: Mtcp)
    requires forall x :: x in m.pool ==> OnePlace(m, x) && FlagsAgree(m, x)
    ensures Live(AfterCall(m))
  {
    var m' := AfterCall(m);
    forall x | x in m'.closeqInt || x in m'.resetqInt ensures x in m'.pool {
      AfterCallPlaces(m, x);
    }
  }

  lemma AfterCallAgrees(m: Mtcp)
    requires forall x :: x in m.pool ==> OnePlace(m, x) && FlagsAgree(m, x)
    ensures var m' := AfterCall(m); Exclusive(m') && forall x :: x in m'.pool ==> FlagsAgree(m', x)
  {
    var m' := AfterCall(m);
    forall x | x in m'.pool ensures OnePlace(m', x) && FlagsAgree(m', x) {
      AfterCallPlaces(m, x);
    }
  }

  lemma AfterCallSize(m: Mtcp)
    ensures |AfterCall(m).pool| <= |m.pool|
  {
    var p, p' := m.pool, AfterCall(m).pool;
    forall x | x in p' ensures x in p {
      AfterCallAt(m, x);
    }
    Subset(p'.Keys, p.Keys);
    assert |p'| == |p'.Keys| && |p| == |p.Keys|;
  }

  /** A call keeps the invariant: the queues and the flags agree, nothing waits twice, no freed
      stream is queued and none is freed again. */
  lemma CallKeepsInv(m: Mtcp)
    requires Inv(m)
    ensures Inv(AfterCall(m))
  {
    AfterCallLive(m);
    AfterCallAgrees(m);
    AfterCallSize(m);
    AfterCallNoDup(m);
    AfterCallFreed(m);
  }

  lemma {:induction false} Subset(a: set<StreamId>, b: set<StreamId>)
    requires a <= b
    ensures |a| <= |b|
  {
    if a != {} {
      var x :| x in a;
      Subset(a - {x}, b - {x});
    }
  }

  // ------------------------------------------------------------------------------------
  // Events and runs
  // ------------------------------------------------------------------------------------

  datatype Event =
    | Call
    | PutConnect(x: StreamId)
    | PutSend(x: StreamId)
    | PutAck(x: StreamId)
    | PutClose(x: StreamId)
    | PutReset(x: StreamId)
    | PutDestroy(x: StreamId)
    | Create(x: StreamId, s: Stream)
    | Release(x: StreamId)
    | Network(pool: Pool)

  /** What the rest of the stack may do to a stream: anything but touch the queue flags or
      leave CLOSED. */
  ghost predicate NetworkMay(s: Stream, s': Stream) {
    s'.flags == s.flags && (s.state == Closed ==> s'.state == Closed)
  }

  /** The application closes, resets or destroys a live stream for which none of the three is
      pending; a new stream has a name of its own and the pool has room for it; a stream is
      released outside a call only when it is on no queue. */
  ghost predicate Allowed(m: Mtcp, e: Event) {
    match e
    case Call => true
    case PutConnect(x) => x in m.pool
    case PutSend(x) => x in m.pool
    case PutAck(x) => x in m.pool
    case PutClose(x) => x in m.pool && !Waiting(m, x)
    case PutReset(x) => x in m.pool && !Waiting(m, x)
    case PutDestroy(x) => x in m.pool && !Waiting(m, x)
    case Create(x, s) =>
      && x !in m.pool && x !in m.freed && |m.pool| < m.maxConcurrency
      && s.flags == Flags(false, false, false, false, false, false)
    case Release(x) =>
      x in m.pool && !Waiting(m, x) && x !in m.connectq && x !in m.sendq && x !in m.ackq
    case Network(p) =>
      p.Keys == m.pool.Keys && forall x :: x in m.pool ==> NetworkMay(m.pool[x], p[x])
  }

  /** The pool once the application has raised the flags `f` on `x`. */
  function Raise(p: Pool, x: StreamId, f: Flags): Pool {
    if x in p then
      var g := p[x].flags;
      p[x := p[x].(flags := Flags(g.sendq || f.sendq, g.ackq || f.ackq, g.closeq || f.closeq,
                                  g.closeqInt, g.resetq || f.resetq, g.resetqInt))]
    else p
  }

  const SENDQ := Flags(true, false, false, false, false, false)
  const ACKQ := Flags(false, true, false, false, false, false)
  const CLOSEQ := Flags(false, false, true, false, false, false)
  const RESETQ := Flags(false, false, false, false, true, false)

  function Next(m: Mtcp, e: Event): Mtcp {
    match e
    case Call => AfterCall(m)
    case PutConnect(x) => m.(connectq := m.connectq + [x])
    case PutSend(x) => m.(sendq := m.sendq + [x], pool := Raise(m.pool, x, SENDQ))
    case PutAck(x) => m.(ackq := m.ackq + [x], pool := Raise(m.pool, x, ACKQ))
    case PutClose(x) => m.(closeq := m.closeq + [x], pool := Raise(m.pool, x, CLOSEQ))
    case PutReset(x) => m.(resetq := m.resetq + [x], pool := Raise(m.pool, x, RESETQ))
    case PutDestroy(x) => m.(destroyq := m.destroyq + [x])
    case Create(x, s) => m.(pool := m.pool[x := s])
    case Release(x) => m.(pool := m.pool - {x}, freed := m.freed + [x])
    case Network(p) => m.(pool := p)
  }

  ghost predicate Legal(m: Mtcp, es: seq<Event>)
    decreases |es|
  {
    es == [] || (Allowed(m, es[0]) && Legal(Next(m, es[0]), es[1..]))
  }

  function Run(m: Mtcp, es: seq<Event>): Mtcp
    decreases |es|
  {
    if es == [] then m else Run(Next(m, es[0]), es[1..])
  }

  /** The request events. */
  predicate IsPut(e: Event) {
    e.PutConnect? || e.PutSend? || e.PutAck? || e.PutClose? || e.PutReset? || e.PutDestroy?
  }

  /** What an event other than a call does to the places and flags of one stream. */
  lemma PutPlaces(m: Mtcp, e: Event, y: StreamId)
    requires IsPut(e) && Allowed(m, e) && y in m.pool
    requires OnePlace(m, y) && FlagsAgree(m, y)
    ensures OnePlace(Next(m, e), y) && FlagsAgree(Next(m, e), y)
  {
  }

  lemma EventPlaces(m: Mtcp, e: Event, y: StreamId)
    requires !e.Call? && Allowed(m, e) && y in Next(m, e).pool
    requires y in m.pool ==> OnePlace(m, y) && FlagsAgree(m, y)
    requires y !in m.pool ==> !Waiting(m, y) && y !in m.sendq && y !in m.ackq
    ensures OnePlace(Next(m, e), y) && FlagsAgree(Next(m, e), y)
  {
    if IsPut(e) {
      PutPlaces(m, e, y);
    }
  }

  lemma {:induction false} AppendKeeps(q: seq<StreamId>, x: StreamId, p: Pool, p': Pool)
    requires AllLive(q, p) && x in p && p'.Keys == p.Keys
    ensures AllLive(q + [x], p')
    ensures NoDup(q) && x !in q ==> NoDup(q + [x])
  {
  }

  lemma PlacesKept(m: Mtcp, e: Event)
    requires Inv(m) && Allowed(m, e) && !e.Call?
    ensures var m' := Next(m, e); Exclusive(m') && forall y :: y in m'.pool ==> FlagsAgree(m', y)
  {
    forall y | y in Next(m, e).pool ensures OnePlace(Next(m, e), y) && FlagsAgree(Next(m, e), y) {
      EventPlaces(m, e, y);
    }
  }

  lemma PutKeepsQueues(m: Mtcp, e: Event)
    requires Live(m) && NeverTwice(m) && Allowed(m, e) && IsPut(e)
    ensures Live(Next(m, e)) && NeverTwice(Next(m, e)) && Next(m, e).pool.Keys == m.pool.Keys
  {
    var p' := Next(m, e).pool;
    assert p'.Keys == m.pool.Keys;
    match e
    case PutConnect(x) => AppendKeeps(m.connectq, x, m.pool, p');
    case PutSend(x) => AppendKeeps(m.sendq, x, m.pool, p');
    case PutAck(x) => AppendKeeps(m.ackq, x, m.pool, p');
    case PutClose(x) => AppendKeeps(m.closeq, x, m.pool, p');
    case PutReset(x) => AppendKeeps(m.resetq, x, m.pool, p');
    case PutDestroy(x) => AppendKeeps(m.destroyq, x, m.pool, p');
  }

  lemma PutKeepsInv(m: Mtcp, e: Event)
    requires Inv(m) && Allowed(m, e) && IsPut(e)
    ensures Inv(Next(m, e))
  {
    PlacesKept(m, e);
    PutKeepsQueues(m, e);
    var p, p' := m.pool, Next(m, e).pool;
    assert |p'| == |p'.Keys| && |p| == |p.Keys|;
  }

  lemma CreateKeepsInv(m: Mtcp, e: Event)
    requires Inv(m) && Allowed(m, e) && e.Create?
    ensures Inv(Next(m, e))
  {
    PlacesKept(m, e);
    var p, p' := m.pool, Next(m, e).pool;
    assert |p'| == |p'.Keys| && |p| == |p.Keys|;
  }

  lemma ReleaseKeepsInv(m: Mtcp, e: Event)
    requires Inv(m) && Allowed(m, e) && e.Release?
    ensures Inv(Next(m, e))
  {
    PlacesKept(m, e);
    var p, p' := m.pool, Next(m, e).pool;
    assert |p'| == |p'.Keys| && |p| == |p.Keys|;
  }

  lemma NetworkKeepsInv(m: Mtcp, e: Event)
    requires Inv(m) && Allowed(m, e) && e.Network?
    ensures Inv(Next(m, e))
  {
    PlacesKept(m, e);
    var p, p' := m.pool, Next(m, e).pool;
    assert |p'| == |p'.Keys| && |p| == |p.Keys|;
  }

  /** Every event keeps the invariant. */
  lemma StepKeepsInv(m: Mtcp, e: Event)
    requires Inv(m) && Allowed(m, e)
    ensures Inv(Next(m, e))
  {
    if e.Call? {
      CallKeepsInv(m);
    } else if e.Create? {
      CreateKeepsInv(m, e);
    } else if e.Release? {
      ReleaseKeepsInv(m, e);
    } else if e.Network? {
      NetworkKeepsInv(m, e);
    } else {
      PutKeepsInv(m, e);
    }
  }

  /** Over every run: a stream is on an internal queue exactly when its flag says so, never on
      two and never twice; no freed stream is queued and none is freed twice. */
  lemma {:induction false} InvAlways(m: Mtcp, es: seq<Event>)
    requires Inv(m) && Legal(m, es)
    ensures Inv(Run(m, es))
    decreases |es|
  {
    if es != [] {
      StepKeepsInv(m, es[0]);
      InvAlways(Next(m, es[0]), es[1..]);
    }
  }

  /** The state InitializeMTCPManager leaves. */
  function Start(maxConcurrency: nat, tcpTimeout: nat): Mtcp {
    Mtcp(map[], [], [], [], [], [], [], [], [], [], false, maxConcurrency, tcpTimeout)
  }

  /** Every run from the start keeps the invariant, and neither internal queue ever needs more
      room than it was created with. */
  lemma FromStart(maxConcurrency: nat, tcpTimeout: nat, es: seq<Event>)
    requires Legal(Start(maxConcurrency, tcpTimeout), es)
    ensures var m := Run(Start(maxConcurrency, tcpTimeout), es);
            && Inv(m) && m.maxConcurrency == maxConcurrency
            && |m.closeqInt| + |m.closeq| <= maxConcurrency
            && |m.resetqInt| + |m.resetq| <= maxConcurrency
  {
    var m0 := Start(maxConcurrency, tcpTimeout);
    assert Inv(m0);
    InvAlways(m0, es);
    RunCapacity(m0, es);
    InternalQueuesNeverFull(Run(m0, es));
  }

  lemma {:induction false} RunCapacity(m: Mtcp, es: seq<Event>)
    ensures Run(m, es).maxConcurrency == m.maxConcurrency
    decreases |es|
  {
    if es != [] {
      RunCapacity(Next(m, es[0]), es[1..]);
    }
  }

  // ------------------------------------------------------------------------------------
  // State changes over runs
  // ------------------------------------------------------------------------------------

  /** The only changes of connection state a call makes. */
  predicate CloseTransition(a: TcpState, b: TcpState) {
    || (a == Established && b == FinWait1)
    || (a == CloseWait && b == LastAck)
    || (a != Closed && b == Closed)
  }

  /** A call changes the state of `x`; a stream it destroys counts with its last record. */
  predicate Changes(m: Mtcp, x: StreamId) {
    x in m.pool && Outcome(m, x).s.state != m.pool[x].state
  }

  /** A close or reset of `x` is pending. */
  predicate Owed(m: Mtcp, x: StreamId) {
    x in m.closeq || x in m.closeqInt || x in m.resetq || x in m.resetqInt
  }

  lemma JudgeChanges(stage: Stage, t: nat, s: Stream)
    ensures var v := Judge(stage, t, s);
            && (v.s.state != s.state ==> CloseTransition(s.state, v.s.state) && !v.Delay?)
            && (v.s.state != s.state ==> stage in {Close, CloseInt, Reset, ResetInt})
            && (v.Free? ==> v.s.state == Closed || stage == Destroy)
  {
  }

  lemma OutcomeChanges(m: Mtcp, x: StreamId)
    requires x in m.pool && OnePlace(m, x)
    ensures Changes(m, x) ==> CloseTransition(m.pool[x].state, Outcome(m, x).s.state)
    ensures Changes(m, x) ==> Owed(m, x) && !Outcome(m, x).Delay?
    ensures Outcome(m, x).Free? && x !in m.destroyq ==> Outcome(m, x).s.state == Closed
  {
    var s := Touched(m, x);
    assert s.state == m.pool[x].state by {
      TouchedFlags(m, x);
    }
    JudgeChanges(Close, m.tcpTimeout, s);
    JudgeChanges(CloseInt, m.tcpTimeout, s);
    JudgeChanges(Reset, m.tcpTimeout, s);
    JudgeChanges(ResetInt, m.tcpTimeout, s);
    JudgeChanges(Destroy, m.tcpTimeout, s);
  }

  /** Every state change is one of the three, has a pending request behind it, and uses that
      request up; a stream a request destroys dies in CLOSED. */
  lemma ChangeUsesRequest(m: Mtcp, x: StreamId)
    requires x in m.pool && OnePlace(m, x)
    ensures Changes(m, x) ==> CloseTransition(m.pool[x].state, Outcome(m, x).s.state)
    ensures Changes(m, x) ==> Owed(m, x) && !Owed(AfterCall(m), x)
    ensures Owed(AfterCall(m), x) ==> Owed(m, x)
    ensures Outcome(m, x).Free? && x !in m.destroyq ==> Outcome(m, x).s.state == Closed
  {
    OutcomeChanges(m, x);
    AfterCallQueues(m);
  }

  /** How often calls change the state of `x`, and how often a close or reset of it is asked. */
  function CountChanges(m: Mtcp, es: seq<Event>, x: StreamId): nat
    decreases |es|
  {
    if es == [] then 0
    else (if es[0].Call? && Changes(m, x) then 1 else 0) + CountChanges(Next(m, es[0]), es[1..], x)
  }

  function CountRequests(es: seq<Event>, x: StreamId): nat {
    if es == [] then 0
    else (if es[0] == PutClose(x) || es[0] == PutReset(x) then 1 else 0) + CountRequests(es[1..], x)
  }

  lemma OwedStep(m: Mtcp, e: Event, x: StreamId)
    requires Inv(m) && Allowed(m, e)
    ensures One(e.Call? && Changes(m, x)) + One(Owed(Next(m, e), x)) <=
            One(Owed(m, x)) + One(e == PutClose(x) || e == PutReset(x))
  {
    if e.Call? {
      if x in m.pool {
        assert OnePlace(m, x);
        ChangeUsesRequest(m, x);
      } else {
        AfterCallQueues(m);
      }
    }
  }

  /** Over every run, each close or reset request accounts for at most one state change,
      made at once or after a delay. */
  lemma {:induction false} ChangesPerRequest(m: Mtcp, es: seq<Event>, x: StreamId)
    requires Inv(m) && Legal(m, es)
    ensures CountChanges(m, es, x) + One(Owed(Run(m, es), x)) <= One(Owed(m, x)) + CountRequests(es, x)
    decreases |es|
  {
    if es != [] {
      StepKeepsInv(m, es[0]);
      OwedStep(m, es[0], x);
      ChangesPerRequest(Next(m, es[0]), es[1..], x);
    }
  }

  /** A stream closed at some point of a run is closed for as long as it lives, and a freed
      one never lives again. */
  lemma {:induction false} ClosedIsFinal(m: Mtcp, es: seq<Event>, x: StreamId)
    requires Inv(m) && Legal(m, es)
    requires (x in m.pool && m.pool[x].state == Closed) || x in m.freed
    ensures x in Run(m, es).pool ==> Run(m, es).pool[x].state == Closed
    ensures x in Run(m, es).pool || x in Run(m, es).freed
    ensures x in m.freed ==> x !in Run(m, es).pool
    decreases |es|
  {
    if es != [] {
      StepKeepsInv(m, es[0]);
      ClosedStep(m, es[0], x);
      ClosedIsFinal(Next(m, es[0]), es[1..], x);
    }
  }

  lemma ClosedStep(m: Mtcp, e: Event, x: StreamId)
    requires Inv(m) && Allowed(m, e)
    ensures x in m.freed ==> x in Next(m, e).freed
    ensures x in m.pool ==> x in Next(m, e).pool || x in Next(m, e).freed
    ensures x in m.pool && m.pool[x].state == Closed && x in Next(m, e).pool ==> Next(m, e).pool[x].state == Closed
  {
    if e.Call? && x in m.pool {
      assert OnePlace(m, x) && FlagsAgree(m, x);
      OutcomeChanges(m, x);
      OutcomeFlags(m, x);
      AfterCallAt(m, x);
      FreedMembers(Outcomes(m), m.closeq);
      FreedMembers(Outcomes(m), m.resetq);
    }
  }

  // ------------------------------------------------------------------------------------
  // Delayed requests
  // ------------------------------------------------------------------------------------

  /** What the rotation of the close queue finds: the control list still holds the stream. */
  predicate CloseBlocked(m: Mtcp, x: StreamId)
    requires x in m.pool
  {
    m.pool[x].on.control || x in m.connectq
  }

  predicate ResetBlocked(m: Mtcp, x: StreamId)
    requires x in m.pool
  {
    Busy(m.pool[x]) || x in m.connectq || x in m.sendq || x in m.ackq
  }

  /** The moves of a CLOSE (section 3.10.4 of RFC 9293): ESTABLISHED to FIN-WAIT-1 and CLOSE-WAIT
      to LAST-ACK, every other state as it is. */
  lemma CloseMoves(st: TcpState)
    ensures st == Established ==> AfterClose(st) == FinWait1
    ensures st == CloseWait ==> AfterClose(st) == LastAck
    ensures st != Established && st != CloseWait ==> AfterClose(st) == st
  {
  }

  /** The rotation of the close queue on one stream: what changes, and that nothing else does. */
  lemma RotatedClose(t: nat, s: Stream)
    ensures var v := Judge(CloseInt, t, s);
            if s.on.control then v == Delay(s)
            else && v.Keep? && !v.s.flags.closeqInt && (v.s.on.control <==> s.state != Closed)
                 && v.s.state == (match s.state case Established => FinWait1 case CloseWait => LastAck case st => st)
                 && v.s == s.(flags := s.flags.(closeqInt := false), on := s.on.(control := v.s.on.control),
                              state := v.s.state)
  {
    CloseMoves(s.state);
  }

  /** The rotation of the reset queue on one stream. */
  lemma RotatedReset(t: nat, s: Stream)
    ensures var v := Judge(ResetInt, t, s);
            if s.on.control || s.on.send || s.on.ack then v == Delay(s)
            else && v.Keep? && v.s.state == Closed && !v.s.flags.resetqInt
                 && (s.state != Closed ==> v.s.closeReason == ActiveClose && v.s.on.control)
                 && (s.state == Closed ==> v.s.closeReason == s.closeReason && !v.s.on.control)
                 && v.s == s.(flags := s.flags.(resetqInt := false), on := s.on.(control := v.s.on.control),
                              state := Closed, closeReason := v.s.closeReason)
  {
  }

  lemma DelayedCloseOutcome(m: Mtcp, x: StreamId)
    requires x in m.pool && OnePlace(m, x) && x in m.closeqInt
    ensures var v, st := Outcome(m, x), m.pool[x].state;
            if CloseBlocked(m, x) then v.Delay? && v.s.state == st
            else && v.Keep? && !v.s.flags.closeqInt && (v.s.on.control <==> st != Closed)
                 && v.s.state == (match st case Established => FinWait1 case CloseWait => LastAck case _ => st)
  {
    TouchedFlags(m, x);
    RotatedClose(m.tcpTimeout, Touched(m, x));
  }

  lemma DelayedResetOutcome(m: Mtcp, x: StreamId)
    requires x in m.pool && OnePlace(m, x) && x in m.resetqInt
    ensures var v := Outcome(m, x);
            if ResetBlocked(m, x) then v.Delay? && v.s.state == m.pool[x].state
            else && v.Keep? && v.s.state == Closed && !v.s.flags.resetqInt
                 && (m.pool[x].state != Closed ==> v.s.closeReason == ActiveClose && v.s.on.control)
  {
    TouchedFlags(m, x);
    RotatedReset(m.tcpTimeout, Touched(m, x));
  }

  /** A delayed close is acted on in the first call that finds it unblocked, and waits exactly
      until then. */
  lemma DelayedClose(m: Mtcp, x: StreamId)
    requires x in m.pool && OnePlace(m, x) && x in m.closeqInt
    ensures x in AfterCall(m).closeqInt <==> CloseBlocked(m, x)
    ensures x in AfterCall(m).pool
    ensures var s := AfterCall(m).pool[x];
            var st := m.pool[x].state;
            if CloseBlocked(m, x) then s.state == st
            else && s.state == (match st case Established => FinWait1 case CloseWait => LastAck case _ => st)
                 && !s.flags.closeqInt && (s.on.control <==> st != Closed)
  {
    DelayedCloseOutcome(m, x);
    AfterCallAt(m, x);
    AfterCallQueues(m);
  }

  /** The same for a delayed reset, which waits for all three lists of the sender. */
  lemma DelayedReset(m: Mtcp, x: StreamId)
    requires x in m.pool && OnePlace(m, x) && x in m.resetqInt
    ensures x in AfterCall(m).resetqInt <==> ResetBlocked(m, x)
    ensures x in AfterCall(m).pool
    ensures var s := AfterCall(m).pool[x];
            if ResetBlocked(m, x) then s.state == m.pool[x].state
            else && s.state == Closed && !s.flags.resetqInt
                 && (m.pool[x].state != Closed ==> s.closeReason == ActiveClose && s.on.control)
  {
    DelayedResetOutcome(m, x);
    AfterCallAt(m, x);
    AfterCallQueues(m);
  }

  /** The close loop on one stream: what it decides, what changes, and that nothing else does. */
  lemma DrainedClose(t: nat, s: Stream)
    ensures var v := Judge(Close, t, s);
            var st, held := s.state, s.on.control || s.on.send || s.on.ack;
            && (v.Free? <==> s.haveReset && st != Closed)
            && (v.Delay? <==> !s.haveReset && s.on.control)
            && (!s.haveReset && !s.on.control ==>
                  && v.s.state == (match st case Established => FinWait1 case CloseWait => LastAck case _ => st)
                  && (held ==> v.s.controlListWaiting && !v.s.on.control)
                  && (!held ==> v.s.controlListWaiting == s.controlListWaiting
                                && (v.s.on.control <==> st != Closed)))
            && (v.Free? ==> v.s.state == Closed && v.s.closeReason == TcpReset)
            && (!v.Free? && (s.haveReset || s.on.control) ==> v.s.state == st)
  {
    CloseMoves(s.state);
  }

  /** The bookkeeping of the close loop: the last sequence number is the end of the send buffer,
      modulo 2^32, or the next one to send; the stream leaves the timeout list, if there is one. */
  lemma DrainedCloseFields(t: nat, s: Stream)
    ensures var v := Judge(Close, t, s);
            && v.s.num.fss == (match s.num.sndbuf
                               case Some(b) => (b.headSeq + b.len) % 0x1_0000_0000
                               case None => s.num.sndNxt)
            && (t > 0 ==> !v.s.onTimeoutList) && (t == 0 ==> v.s.onTimeoutList == s.onTimeoutList)
            && v.s.flags == s.flags.(closeq := false, closeqInt := v.Delay? || s.flags.closeqInt)
            && (!v.Free? ==> v.s.closeReason == s.closeReason)
            && v.s == s.(state := v.s.state, closeReason := v.s.closeReason, num := s.num.(fss := v.s.num.fss),
                         onTimeoutList := v.s.onTimeoutList, flags := v.s.flags,
                         controlListWaiting := v.s.controlListWaiting, on := s.on.(control := v.s.on.control))
  {
  }

  /** A new close destroys the stream if the peer has reset it, waits if the control list holds it,
      and is acted on in any other case: the stream is put on the control list at once, or marked
      to be put there while data or acknowledgements are still queued. Acting on it changes the
      state exactly if that is ESTABLISHED or CLOSE-WAIT. */
  lemma FreshClose(m: Mtcp, x: StreamId)
    requires x in m.pool && OnePlace(m, x) && x in m.closeq
    ensures x !in AfterCall(m).pool <==> m.pool[x].haveReset && m.pool[x].state != Closed
    ensures x in AfterCall(m).closeqInt <==> !m.pool[x].haveReset && CloseBlocked(m, x)
    ensures !m.pool[x].haveReset && !CloseBlocked(m, x) ==>
              var s, st := AfterCall(m).pool[x], m.pool[x].state;
              && s.state == (match st case Established => FinWait1 case CloseWait => LastAck case _ => st)
              && (if ResetBlocked(m, x) then s.controlListWaiting && !s.on.control
                  else st != Closed ==> s.on.control)
              && (Changes(m, x) <==> st == Established || st == CloseWait)
  {
    TouchedFlags(m, x);
    DrainedClose(m.tcpTimeout, Touched(m, x));
    AfterCallAt(m, x);
    AfterCallQueues(m);
  }

  /** The reset loop on one stream. */
  lemma DrainedReset(t: nat, s: Stream)
    ensures var v := Judge(Reset, t, s);
            var held := s.on.control || s.on.send || s.on.ack;
            && (v.Free? <==> s.haveReset && s.state != Closed)
            && (v.Delay? <==> !s.haveReset && held)
            && (!s.haveReset && !held ==> v.s.state == Closed)
            && (!s.haveReset && !held && s.state != Closed ==> v.s.closeReason == ActiveClose && v.s.on.control)
            && (v.Free? ==> v.s.state == Closed && v.s.closeReason == TcpReset)
            && (v.Delay? ==> v.s.state == s.state)
  {
  }

  lemma DrainedResetFields(t: nat, s: Stream)
    ensures var v := Judge(Reset, t, s);
            && (t > 0 ==> !v.s.onTimeoutList) && (t == 0 ==> v.s.onTimeoutList == s.onTimeoutList)
            && v.s.flags == s.flags.(resetq := false, resetqInt := v.Delay? || s.flags.resetqInt)
            && (v.s.state == s.state ==> v.s.closeReason == s.closeReason && v.s.on == s.on)
            && v.s == s.(state := v.s.state, closeReason := v.s.closeReason, onTimeoutList := v.s.onTimeoutList,
                         flags := v.s.flags, on := s.on.(control := v.s.on.control))
  {
  }

  /** A new reset destroys the stream if the peer has reset it, waits while any of the three lists
      holds it, and otherwise closes it. */
  lemma FreshReset(m: Mtcp, x: StreamId)
    requires x in m.pool && OnePlace(m, x) && x in m.resetq
    ensures x !in AfterCall(m).pool <==> m.pool[x].haveReset && m.pool[x].state != Closed
    ensures x in AfterCall(m).resetqInt <==> !m.pool[x].haveReset && ResetBlocked(m, x)
    ensures !m.pool[x].haveReset && !ResetBlocked(m, x) ==>
              var s := AfterCall(m).pool[x];
              && s.state == Closed
              && (m.pool[x].state != Closed ==> s.closeReason == ActiveClose && s.on.control)
  {
    TouchedFlags(m, x);
    DrainedReset(m.tcpTimeout, Touched(m, x));
    AfterCallAt(m, x);
    AfterCallQueues(m);
  }

  /** Every call of the run finds the delayed close of `x` blocked. */
  ghost predicate BlockedThroughout(m: Mtcp, es: seq<Event>, x: StreamId)
    decreases |es|
  {
    es != [] ==>
      && (es[0].Call? ==> x in m.pool && CloseBlocked(m, x))
      && BlockedThroughout(Next(m, es[0]), es[1..], x)
  }

  /** A blocked close stays queued over any run: neither lost, nor repeated, nor acted on early. */
  lemma {:induction false} BlockedCloseWaits(m: Mtcp, es: seq<Event>, x: StreamId)
    requires Inv(m) && Legal(m, es) && x in m.closeqInt && BlockedThroughout(m, es, x)
    ensures x in Run(m, es).closeqInt && CountChanges(m, es, x) == 0
    decreases |es|
  {
    if es != [] {
      assert x in m.pool && OnePlace(m, x);
      if es[0].Call? {
        DelayedCloseOutcome(m, x);
        AfterCallQueues(m);
      }
      StepKeepsInv(m, es[0]);
      BlockedCloseWaits(Next(m, es[0]), es[1..], x);
    }
  }

  /** Every call of the run finds the delayed reset of `x` blocked. */
  ghost predicate ResetBlockedThroughout(m: Mtcp, es: seq<Event>, x: StreamId)
    decreases |es|
  {
    es != [] ==>
      && (es[0].Call? ==> x in m.pool && ResetBlocked(m, x))
      && ResetBlockedThroughout(Next(m, es[0]), es[1..], x)
  }

  /** So does a blocked reset. */
  lemma {:induction false} BlockedResetWaits(m: Mtcp, es: seq<Event>, x: StreamId)
    requires Inv(m) && Legal(m, es) && x in m.resetqInt && ResetBlockedThroughout(m, es, x)
    ensures x in Run(m, es).resetqInt && CountChanges(m, es, x) == 0
    decreases |es|
  {
    if es != [] {
      assert x in m.pool && OnePlace(m, x);
      if es[0].Call? {
        DelayedResetOutcome(m, x);
        AfterCallQueues(m);
      }
      StepKeepsInv(m, es[0]);
      BlockedResetWaits(Next(m, es[0]), es[1..], x);
    }
  }

  lemma {:induction false} LastEvent(m: Mtcp, es: seq<Event>, e: Event)
    ensures Run(m, es + [e]) == Next(Run(m, es), e)
    ensures Legal(m, es + [e]) <==> Legal(m, es) && Allowed(Run(m, es), e)
    decreases |es|
  {
    if es == [] {
      assert es + [e] == [e];
    } else {
      LastEvent(Next(m, es[0]), es[1..], e);
      assert (es + [e])[1..] == es[1..] + [e];
    }
  }

  lemma {:induction false} LastChange(m: Mtcp, es: seq<Event>, e: Event, x: StreamId)
    ensures CountChanges(m, es + [e], x) ==
            CountChanges(m, es, x) + (if e.Call? && Changes(Run(m, es), x) then 1 else 0)
    decreases |es|
  {
    if es == [] {
      assert es + [e] == [e] && [e][1..] == [];
    } else {
      LastChange(Next(m, es[0]), es[1..], e, x);
      assert (es + [e])[1..] == es[1..] + [e];
    }
  }

  /** A close delayed through any run is acted on in the first call that finds it unblocked. It
      causes no state change before, and exactly one then if the stream is in ESTABLISHED or
      CLOSE-WAIT. */
  lemma DelayedCloseActedOn(m: Mtcp, pre: seq<Event>, x: StreamId)
    requires Inv(m) && Legal(m, pre + [Call]) && x in m.closeqInt && BlockedThroughout(m, pre, x)
    requires x in Run(m, pre).pool ==> !CloseBlocked(Run(m, pre), x)
    ensures CountChanges(m, pre, x) == 0
    ensures var m1, m2 := Run(m, pre), Run(m, pre + [Call]);
            && x in m1.pool && x in m2.pool && x !in m2.closeqInt
            && var st := m1.pool[x].state;
            && m2.pool[x].state == (match st case Established => FinWait1 case CloseWait => LastAck case _ => st)
            && (m2.pool[x].on.control <==> st != Closed)
            && CountChanges(m, pre + [Call], x) == (if st == Established || st == CloseWait then 1 else 0)
  {
    LastEvent(m, pre, Call);
    LastChange(m, pre, Call, x);
    InvAlways(m, pre);
    BlockedCloseWaits(m, pre, x);
    var m1 := Run(m, pre);
    assert x in m1.pool && OnePlace(m1, x);
    DelayedClose(m1, x);
    DelayedCloseOutcome(m1, x);
  }

  /** The same for a reset, which ends in CLOSED. */
  lemma DelayedResetActedOn(m: Mtcp, pre: seq<Event>, x: StreamId)
    requires Inv(m) && Legal(m, pre + [Call]) && x in m.resetqInt && ResetBlockedThroughout(m, pre, x)
    requires x in Run(m, pre).pool ==> !ResetBlocked(Run(m, pre), x)
    ensures CountChanges(m, pre, x) == 0
    ensures var m1, m2 := Run(m, pre), Run(m, pre + [Call]);
            && x in m1.pool && x in m2.pool && x !in m2.resetqInt
            && m2.pool[x].state == Closed
            && (m1.pool[x].state != Closed ==> m2.pool[x].closeReason == ActiveClose && m2.pool[x].on.control)
            && CountChanges(m, pre + [Call], x) == (if m1.pool[x].state != Closed then 1 else 0)
  {
    LastEvent(m, pre, Call);
    LastChange(m, pre, Call, x);
    InvAlways(m, pre);
    BlockedResetWaits(m, pre, x);
    var m1 := Run(m, pre);
    assert x in m1.pool && OnePlace(m1, x);
    DelayedReset(m1, x);
    DelayedResetOutcome(m1, x);
  }

  // ------------------------------------------------------------------------------------
  // Why a second request must wait
  // ------------------------------------------------------------------------------------

  /** Were a stream put on the reset queue while its close is delayed, the reset loop would destroy
      it and leave it on the internal close queue, exactly when its peer has reset it, it is not
      closed yet and the control list holds it. */
  lemma SecondRequestDangles(t: nat, p: Pool, closeqInt: seq<StreamId>, resetq: seq<StreamId>, x: StreamId)
    requires x in p && x in closeqInt && x in resetq
    ensures var j := JudgeAll(CloseInt, t, p);
            var p1 := PoolAfter(j, closeqInt, p);
            var p2 := PoolAfter(JudgeAll(Reset, t, p1), resetq, p1);
            x in Delayed(j, closeqInt) && x !in p2 <==>
            p[x].haveReset && p[x].state != Closed && p[x].on.control
  {
    var j := JudgeAll(CloseInt, t, p);
    DelayedMembers(j, closeqInt);
    RotatedClose(t, p[x]);
    DrainedReset(t, j[x].s);
  }
}

/**
 * HandleApplicationCalls as the code runs it: loops that dequeue, update the stream record in
 * place and re-enqueue (example_code/core.c). Each loop is proved against its stage in
 * StreamQueues, the whole call against `AfterCall`.
 */
module StreamManager {
  import opened Basics
  import opened Seqs
  import opened StreamQueues

  class Manager {
    var pool: Pool
    var connectq: seq<StreamId>
    var sendq: seq<StreamId>
    var ackq: seq<StreamId>
    var closeq: seq<StreamId>
    var closeqInt: seq<StreamId>
    var resetq: seq<StreamId>
    var resetqInt: seq<StreamId>
    var destroyq: seq<StreamId>
    var wakeup: bool
    const maxConcurrency: nat
    const tcpTimeout: nat
    ghost var freed: seq<StreamId>

    constructor (maxConcurrency: nat, tcpTimeout: nat)
      ensures View() == Mtcp(map[], [], [], [], [], [], [], [], [], [], false, maxConcurrency, tcpTimeout)
      ensures Inv(View())
    {
      this.maxConcurrency, this.tcpTimeout := maxConcurrency, tcpTimeout;
      pool, connectq, sendq, ackq, destroyq, wakeup := map[], [], [], [], [], false;
      closeq, closeqInt, resetq, resetqInt, freed := [], [], [], [], [];
    }

    ghost function View(): Mtcp
      reads this
    {
      Mtcp(pool, connectq, sendq, ackq, closeq, closeqInt, resetq, resetqInt, destroyq, freed,
           wakeup, maxConcurrency, tcpTimeout)
    }

    method DrainConnect()
      requires AllLive(connectq, pool)
      modifies this`pool, this`connectq
      ensures connectq == []
      ensures pool == PoolAfter(JudgeAll(Connect, tcpTimeout, old(pool)), old(connectq), old(pool))
    {
      ghost var q, p, i := connectq, pool, 0;
      ghost var j := JudgeAll(Connect, tcpTimeout, p);
      while connectq != []
        invariant 0 <= i <= |q| && connectq == q[i..]
        invariant pool == PoolAfter(j, q[..i], p)
      {
        var x := connectq[0];
        TouchStep(Connect, tcpTimeout, q, i, p);
        connectq := connectq[1..];
        pool := pool[x := pool[x].(on := pool[x].on.(control := true))];
        i := i + 1;
      }
      assert q[..i] == q;
    }

    method DrainSend()
      requires AllLive(sendq, pool)
      modifies this`pool, this`sendq
      ensures sendq == []
      ensures pool == PoolAfter(JudgeAll(Send, tcpTimeout, old(pool)), old(sendq), old(pool))
    {
      ghost var q, p, i := sendq, pool, 0;
      ghost var j := JudgeAll(Send, tcpTimeout, p);
      while sendq != []
        invariant 0 <= i <= |q| && sendq == q[i..]
        invariant pool == PoolAfter(j, q[..i], p)
      {
        var x := sendq[0];
        TouchStep(Send, tcpTimeout, q, i, p);
        sendq := sendq[1..];
        var s := pool[x].(flags := pool[x].flags.(sendq := false));
        pool := pool[x := s.(on := s.on.(send := true))];
        i := i + 1;
      }
      assert q[..i] == q;
    }

    method DrainAck()
      requires AllLive(ackq, pool)
      modifies this`pool, this`ackq
      ensures ackq == []
      ensures pool == PoolAfter(JudgeAll(Ack, tcpTimeout, old(pool)), old(ackq), old(pool))
    {
      ghost var q, p, i := ackq, pool, 0;
      ghost var j := JudgeAll(Ack, tcpTimeout, p);
      while ackq != []
        invariant 0 <= i <= |q| && ackq == q[i..]
        invariant pool == PoolAfter(j, q[..i], p)
      {
        var x := ackq[0];
        TouchStep(Ack, tcpTimeout, q, i, p);
        ackq := ackq[1..];
        var s := pool[x].(flags := pool[x].flags.(ackq := false));
        pool := pool[x := s.(on := s.on.(ack := true))];
        i := i + 1;
      }
      assert q[..i] == q;
    }

    /** Writes the outcome of one turn back: the record into the pool, the stream onto the
        internal queue `qi` (which drops it when full), or the stream back to the pool
        (DestroyTCPStream). */
    method Settle(x: StreamId, v: Verdict, qi: seq<StreamId>) returns (qi': seq<StreamId>)
      requires x in pool
      requires v.Delay? ==> |qi| < maxConcurrency
      modifies this`pool, this`freed
      ensures Settled(v, x, old(pool), pool, qi, qi', old(freed), freed)
    {
      qi' := qi;
      match v {
        case Keep(s) =>
          pool := pool[x := s];
        case Delay(s) =>
          pool := pool[x := s];
          if |qi| < maxConcurrency {
            qi' := qi + [x];
          }
        case Free(_) =>
          pool := pool - {x};
          freed := freed + [x];
      }
    }

    /** One stream of the close queue. */
    method CloseOne(stream: Stream) returns (v: Verdict)
      ensures v == Judge(Close, tcpTimeout, stream)
    {
      var fss, onTimeoutList := stream.num.sndNxt, stream.onTimeoutList;
      if stream.num.sndbuf.Some? {
        fss := (stream.num.sndbuf.value.headSeq + stream.num.sndbuf.value.len) % SEQ_MOD;
      }
      if tcpTimeout > 0 {
        onTimeoutList := false;
      }
      var s := stream.(flags := stream.flags.(closeq := false), num := stream.num.(fss := fss),
                       onTimeoutList := onTimeoutList);
      v := DecideClose(s);
    }

    method DecideClose(stream: Stream) returns (v: Verdict)
      ensures v == JudgeClose(stream)
    {
      var s := stream;
      if s.haveReset {
        if s.state != Closed {
          return Free(s.(closeReason := TcpReset, state := Closed));
        }
      } else if s.on.control {
        return Delay(s.(flags := s.flags.(closeqInt := true)));
      } else if s.on.send || s.on.ack {
        if s.state == Established {
          s := s.(state := FinWait1);
        } else if s.state == CloseWait {
          s := s.(state := LastAck);
        }
        s := s.(controlListWaiting := true);
      } else if s.state != Closed {
        if s.state == Established {
          s := s.(state := FinWait1);
        } else if s.state == CloseWait {
          s := s.(state := LastAck);
        }
        s := s.(on := s.on.(control := true));
      }
      return Keep(s);
    }

    /** One stream of the internal close queue; a blocked one is put back. */
    method CloseIntOne(stream: Stream) returns (v: Verdict)
      ensures v == Judge(CloseInt, tcpTimeout, stream)
    {
      var s := stream;
      if s.on.control {
        return Delay(s);
      } else if s.state != Closed {
        s := s.(flags := s.flags.(closeqInt := false));
        if s.state == Established {
          s := s.(state := FinWait1);
        } else if s.state == CloseWait {
          s := s.(state := LastAck);
        }
        return Keep(s.(on := s.on.(control := true)));
      }
      return Keep(s.(flags := s.flags.(closeqInt := false)));
    }

    /** One stream of the reset queue. */
    method ResetOne(stream: Stream) returns (v: Verdict)
      ensures v == Judge(Reset, tcpTimeout, stream)
    {
      var onTimeoutList := stream.onTimeoutList;
      if tcpTimeout > 0 {
        onTimeoutList := false;
      }
      var s := stream.(flags := stream.flags.(resetq := false), onTimeoutList := onTimeoutList);
      if s.haveReset {
        if s.state != Closed {
          return Free(s.(closeReason := TcpReset, state := Closed));
        }
      } else if s.on.control || s.on.send || s.on.ack {
        return Delay(s.(flags := s.flags.(resetqInt := true)));
      } else if s.state != Closed {
        s := s.(closeReason := ActiveClose, state := Closed, on := s.on.(control := true));
      }
      return Keep(s);
    }

    /** One stream of the internal reset queue; a blocked one is put back. */
    method ResetIntOne(stream: Stream) returns (v: Verdict)
      ensures v == Judge(ResetInt, tcpTimeout, stream)
    {
      var s := stream;
      if s.on.control || s.on.send || s.on.ack {
        return Delay(s);
      }
      s := s.(flags := s.flags.(resetqInt := false));
      if s.state != Closed {
        s := s.(closeReason := ActiveClose, state := Closed, on := s.on.(control := true));
      }
      return Keep(s);
    }

    method DrainClose()
      requires AllLive(closeq, pool) && NoDup(closeq)
      requires |closeqInt| + |closeq| <= maxConcurrency
      modifies this`pool, this`closeq, this`closeqInt, this`freed
      ensures closeq == []
      ensures var j := JudgeAll(Close, tcpTimeout, old(pool));
              && pool == PoolAfter(j, old(closeq), old(pool))
              && closeqInt == old(closeqInt) + Delayed(j, old(closeq))
              && freed == old(freed) + Freed(j, old(closeq))
    {
      ghost var q, p, qi, f, i := closeq, pool, closeqInt, freed, 0;
      ghost var j := JudgeAll(Close, tcpTimeout, p);
      ProgressStart(j, q, p, qi, f);
      while closeq != []
        invariant i <= |q| && closeq == q[i..]
        invariant Progress(j, q, i, p, pool, qi, closeqInt, f, freed)
      {
        ghost var p1, qi1, f1 := pool, closeqInt, freed;
        ProgressAhead(j, q, i, p, p1, qi, qi1, f, f1);
        var x := closeq[0];
        closeq := closeq[1..];
        var v := CloseOne(pool[x]);
        closeqInt := Settle(x, v, closeqInt);
        ProgressStep(j, q, i, p, p1, pool, qi, qi1, closeqInt, f, f1, freed);
        i := i + 1;
      }
      assert i == |q|;
      ProgressEnd(j, q, p, pool, qi, closeqInt, f, freed);
    }

    method RotateCloseInt()
      requires AllLive(closeqInt, pool) && NoDup(closeqInt) && |closeqInt| <= maxConcurrency
      modifies this`pool, this`closeqInt, this`freed
      ensures var j := JudgeAll(CloseInt, tcpTimeout, old(pool));
              && pool == PoolAfter(j, old(closeqInt), old(pool))
              && closeqInt == Delayed(j, old(closeqInt))
              && freed == old(freed)
    {
      ghost var q, p, f := closeqInt, pool, freed;
      ghost var j := JudgeAll(CloseInt, tcpTimeout, p);
      ghost var back: seq<StreamId> := [];
      ProgressStart(j, q, p, [], f);
      var cnt, maxCnt := 0, |closeqInt|;
      while cnt < maxCnt
        invariant cnt <= maxCnt == |q|
        invariant closeqInt == q[cnt..] + back
        invariant Progress(j, q, cnt, p, pool, [], back, f, freed)
      {
        ghost var p1, f1 := pool, freed;
        ProgressAhead(j, q, cnt, p, p1, [], back, f, f1);
        var x := closeqInt[0];
        closeqInt := closeqInt[1..];
        assert closeqInt == q[cnt + 1..] + back;
        var v := CloseIntOne(pool[x]);
        closeqInt := Settle(x, v, closeqInt);
        RotateStep(j, q, cnt, p, p1, pool, q[cnt + 1..], back, closeqInt, f, f1, freed);
        back := if v.Delay? then back + [x] else back;
        cnt := cnt + 1;
      }
      ProgressEnd(j, q, p, pool, [], back, f, freed);
      RotationFreesNone(CloseInt, tcpTimeout, q, p);
    }

    method DrainReset()
      requires AllLive(resetq, pool) && NoDup(resetq)
      requires |resetqInt| + |resetq| <= maxConcurrency
      modifies this`pool, this`resetq, this`resetqInt, this`freed
      ensures resetq == []
      ensures var j := JudgeAll(Reset, tcpTimeout, old(pool));
              && pool == PoolAfter(j, old(resetq), old(pool))
              && resetqInt == old(resetqInt) + Delayed(j, old(resetq))
              && freed == old(freed) + Freed(j, old(resetq))
    {
      ghost var q, p, qi, f, i := resetq, pool, resetqInt, freed, 0;
      ghost var j := JudgeAll(Reset, tcpTimeout, p);
      ProgressStart(j, q, p, qi, f);
      while resetq != []
        invariant i <= |q| && resetq == q[i..]
        invariant Progress(j, q, i, p, pool, qi, resetqInt, f, freed)
      {
        ghost var p1, qi1, f1 := pool, resetqInt, freed;
        ProgressAhead(j, q, i, p, p1, qi, qi1, f, f1);
        var x := resetq[0];
        resetq := resetq[1..];
        var v := ResetOne(pool[x]);
        resetqInt := Settle(x, v, resetqInt);
        ProgressStep(j, q, i, p, p1, pool, qi, qi1, resetqInt, f, f1, freed);
        i := i + 1;
      }
      assert i == |q|;
      ProgressEnd(j, q, p, pool, qi, resetqInt, f, freed);
    }

    method RotateResetInt()
      requires AllLive(resetqInt, pool) && NoDup(resetqInt) && |resetqInt| <= maxConcurrency
      modifies this`pool, this`resetqInt, this`freed
      ensures var j := JudgeAll(ResetInt, tcpTimeout, old(pool));
              && pool == PoolAfter(j, old(resetqInt), old(pool))
              && resetqInt == Delayed(j, old(resetqInt))
              && freed == old(freed)
    {
      ghost var q, p, f := resetqInt, pool, freed;
      ghost var j := JudgeAll(ResetInt, tcpTimeout, p);
      ghost var back: seq<StreamId> := [];
      ProgressStart(j, q, p, [], f);
      var cnt, maxCnt := 0, |resetqInt|;
      while cnt < maxCnt
        invariant cnt <= maxCnt == |q|
        invariant resetqInt == q[cnt..] + back
        invariant Progress(j, q, cnt, p, pool, [], back, f, freed)
      {
        ghost var p1, f1 := pool, freed;
        ProgressAhead(j, q, cnt, p, p1, [], back, f, f1);
        var x := resetqInt[0];
        resetqInt := resetqInt[1..];
        assert resetqInt == q[cnt + 1..] + back;
        var v := ResetIntOne(pool[x]);
        resetqInt := Settle(x, v, resetqInt);
        RotateStep(j, q, cnt, p, p1, pool, q[cnt + 1..], back, resetqInt, f, f1, freed);
        back := if v.Delay? then back + [x] else back;
        cnt := cnt + 1;
      }
      ProgressEnd(j, q, p, pool, [], back, f, freed);
      RotationFreesNone(ResetInt, tcpTimeout, q, p);
    }

    method DrainDestroy()
      requires AllLive(destroyq, pool) && NoDup(destroyq)
      modifies this`pool, this`destroyq, this`freed
      ensures destroyq == []
      ensures var j := JudgeAll(Destroy, tcpTimeout, old(pool));
              && pool == PoolAfter(j, old(destroyq), old(pool))
              && freed == old(freed) + Freed(j, old(destroyq))
    {
      ghost var q, p, f, i := destroyq, pool, freed, 0;
      ghost var j := JudgeAll(Destroy, tcpTimeout, p);
      ProgressStart(j, q, p, [], f);
      while destroyq != []
        invariant i <= |q| && destroyq == q[i..]
        invariant Progress(j, q, i, p, pool, [], [], f, freed)
      {
        ghost var p1, f1 := pool, freed;
        ProgressAhead(j, q, i, p, p1, [], [], f, f1);
        var x := destroyq[0];
        destroyq := destroyq[1..];
        var _ := Settle(x, Free(pool[x]), []);
        ProgressStep(j, q, i, p, p1, pool, [], [], [], f, f1, freed);
        i := i + 1;
      }
      assert i == |q|;
      ProgressEnd(j, q, p, pool, [], [], f, freed);
    }

    method HandleNew()
      requires AllLive(connectq, pool) && AllLive(sendq, pool) && AllLive(ackq, pool)
      modifies this`pool, this`connectq, this`sendq, this`ackq
      ensures connectq == [] && sendq == [] && ackq == []
      ensures pool == TouchedPool(old(View()))
    {
      DrainConnect();
      assert AllLive(sendq, pool) && AllLive(ackq, pool);
      DrainSend();
      assert AllLive(ackq, pool);
      DrainAck();
    }

    method HandleCloses(ghost p: Pool, ghost qi: seq<StreamId>, ghost f: seq<StreamId>)
      requires PairReady(Close, CloseInt, tcpTimeout, closeq, closeqInt, pool, p, qi, f, maxConcurrency)
      modifies this`pool, this`closeq, this`closeqInt, this`freed
      ensures closeq == [] && pool == p && closeqInt == qi && freed == old(freed) + f
    {
      DrainClose();
      RotateCloseInt();
    }

    method HandleResets(ghost p: Pool, ghost qi: seq<StreamId>, ghost f: seq<StreamId>)
      requires PairReady(Reset, ResetInt, tcpTimeout, resetq, resetqInt, pool, p, qi, f, maxConcurrency)
      modifies this`pool, this`resetq, this`resetqInt, this`freed
      ensures resetq == [] && pool == p && resetqInt == qi && freed == old(freed) + f
    {
      DrainReset();
      RotateResetInt();
    }

    /** The loops from the reset handling on; `p5` and `p7` are the pools before the reset and the
        destroy handling. */
    method HandleLate(ghost m: Mtcp, ghost p5: Pool, ghost p7: Pool, ghost fr: seq<StreamId>)
      requires pool == p5
      requires PairReady(Reset, ResetInt, tcpTimeout, resetq, resetqInt, p5, p7, m.resetqInt, fr, maxConcurrency)
      requires AllLive(destroyq, p7) && NoDup(destroyq)
      requires var j := JudgeAll(Destroy, tcpTimeout, p7);
               PoolAfter(j, destroyq, p7) == m.pool && Freed(j, destroyq) == destroyq
      modifies this`pool, this`resetq, this`resetqInt, this`destroyq, this`freed
      ensures resetq == [] && destroyq == []
      ensures pool == m.pool && resetqInt == m.resetqInt
      ensures freed == old(freed) + fr + old(destroyq)
    {
      HandleResets(p7, m.resetqInt, fr);
      DrainDestroy();
    }

    /** The loops from the close handling on; `p3` is the pool before it. */
    method Handle(ghost m: Mtcp, ghost p3: Pool, ghost p5: Pool, ghost p7: Pool,
                  ghost fc: seq<StreamId>, ghost fr: seq<StreamId>)
      requires pool == p3
      requires PairReady(Close, CloseInt, tcpTimeout, closeq, closeqInt, p3, p5, m.closeqInt, fc, maxConcurrency)
      requires PairReady(Reset, ResetInt, tcpTimeout, resetq, resetqInt, p5, p7, m.resetqInt, fr, maxConcurrency)
      requires AllLive(destroyq, p7) && NoDup(destroyq)
      requires var j := JudgeAll(Destroy, tcpTimeout, p7);
               PoolAfter(j, destroyq, p7) == m.pool && Freed(j, destroyq) == destroyq
      modifies this`pool, this`closeq, this`closeqInt, this`resetq, this`resetqInt, this`destroyq, this`freed
      ensures closeq == resetq == destroyq == []
      ensures pool == m.pool && closeqInt == m.closeqInt && resetqInt == m.resetqInt
      ensures freed == old(freed) + fc + fr + old(destroyq)
    {
      HandleCloses(p5, m.closeqInt, fc);
      HandleLate(m, p5, p7, fr);
    }

    /** All loops in the order of the code, towards the state `g`. */
    method HandleAll(ghost g: Mtcp, ghost p3: Pool, ghost p5: Pool, ghost p7: Pool,
                     ghost fc: seq<StreamId>, ghost fr: seq<StreamId>)
      requires AllLive(connectq, pool) && AllLive(sendq, pool) && AllLive(ackq, pool)
      requires p3 == TouchedPool(View())
      requires PairReady(Close, CloseInt, tcpTimeout, closeq, closeqInt, p3, p5, g.closeqInt, fc, maxConcurrency)
      requires PairReady(Reset, ResetInt, tcpTimeout, resetq, resetqInt, p5, p7, g.resetqInt, fr, maxConcurrency)
      requires AllLive(destroyq, p7) && NoDup(destroyq)
      requires var j := JudgeAll(Destroy, tcpTimeout, p7);
               PoolAfter(j, destroyq, p7) == g.pool && Freed(j, destroyq) == destroyq
      requires g == Mtcp(g.pool, [], [], [], [], g.closeqInt, [], g.resetqInt, [],
                         freed + fc + fr + destroyq, false, maxConcurrency, tcpTimeout)
      modifies this
      ensures View() == g
    {
      HandleNew();
      Handle(g, p3, p5, p7, fc, fr);
      wakeup := false;
    }

    /** HandleApplicationCalls. */
    method HandleApplicationCalls()
      requires Inv(View())
      modifies this
      ensures View() == AfterCall(old(View()))
      ensures connectq == sendq == ackq == closeq == resetq == destroyq == [] && !wakeup
    {
      ghost var m := View();
      StagesCompose(m);
      HandleAll(AfterCall(m), TouchedPool(m), MiddlePool(m), LatePool(m),
                Freed(Outcomes(m), m.closeq), Freed(Outcomes(m), m.resetq));
    }
  }
}

/**
 * FlushEpollEvents (example_code/core.c): events move from the ring the stack fills to the ring
 * the application reads, both circular, in place.
 */
module EpollFlush {
  import opened Basics

  datatype Event = Event(sockid: int, events: bv32)

  /** The slot that lies `k` places behind `start` in a ring of `size` slots. */
  function Slot(start: nat, k: nat, size: nat): nat {
    if start + k < size then start + k else start + k - size
  }

  class EventQueue {
    const events: array<Event>
    const size: nat
    var start: nat
    var end: nat
    var numEvents: nat

    ghost predicate Valid()
      reads this
    {
      && events.Length == size && numEvents <= size
      && (size == 0 ==> start == 0 && end == 0)
      && (size > 0 ==> start < size && end < size)
      && end == if numEvents == size then start else Slot(start, numEvents, size)
    }

    /** The queued events, oldest first. */
    ghost function Contents(): (s: seq<Event>)
      requires Valid()
      reads this, events
      ensures |s| == numEvents
    {
      seq(numEvents, k requires 0 <= k < numEvents reads this, events requires Valid() => events[Slot(start, k, size)])
    }

    constructor (size: nat, filler: Event)
      ensures Valid() && fresh(events) && this.size == size && Contents() == []
    {
      events := new Event[size](_ => filler);
      this.size, start, end, numEvents := size, 0, 0, 0;
    }

    /** `events[start++]` with its wrap-around. */
    method Take() returns (e: Event)
      requires Valid() && numEvents > 0
      modifies this`start, this`numEvents
      ensures Valid()
      ensures [e] + Contents() == old(Contents())
    {
      e := events[start];
      start := start + 1;
      if start >= size {
        start := 0;
      }
      numEvents := numEvents - 1;
      assert forall k :: 0 <= k < numEvents ==> Slot(start, k, size) == Slot(old(start), k + 1, size);
    }

    /** `events[end++] = e` with its wrap-around. */
    method Put(e: Event)
      requires Valid() && numEvents < size
      modifies this`end, this`numEvents, events
      ensures Valid()
      ensures Contents() == old(Contents()) + [e]
    {
      events[end] := e;
      end := end + 1;
      if end >= size {
        end := 0;
      }
      numEvents := numEvents + 1;
      assert forall k :: 0 <= k < numEvents - 1 ==> Slot(start, k, size) != old(end);
    }
  }

  class Epoll {
    const usrq: EventQueue
    const shadow: EventQueue
    const mtcpq: EventQueue
    var waiting: bool
    var wakes: nat
    var lastEvent: nat

    constructor (usrq: EventQueue, shadow: EventQueue, mtcpq: EventQueue)
      ensures this.usrq == usrq && this.shadow == shadow && this.mtcpq == mtcpq && !waiting && wakes == 0
    {
      this.usrq, this.shadow, this.mtcpq := usrq, shadow, mtcpq;
      waiting, wakes, lastEvent := false, 0, 0;
    }

    ghost predicate Valid()
      reads this, usrq, shadow, mtcpq
    {
      && usrq.Valid() && mtcpq.Valid() && shadow.Valid()
      && usrq != mtcpq && usrq != shadow && mtcpq != shadow
      && usrq.events != mtcpq.events && usrq.events != shadow.events
    }

    /** One turn of the copy loop. */
    method MoveOne()
      requires Valid() && mtcpq.numEvents > 0 && usrq.numEvents < usrq.size
      modifies usrq`end, usrq`numEvents, usrq.events, mtcpq`start, mtcpq`numEvents
      ensures Valid()
      ensures usrq.Contents() + mtcpq.Contents() == old(usrq.Contents() + mtcpq.Contents())
      ensures usrq.numEvents == old(usrq.numEvents) + 1 && mtcpq.numEvents == old(mtcpq.numEvents) - 1
    {
      ghost var u := usrq.Contents();
      var e := mtcpq.Take();
      ghost var m := mtcpq.Contents();
      usrq.Put(e);
      assert mtcpq.Contents() == m;
      assert (u + [e]) + m == u + ([e] + m);
    }

    /** The copy loop: as many events move as there are and as fit, in order; none is lost,
        repeated or overtaken. */
    method MoveEvents()
      requires Valid()
      modifies usrq`end, usrq`numEvents, usrq.events, mtcpq`start, mtcpq`numEvents
      ensures Valid()
      ensures usrq.Contents() + mtcpq.Contents() == old(usrq.Contents() + mtcpq.Contents())
      ensures usrq.numEvents == old(usrq.numEvents + Min(usrq.size - usrq.numEvents, mtcpq.numEvents))
      ensures mtcpq.numEvents == 0 || usrq.numEvents == usrq.size
    {
      ghost var all := usrq.Contents() + mtcpq.Contents();
      while mtcpq.numEvents > 0 && usrq.numEvents < usrq.size
        invariant usrq.Valid() && mtcpq.Valid()
        invariant usrq.Contents() + mtcpq.Contents() == all
        invariant old(usrq.numEvents) <= usrq.numEvents
        invariant usrq.numEvents + mtcpq.numEvents == old(usrq.numEvents + mtcpq.numEvents)
        decreases mtcpq.numEvents
      {
        MoveOne();
      }
    }

    /** The sequence of pending events, those of the application first, is unchanged; afterwards
        either the stack's ring is empty or the application's is full. The application is
        signalled exactly when it waits and has something to read. */
    method FlushEpollEvents(now: nat) returns (signalled: bool)
      requires Valid()
      modifies usrq`end, usrq`numEvents, usrq.events, mtcpq`start, mtcpq`numEvents, this`wakes, this`lastEvent
      ensures Valid() && shadow.Contents() == old(shadow.Contents())
      ensures usrq.Contents() + mtcpq.Contents() == old(usrq.Contents() + mtcpq.Contents())
      ensures |usrq.Contents()| == old(|usrq.Contents()| + Min(usrq.size - |usrq.Contents()|, |mtcpq.Contents()|))
      ensures mtcpq.Contents() == [] || |usrq.Contents()| == usrq.size
      ensures signalled <==> waiting && (usrq.Contents() != [] || shadow.Contents() != [])
      ensures wakes == old(wakes) + (if signalled then 1 else 0)
      ensures lastEvent == if signalled then now else old(lastEvent)
    {
      if mtcpq.numEvents > 0 {
        MoveEvents();
      }
      signalled := Signal(now);
    }

    /** A waiting application is woken when it has something to read. */
    method Signal(now: nat) returns (signalled: bool)
      modifies this`wakes, this`lastEvent
      ensures signalled <==> waiting && (usrq.numEvents > 0 || shadow.numEvents > 0)
      ensures wakes == old(wakes) + (if signalled then 1 else 0)
      ensures lastEvent == if signalled then now else old(lastEvent)
    {
      signalled := waiting && (usrq.numEvents > 0 || shadow.numEvents > 0);
      if signalled {
        lastEvent := now;
        wakes := wakes + 1;
      }
    }
  }
}

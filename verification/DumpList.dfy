/**
 * The packet dump of a port (pktgen-2.8.6/app/pktgen-dump.c and pktgen_set_port_dump in
 * pktgen-2.8.6/app/pktgen-cmds.c): the first packets received after a request are kept in a list
 * of buffers until they are printed.
 */
module DumpList {
  import opened Basics

  const MAX_DUMP_PACKETS: nat := 32
  const NULL: nat := 0

  type Packet = seq<Byte>

  /** A dump_list entry: the address of a buffer (or NULL) and its length. */
  datatype Slot = Slot(data: nat, len: nat)

  /** A printed packet: its length with the checksum, and the bytes that were received. */
  datatype Printed = Printed(len: nat, bytes: seq<Byte>)

  type Heap = map<nat, seq<Byte>>

  predicate Listed(list: seq<Slot>, b: nat) {
    exists i :: 0 <= i < |list| && list[i].data == b
  }

  /** Every pointer in the list is a live buffer of its own, and there are no other buffers. */
  ghost predicate Owns(heap: Heap, list: seq<Slot>, nextBuffer: nat) {
    && |list| == MAX_DUMP_PACKETS && nextBuffer > NULL
    && (forall b :: b in heap ==> NULL < b < nextBuffer && Listed(list, b))
    && (forall i :: 0 <= i < |list| && list[i].data != NULL ==> list[i].data in heap)
    && (forall i, j :: 0 <= i < j < |list| && list[i].data != NULL ==> list[i].data != list[j].data)
  }

  lemma Released(heap: Heap, list: seq<Slot>, nextBuffer: nat, i: nat)
    requires Owns(heap, list, nextBuffer) && i < |list| && list[i].data != NULL
    ensures Owns(heap - {list[i].data}, list[i := list[i].(data := NULL)], nextBuffer)
  {
    var list' := list[i := list[i].(data := NULL)];
    forall b | b in heap && b != list[i].data ensures Listed(list', b) {
      var j :| 0 <= j < |list| && list[j].data == b;
      assert list'[j].data == b;
    }
  }

  lemma Stored(heap: Heap, list: seq<Slot>, nextBuffer: nat, i: nat, bytes: seq<Byte>)
    requires Owns(heap, list, nextBuffer) && i < |list| && list[i].data == NULL
    ensures Owns(heap[nextBuffer := bytes], list[i := Slot(nextBuffer, |bytes|)], nextBuffer + 1)
  {
    var list' := list[i := Slot(nextBuffer, |bytes|)];
    assert list'[i].data == nextBuffer;
    forall b | b in heap ensures Listed(list', b) {
      var j :| 0 <= j < |list| && list[j].data == b;
      assert list'[j].data == b;
    }
  }

  /** Slot `i` holds a copy of `p`, followed by the bytes malloc left for the checksum. */
  ghost predicate Holds(heap: Heap, slot: Slot, p: Packet) {
    && slot.data != NULL && slot.data in heap
    && slot.len == |p| + FCS_SIZE == |heap[slot.data]| && heap[slot.data][..|p|] == p
  }

  /** The entries from `head` to `tail` hold the packets of those numbers. */
  ghost predicate Pending(heap: Heap, list: seq<Slot>, head: nat, tail: nat, kept: seq<Packet>) {
    && tail <= |list| && tail <= |kept|
    && forall i :: head <= i < tail ==> Holds(heap, list[i], kept[i])
  }

  /** Freeing one entry leaves the others as they are. */
  lemma PendingAfterFree(heap: Heap, list: seq<Slot>, nextBuffer: nat, i: nat, head: nat, tail: nat, kept: seq<Packet>)
    requires Owns(heap, list, nextBuffer) && i < |list| && list[i].data != NULL && !(head <= i < tail)
    requires Pending(heap, list, head, tail, kept)
    ensures Pending(heap - {list[i].data}, list[i := list[i].(data := NULL)], head, tail, kept)
  {
    forall k | head <= k < tail
      ensures Holds(heap - {list[i].data}, list[i := list[i].(data := NULL)][k], kept[k]) {
      assert Holds(heap, list[k], kept[k]);
    }
  }

  /** A new buffer behind the pending ones extends them. */
  lemma PendingAfterStore(heap: Heap, list: seq<Slot>, nextBuffer: nat, head: nat, tail: nat, kept: seq<Packet>,
                          bytes: seq<Byte>)
    requires Owns(heap, list, nextBuffer) && head <= tail < |list| && tail < |kept|
    requires Pending(heap, list, head, tail, kept)
    requires |bytes| == |kept[tail]| + FCS_SIZE && bytes[..|kept[tail]|] == kept[tail]
    ensures Pending(heap[nextBuffer := bytes], list[tail := Slot(nextBuffer, |bytes|)], head, tail + 1, kept)
  {
    forall k | head <= k < tail
      ensures Holds(heap[nextBuffer := bytes], list[tail := Slot(nextBuffer, |bytes|)][k], kept[k]) {
      assert Holds(heap, list[k], kept[k]);
    }
  }

  /** How a packet is printed: its length with the checksum, and its bytes. */
  function Shown(p: Packet): (r: Printed)
    ensures r.len == |p| + 4 && r.bytes == p
  {
    Printed(|p| + FCS_SIZE, p)
  }

  /** The packets a request for `n` keeps: the first ones received. */
  function Kept(n: nat, received: seq<Packet>): seq<Packet> {
    received[..Min(n, |received|)]
  }

  class Port {
    /** The allocated buffers. */
    var heap: Heap
    var nextBuffer: nat
    var list: seq<Slot>
    var head: nat
    var tail: nat
    var count: nat
    /** The number of packets asked for, those received since, and what has been printed of them. */
    ghost var request: nat
    ghost var received: seq<Packet>
    ghost var printed: seq<Printed>

    ghost predicate Valid()
      reads this
    {
      var kept := Kept(request, received);
      && Owns(heap, list, nextBuffer)
      && request <= MAX_DUMP_PACKETS && |printed| == head <= tail == |kept| && count == request - tail
      && (forall i :: 0 <= i < head ==> printed[i] == Shown(kept[i]) && list[i].data == NULL)
      && Pending(heap, list, head, tail, kept)
    }

    constructor ()
      ensures Valid() && request == 0 && received == []
    {
      heap, nextBuffer, list := map[], 1, seq(MAX_DUMP_PACKETS, _ => Slot(NULL, 0));
      head, tail, count, request, received, printed := 0, 0, 0, 0, [], [];
    }

    /** rte_free and the assignment of NULL behind it. Freeing a buffer twice is ruled out: the
        buffer is still allocated. */
    method Free(i: nat)
      requires Owns(heap, list, nextBuffer) && i < |list| && list[i].data != NULL
      modifies this`heap, this`list
      ensures Owns(heap, list, nextBuffer)
      ensures heap == old(heap) - {old(list)[i].data} && list == old(list)[i := old(list)[i].(data := NULL)]
    {
      assert list[i].data in heap;
      Released(heap, list, nextBuffer, i);
      heap := heap - {list[i].data};
      list := list[i := list[i].(data := NULL)];
    }

    /** pktgen_set_port_dump. The loop looks at the first entry every time; the others keep their
        buffers until they are used again. */
    method SetPortDump(cnt: nat)
      requires Valid()
      modifies this
      ensures Valid() && request == Min(cnt, MAX_DUMP_PACKETS) && received == [] && printed == []
      ensures head == tail == 0 && count == request
      ensures list[0].data == NULL && forall i :: 0 < i < |list| ==> list[i] == old(list)[i]
    {
      count, tail, head := 0, 0, 0;
      for i := 0 to MAX_DUMP_PACKETS
        invariant Owns(heap, list, nextBuffer) && tail == head == 0 && |list| == |old(list)|
        invariant i > 0 ==> list[0].data == NULL
        invariant forall k :: 0 < k < |list| ==> list[k] == old(list)[k]
      {
        if list[0].data != NULL {
          Free(0);
        }
      }
      count := Min(cnt, MAX_DUMP_PACKETS);
      request, received, printed := count, [], [];
    }

    /** The entry at the tail gives back a buffer it still has from an earlier request. */
    method Vacate(ghost kept: seq<Packet>)
      requires Owns(heap, list, nextBuffer) && head <= tail < MAX_DUMP_PACKETS
      requires Pending(heap, list, head, tail, kept) && forall i :: 0 <= i < head ==> list[i].data == NULL
      modifies this`heap, this`list
      ensures Owns(heap, list, nextBuffer) && list[tail].data == NULL
      ensures Pending(heap, list, head, tail, kept) && forall i :: 0 <= i < head ==> list[i].data == NULL
    {
      if list[tail].data != NULL {
        PendingAfterFree(heap, list, nextBuffer, tail, head, tail, kept);
        Free(tail);
      }
    }

    /** pktgen_packet_dump: a new buffer with a copy of the packet in the entry at the tail. The
        bytes the copy does not reach are whatever malloc left there. */
    method PacketDump(p: Packet, ghost kept: seq<Packet>)
      requires Owns(heap, list, nextBuffer) && head <= tail < MAX_DUMP_PACKETS
      requires tail < |kept| && kept[tail] == p && Pending(heap, list, head, tail, kept)
      requires forall i :: 0 <= i < head ==> list[i].data == NULL
      modifies this`heap, this`nextBuffer, this`list, this`tail
      ensures Owns(heap, list, nextBuffer) && tail == old(tail) + 1 && Pending(heap, list, head, tail, kept)
      ensures forall i :: 0 <= i < head ==> list[i].data == NULL
    {
      Vacate(kept);
      assert |[0, 0, 0, 0]| == FCS_SIZE;
      var rest: seq<Byte> :| |rest| == FCS_SIZE;
      Stored(heap, list, nextBuffer, tail, p + rest);
      assert (p + rest)[..|p|] == p;
      PendingAfterStore(heap, list, nextBuffer, head, tail, kept, p + rest);
      heap := heap[nextBuffer := p + rest];
      list := list[tail := Slot(nextBuffer, |p| + FCS_SIZE)];
      nextBuffer := nextBuffer + 1;
      tail := tail + 1;
    }

    /** pktgen_packet_dump_bulk: as many packets as were asked for and not received yet. The list
        never overflows, so the second clamp changes nothing. */
    method DumpBulk(pkts: seq<Packet>)
      requires Valid()
      modifies this`heap, this`nextBuffer, this`list, this`tail, this`count, this`received
      ensures Valid() && received == old(received) + pkts
    {
      var nb := |pkts|;
      if nb > count {
        nb := count;
      }
      ghost var asked := nb;
      if nb > MAX_DUMP_PACKETS - tail {
        nb := MAX_DUMP_PACKETS - tail;
      }
      assert nb == asked;
      KeptGrows(request, received, pkts);
      ghost var kept := Kept(request, received + pkts);
      var i := 0;
      while i < nb
        invariant 0 <= i <= nb && count == old(count) && received == old(received)
        invariant Owns(heap, list, nextBuffer) && tail == old(tail) + i && Pending(heap, list, head, tail, kept)
        invariant forall k :: 0 <= k < head ==> list[k].data == NULL
      {
        PacketDump(pkts[i], kept);
        i := i + 1;
      }
      count := count - nb;
      received := received + pkts;
    }

    /** One pending packet is printed and its buffer freed. */
    method PrintOne() returns (shown: Printed)
      requires Valid() && head < tail
      modifies this`heap, this`list, this`head, this`printed
      ensures Valid() && head == old(head) + 1
      ensures shown == Shown(Kept(request, received)[old(head)]) && printed == old(printed) + [shown]
    {
      ghost var kept := Kept(request, received);
      assert Holds(heap, list[head], kept[head]);
      var slot := list[head];
      shown := Printed(slot.len, heap[slot.data][..slot.len - FCS_SIZE]);
      PendingAfterFree(heap, list, nextBuffer, head, head + 1, tail, kept);
      Free(head);
      printed := printed + [shown];
      head := head + 1;
    }

    /** The loop over the pending packets. */
    method PrintPending() returns (out: seq<Printed>)
      requires Valid()
      modifies this`heap, this`list, this`head, this`printed
      ensures Valid() && head == tail
      ensures printed == old(printed) + out
    {
      out := [];
      ghost var before := printed;
      assert printed == before + out;
      while head < tail
        invariant Valid()
        invariant printed == before + out
        decreases tail - head
      {
        var shown := PrintOne();
        assert before + out + [shown] == before + (out + [shown]);
        out := out + [shown];
      }
    }

    /** pktgen_print_packet_dump for this port: the pending packets in order. */
    method PrintDump() returns (out: seq<Printed>)
      requires Valid()
      modifies this`heap, this`list, this`head, this`printed
      ensures Valid() && head == tail && |out| == tail - old(head)
      ensures forall i :: 0 <= i < |out| ==> out[i] == Shown(Kept(request, received)[old(head) + i])
      ensures printed == old(printed) + out && old(head) + |out| <= |received|
      ensures forall i :: 0 <= i < |out| ==>
                out[i] == Printed(|received[old(head) + i]| + 4, received[old(head) + i])
    {
      out := PrintPending();
      NewlyPrinted(old(printed), out, Kept(request, received));
    }
  }

  lemma NewlyPrinted(before: seq<Printed>, out: seq<Printed>, kept: seq<Packet>)
    requires |before + out| <= |kept|
    requires forall i :: 0 <= i < |before + out| ==> (before + out)[i] == Shown(kept[i])
    ensures forall i :: 0 <= i < |out| ==> out[i] == Shown(kept[|before| + i])
  {
    forall i | 0 <= i < |out| ensures out[i] == Shown(kept[|before| + i]) {
      assert out[i] == (before + out)[|before| + i];
    }
  }

  lemma KeptGrows(n: nat, received: seq<Packet>, pkts: seq<Packet>)
    ensures var a, b := Kept(n, received), Kept(n, received + pkts);
            && |b| == |a| + Min(n - |a|, |pkts|)
            && (forall k :: 0 <= k < |a| ==> b[k] == a[k])
            && (forall k :: |a| <= k < |b| ==> b[k] == pkts[k - |a|])
  {
  }

  // ------------------------------------------------------------------------------------
  // Histories
  // ------------------------------------------------------------------------------------

  datatype Command = Ask(cnt: nat) | Receive(pkts: seq<Packet>) | Print

  /** One command, and what it does to the request and the packets received since. */
  method Perform(port: Port, c: Command)
    requires port.Valid()
    modifies port
    ensures port.Valid()
    ensures port.request == if c.Ask? then Min(c.cnt, MAX_DUMP_PACKETS) else old(port.request)
    ensures port.received == match c
                             case Ask(_) => []
                             case Receive(pkts) => old(port.received) + pkts
                             case Print => old(port.received)
  {
    match c {
      case Ask(cnt) => port.SetPortDump(cnt);
      case Receive(pkts) => port.DumpBulk(pkts);
      case Print => var _ := port.PrintDump();
    }
  }

  /** Any interleaving of requests, received batches and prints: what has been printed and what is
      still pending are the first packets received since the last request, in order; the buffers
      in use are exactly those in the list. */
  method History(commands: seq<Command>) returns (port: Port)
    ensures fresh(port) && port.Valid()
    ensures port.head <= port.tail && port.tail + port.count <= MAX_DUMP_PACKETS
    ensures var kept := Kept(LastRequest(commands), ReceivedSince(commands));
            && port.tail == |kept| && |port.printed| == port.head
            && (forall i :: 0 <= i < port.head ==> port.printed[i] == Shown(kept[i]))
            && Pending(port.heap, port.list, port.head, port.tail, kept)
    ensures var n, all := LastRequest(commands), ReceivedSince(commands);
            && port.tail <= |all| && (port.tail == n || port.tail == |all|) && port.tail <= n <= 32
            && (forall i :: 0 <= i < port.head ==> port.printed[i] == Printed(|all[i]| + 4, all[i]))
  {
    port := new Port();
    for i := 0 to |commands|
      invariant fresh(port) && port.Valid()
      invariant port.received == ReceivedSince(commands[..i]) && port.request == LastRequest(commands[..i])
    {
      assert commands[..i + 1][..i] == commands[..i];
      Perform(port, commands[i]);
    }
    assert commands[..|commands|] == commands;
  }

  /** The number of packets the last request asks for. */
  function LastRequest(commands: seq<Command>): nat {
    if commands == [] then 0
    else match commands[|commands| - 1]
         case Ask(cnt) => Min(cnt, MAX_DUMP_PACKETS)
         case _ => LastRequest(commands[..|commands| - 1])
  }

  /** The packets received since the last request. */
  function ReceivedSince(commands: seq<Command>): seq<Packet> {
    if commands == [] then []
    else
      var before := ReceivedSince(commands[..|commands| - 1]);
      match commands[|commands| - 1]
      case Ask(_) => []
      case Receive(pkts) => before + pkts
      case Print => before
  }
}

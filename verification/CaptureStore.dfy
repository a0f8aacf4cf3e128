/**
 * The packet capture store of pktgen (pktgen-2.8.6/app/pktgen-capture.c): a memory zone holding
 * length-prefixed records, a zero length marking the end of data.
 */
module CaptureStore {
  import opened Basics
  import opened Seqs

  /** An unsegmented packet: pkt_len and data_len, both 16 bits wide, are its length. */
  type Packet = p: seq<Byte> | |p| <= 65535 witness []

  const HDR: nat := 4

  // ------------------------------------------------------------------------------------
  // Records
  // ------------------------------------------------------------------------------------

  /** `(data_len + 1) & ~1`, computed in 32 bits. */
  function Padded(n: nat): (r: nat)
    ensures n <= r <= n + 1 && r % 2 == 0
  {
    (n + 1) / 2 * 2
  }

  /** Bytes a packet takes in the store. */
  function Footprint(p: Packet): (r: nat)
    ensures r >= HDR
  {
    HDR + Padded(|p|)
  }

  function Size(ps: seq<Packet>): nat {
    if ps == [] then 0 else Size(ps[..|ps| - 1]) + Footprint(ps[|ps| - 1])
  }

  /** The 16-bit header fields are stored in the byte order of a little-endian host; the second
      one keeps the low 16 bits of the padded length. */
  function Header(p: Packet): (h: seq<Byte>)
    ensures |h| == HDR
  {
    var d := Padded(|p|) % 65536;
    [|p| % 256, |p| / 256, d % 256, d / 256]
  }

  function Load16(a: seq<Byte>, off: nat): nat
    requires off + 2 <= |a|
  {
    var lo: int, hi: int := a[off], a[off + 1];
    lo + 256 * hi
  }

  /** The record of `p` is stored at `off`. The byte that pads a packet of odd length is
      whatever the memory held before. */
  predicate RecordIn(a: seq<Byte>, off: nat, p: Packet) {
    && off + Footprint(p) <= |a|
    && a[off..off + HDR] == Header(p)
    && a[off + HDR..off + HDR + |p|] == p
  }

  /** The first `tail` bytes of `a` are the records of `ps`, one behind the other. */
  ghost predicate Layout(a: seq<Byte>, ps: seq<Packet>, tail: nat) {
    && tail == Size(ps) <= |a|
    && forall k {:trigger RecordIn(a, Size(ps[..k]), ps[k])} :: 0 <= k < |ps| ==> RecordIn(a, Size(ps[..k]), ps[k])
  }

  /** What pcap_dump is given: the length and the stored bytes. */
  datatype Record = Record(len: nat, bytes: seq<Byte>)

  datatype Dump = Complete(records: seq<Record>) | Overrun(records: seq<Record>)

  function Prepend(r: Record, d: Dump): Dump {
    match d
    case Complete(rs) => Complete([r] + rs)
    case Overrun(rs) => Overrun([r] + rs)
  }

  /** What the dump loop finds at an offset: the end of the zone, the sentinel, or a record and
      the offset of the next one. */
  datatype Turn = Outside | Sentinel | Found(record: Record, next: nat)

  function Peek(a: seq<Byte>, off: nat): (t: Turn)
    ensures t.Found? ==> off < t.next <= |a|
  {
    if off + HDR > |a| then Outside
    else if Load16(a, off) == 0 then Sentinel
    else
      var next := off + HDR + Load16(a, off + 2);
      if next > |a| then Outside else Found(Record(Load16(a, off), a[off + HDR..next]), next)
  }

  /** The walk of the dump loop from offset `off`, as an independent reader of the format:
      Overrun when it leaves the memory zone. */
  function Walk(a: seq<Byte>, off: nat): Dump
    decreases |a| - off
  {
    match Peek(a, off)
    case Outside => Overrun([])
    case Sentinel => Complete([])
    case Found(r, next) => Prepend(r, Walk(a, next))
  }

  /** A dumped record stands for a captured packet. */
  predicate Shows(r: Record, p: Packet) {
    r.len == |p| && |r.bytes| == Padded(|p|) && r.bytes[..|p|] == p
  }

  predicate ShowsAll(rs: seq<Record>, ps: seq<Packet>) {
    |rs| == |ps| && forall i :: 0 <= i < |rs| ==> Shows(rs[i], ps[i])
  }

  /** The lengths that survive the 16-bit header. */
  predicate Storable(p: Packet) {
    1 <= |p| <= 65534
  }

  // ------------------------------------------------------------------------------------
  // Reading back
  // ------------------------------------------------------------------------------------

  lemma {:induction false} SizePrefix(ps: seq<Packet>, k: nat)
    requires k < |ps|
    ensures Size(ps[..k]) + Footprint(ps[k]) <= Size(ps)
    ensures Size(ps[..k + 1]) == Size(ps[..k]) + Footprint(ps[k])
  {
    assert ps[..k + 1][..k] == ps[..k];
    if k == |ps| - 1 {
      assert ps[..k + 1] == ps;
    } else {
      var init := ps[..|ps| - 1];
      SizePrefix(init, k);
      assert init[..k] == ps[..k];
    }
  }

  lemma HeaderLoads(a: seq<Byte>, off: nat, p: Packet)
    requires off + HDR <= |a| && a[off..off + HDR] == Header(p)
    ensures Load16(a, off) == |p| && Load16(a, off + 2) == Padded(|p|) % 65536
  {
    var h := a[off..off + HDR];
    assert a[off] == h[0] && a[off + 1] == h[1] && a[off + 2] == h[2] && a[off + 3] == h[3];
  }

  /** The walk from `off` ends at the sentinel and has shown exactly `ps`. */
  predicate Reads(a: seq<Byte>, off: nat, ps: seq<Packet>) {
    var d := Walk(a, off);
    d.Complete? && ShowsAll(d.records, ps)
  }

  predicate AllStorable(ps: seq<Packet>) {
    forall i :: 0 <= i < |ps| ==> Storable(ps[i])
  }

  lemma ConsShows(r: Record, rs: seq<Record>, p: Packet, ps: seq<Packet>)
    requires Shows(r, p)
    ensures ShowsAll([r] + rs, [p] + ps) <==> ShowsAll(rs, ps)
  {
    if ShowsAll([r] + rs, [p] + ps) {
      forall i | 0 <= i < |rs| ensures Shows(rs[i], ps[i]) {
        assert Shows(([r] + rs)[i + 1], ([p] + ps)[i + 1]);
      }
    }
  }

  /** A record of storable length is found as it was stored. */
  lemma PeekGood(a: seq<Byte>, off: nat, p: Packet)
    requires RecordIn(a, off, p) && Storable(p)
    ensures var t := Peek(a, off); t.Found? && t.next == off + Footprint(p) && Shows(t.record, p)
  {
    HeaderLoads(a, off, p);
    assert a[off + HDR..off + Footprint(p)][..|p|] == a[off + HDR..off + HDR + |p|];
  }

  /** A record of any other length is not. */
  lemma PeekBad(a: seq<Byte>, off: nat, p: Packet)
    requires RecordIn(a, off, p) && !Storable(p)
    ensures var t := Peek(a, off); t.Found? ==> !Shows(t.record, p)
  {
    HeaderLoads(a, off, p);
  }

  lemma WalkStep(a: seq<Byte>, off: nat, next: nat, p: Packet, ps: seq<Packet>)
    requires RecordIn(a, off, p) && next == off + Footprint(p)
    requires Reads(a, next, ps) <==> AllStorable(ps)
    ensures Reads(a, off, [p] + ps) <==> AllStorable([p] + ps)
  {
    assert ([p] + ps)[0] == p;
    if Storable(p) {
      PeekGood(a, off, p);
      var t := Peek(a, off);
      ConsShows(t.record, Walk(a, t.next).records, p, ps);
      assert AllStorable([p] + ps) <==> AllStorable(ps) by {
        assert forall i :: 0 <= i < |ps| ==> ps[i] == ([p] + ps)[i + 1];
      }
    } else {
      PeekBad(a, off, p);
    }
  }

  /** The walk from the k-th record shows the remaining packets if and only if each of them has
      a storable length: an empty packet ends the walk early, and a packet of 65535 bytes is
      stored with length zero. */
  lemma {:induction false} WalkFrom(a: seq<Byte>, ps: seq<Packet>, tail: nat, k: nat)
    requires Layout(a, ps, tail) && tail + HDR <= |a| && Load16(a, tail) == 0
    requires k <= |ps|
    ensures Reads(a, Size(ps[..k]), ps[k..]) <==> AllStorable(ps[k..])
    decreases |ps| - k
  {
    if k == |ps| {
      assert ps[..k] == ps;
    } else {
      assert RecordIn(a, Size(ps[..k]), ps[k]);
      SizePrefix(ps, k);
      WalkFrom(a, ps, tail, k + 1);
      WalkStep(a, Size(ps[..k]), Size(ps[..k + 1]), ps[k], ps[k + 1..]);
      assert ps[k..] == [ps[k]] + ps[k + 1..];
    }
  }

  // ------------------------------------------------------------------------------------
  // Writing
  // ------------------------------------------------------------------------------------

  /** `n` is the length of the longest prefix of `ps` that takes at most `room` bytes. */
  ghost predicate LongestFit(ps: seq<Packet>, n: nat, room: int) {
    n <= |ps| && Size(ps[..n]) <= room && (n < |ps| ==> Size(ps[..n + 1]) > room)
  }

  /** The packets of a batch that are stored when `room` bytes are left. */
  function Fit(ps: seq<Packet>, room: int): seq<Packet> {
    if ps == [] || Footprint(ps[0]) > room then [] else [ps[0]] + Fit(ps[1..], room - Footprint(ps[0]))
  }

  lemma {:induction false} SizeConcat(ps: seq<Packet>, qs: seq<Packet>)
    ensures Size(ps + qs) == Size(ps) + Size(qs)
  {
    if qs == [] {
      assert ps + qs == ps;
    } else {
      SizeConcat(ps, qs[..|qs| - 1]);
      assert (ps + qs)[..|ps + qs| - 1] == ps + qs[..|qs| - 1];
    }
  }

  lemma SizeFirst(ps: seq<Packet>)
    requires ps != []
    ensures Size(ps) == Footprint(ps[0]) + Size(ps[1..])
  {
    assert ps == [ps[0]] + ps[1..];
    SizeConcat([ps[0]], ps[1..]);
    assert [ps[0]][..0] == [];
  }

  lemma SizeShift(ps: seq<Packet>, n: nat)
    requires 0 < n <= |ps|
    ensures Size(ps[..n]) == Footprint(ps[0]) + Size(ps[1..][..n - 1])
  {
    SizeFirst(ps[..n]);
    assert ps[..n][1..] == ps[1..][..n - 1];
  }

  lemma LongestFitRest(ps: seq<Packet>, n: nat, room: int)
    requires LongestFit(ps, n, room) && n > 0
    ensures Footprint(ps[0]) <= room && LongestFit(ps[1..], n - 1, room - Footprint(ps[0]))
  {
    SizeShift(ps, n);
    if n < |ps| {
      SizeShift(ps, n + 1);
    }
  }

  /** Fit is the longest fitting prefix, and the only one. */
  lemma {:induction false} FitIsLongest(ps: seq<Packet>, n: nat, room: int)
    requires LongestFit(ps, n, room)
    ensures Fit(ps, room) == ps[..n]
  {
    if ps != [] {
      if n == 0 {
        SizeShift(ps, 1);
      } else {
        LongestFitRest(ps, n, room);
        FitIsLongest(ps[1..], n - 1, room - Footprint(ps[0]));
        assert ps[..n] == [ps[0]] + ps[1..][..n - 1];
      }
    }
  }

  lemma RecordFrame(a: seq<Byte>, b: seq<Byte>, off: nat, p: Packet, tail: nat)
    requires RecordIn(a, off, p) && off + Footprint(p) <= tail <= |a| == |b|
    requires a[..tail] == b[..tail]
    ensures RecordIn(b, off, p)
  {
    var x, y := a[..tail], b[..tail];
    assert a[off..off + HDR] == x[off..off + HDR] && b[off..off + HDR] == y[off..off + HDR];
    assert a[off + HDR..off + HDR + |p|] == x[off + HDR..off + HDR + |p|];
    assert b[off + HDR..off + HDR + |p|] == y[off + HDR..off + HDR + |p|];
  }

  /** Only the bytes before the tail matter to the stored records. */
  lemma LayoutFrame(a: seq<Byte>, b: seq<Byte>, ps: seq<Packet>, tail: nat)
    requires Layout(a, ps, tail) && |a| == |b| && a[..tail] == b[..tail]
    ensures Layout(b, ps, tail)
  {
    forall k | 0 <= k < |ps| ensures RecordIn(b, Size(ps[..k]), ps[k]) {
      assert RecordIn(a, Size(ps[..k]), ps[k]);
      SizePrefix(ps, k);
      RecordFrame(a, b, Size(ps[..k]), ps[k], tail);
    }
  }

  /** A header and then the packet behind it make a record. */
  lemma SpliceRecord(a: seq<Byte>, off: nat, p: Packet)
    requires off + Footprint(p) <= |a|
    ensures var b := Splice(Splice(a, off, Header(p)), off + HDR, p);
            RecordIn(b, off, p) && b[..off] == a[..off]
  {
    var c := Splice(a, off, Header(p));
    var b := Splice(c, off + HDR, p);
    assert b[..off + HDR] == c[..off + HDR] == a[..off] + Header(p);
    assert b[off..off + HDR] == b[..off + HDR][off..] == Header(p);
    assert b[..off] == b[..off + HDR][..off] == a[..off];
  }

  /** Writing a header and the packet behind the last record appends a record. */
  lemma LayoutAppend(a: seq<Byte>, ps: seq<Packet>, tail: nat, p: Packet)
    requires Layout(a, ps, tail) && tail + Footprint(p) <= |a|
    ensures Layout(Splice(Splice(a, tail, Header(p)), tail + HDR, p), ps + [p], tail + Footprint(p))
  {
    SpliceRecord(a, tail, p);
    var b := Splice(Splice(a, tail, Header(p)), tail + HDR, p);
    LayoutFrame(a, b, ps, tail);
    var qs := ps + [p];
    assert qs[..|ps|] == ps;
    forall k | 0 <= k < |qs| ensures RecordIn(b, Size(qs[..k]), qs[k]) {
      if k < |ps| {
        assert qs[..k] == ps[..k] && qs[k] == ps[k];
        assert RecordIn(b, Size(ps[..k]), ps[k]);
      }
    }
  }

  /** Zeroed headers at both ends of the zone, also when they overlap. */
  lemma BothEndsZero(a: seq<Byte>, end: nat)
    requires end + HDR == |a|
    ensures var b := Splice(Splice(a, 0, [0, 0, 0, 0]), end, [0, 0, 0, 0]);
            Load16(b, 0) == 0 && b[end..end + HDR] == [0, 0, 0, 0]
  {
    var c := Splice(a, 0, [0, 0, 0, 0]);
    var b := Splice(c, end, [0, 0, 0, 0]);
    assert c[0] == 0 && c[1] == 0;
    assert b[0] == 0 && b[1] == 0;
  }

  class Store {
    const zone: array<Byte>
    var tail: nat
    var end: nat
    var used: nat
    /** The packets captured since capturing was enabled. */
    ghost var captured: seq<Packet>

    ghost predicate Valid()
      reads this, zone
    {
      && end + HDR == zone.Length
      && tail <= end && used == tail
      && Layout(zone[..], captured, tail)
      && Load16(zone[..], tail) == 0
    }

    constructor (zone: array<Byte>)
      ensures this.zone == zone
    {
      this.zone := zone;
      tail, end, used, captured := 0, 0, 0, [];
    }

    method Write(off: nat, bytes: seq<Byte>)
      requires off + |bytes| <= zone.Length
      modifies zone
      ensures zone[..] == Splice(old(zone[..]), off, bytes)
    {
      forall i | 0 <= i < |bytes| {
        zone[off + i] := bytes[i];
      }
      assert zone[..] == Splice(old(zone[..]), off, bytes);
    }

    /** The part of pktgen_set_capture that starts a capture: an empty record list and zeroed
        headers at both ends. */
    method Enable()
      requires zone.Length >= HDR
      modifies this, zone
      ensures Valid() && captured == [] && end == zone.Length - HDR
      ensures zone[..][end..end + HDR] == [0, 0, 0, 0]
    {
      used := 0;
      tail := 0;
      end := zone.Length - HDR;
      captured := [];
      ghost var a := zone[..];
      Write(tail, [0, 0, 0, 0]);
      Write(end, [0, 0, 0, 0]);
      BothEndsZero(a, end);
    }

    /** The body of the capture loop for a packet that fits. */
    method Append(p: Packet, ghost ps: seq<Packet>)
      requires Layout(zone[..], ps, tail) && tail + Footprint(p) <= zone.Length
      modifies this`tail, zone
      ensures tail == old(tail) + Footprint(p)
      ensures Layout(zone[..], ps + [p], tail)
    {
      ghost var a := zone[..];
      var d := Padded(|p|) % 65536;
      Write(tail, [|p| % 256, |p| / 256, d % 256, d / 256]);
      Write(tail + HDR, p);
      LayoutAppend(a, ps, tail, p);
      tail := tail + Footprint(p);
    }

    /** The capture loop: packets are appended until one does not fit. */
    method AppendAll(pkts: seq<Packet>) returns (ghost n: nat)
      requires tail <= end && end <= zone.Length && Layout(zone[..], captured, tail)
      modifies this`tail, zone
      ensures LongestFit(pkts, n, end - old(tail))
      ensures tail <= end && Layout(zone[..], captured + pkts[..n], tail)
    {
      var i := 0;
      assert captured + pkts[..0] == captured;
      while i < |pkts|
        invariant 0 <= i <= |pkts|
        invariant tail == old(tail) + Size(pkts[..i]) && tail <= end
        invariant Layout(zone[..], captured + pkts[..i], tail)
      {
        var plen := Padded(|pkts[i]|);
        SizePrefix(pkts, i);
        if tail + HDR + plen > end {
          break;
        }
        Append(pkts[i], captured + pkts[..i]);
        TakeOneMore(captured, pkts, i);
        i := i + 1;
      }
      n := i;
    }

    /** pktgen_packet_capture_bulk. */
    method CaptureBulk(pkts: seq<Packet>)
      requires Valid()
      modifies this`tail, this`used, this`captured, zone
      ensures Valid()
      ensures captured == old(captured) + Fit(pkts, end - old(tail)) && old(tail) == Size(old(captured))
    {
      if tail == end {
        NothingFits(pkts);
        return;
      }
      ghost var n := AppendAll(pkts);
      FitIsLongest(pkts, n, end - old(tail));
      captured := captured + pkts[..n];
      EndOfData();
      used := tail;
    }

    /** The end-of-data sentinel. */
    method EndOfData()
      requires tail + HDR <= zone.Length && Layout(zone[..], captured, tail)
      modifies zone
      ensures Layout(zone[..], captured, tail) && Load16(zone[..], tail) == 0
    {
      ghost var a := zone[..];
      Write(tail, [0, 0]);
      assert zone[tail] == 0 && zone[tail + 1] == 0;
      LayoutFrame(a, zone[..], captured, tail);
    }

    /** The dump loop. It stops at the sentinel; leaving the zone is reported, not executed. */
    method DumpWalk() returns (d: Dump)
      ensures d == Walk(zone[..], 0)
    {
      var records: seq<Record> := [];
      var off, mem := 0, zone[..];
      while true
        invariant Walk(mem, 0) == After(records, Walk(mem, off))
        decreases |mem| - off
      {
        match Peek(mem, off) {
          case Outside =>
            return Overrun(records);
          case Sentinel =>
            return Complete(records);
          case Found(r, next) =>
            AfterStep(records, r, Walk(mem, next));
            records := records + [r];
            off := next;
        }
      }
    }

    /** The part of pktgen_set_capture that stops a capture: what has been stored is dumped. */
    method Disable() returns (d: Dump)
      requires Valid()
      modifies this`tail, this`used, this`captured
      ensures tail == used == 0 && captured == []
      ensures d.Complete? && ShowsAll(d.records, old(captured)) <==> AllStorable(old(captured))
    {
      WalkFrom(zone[..], captured, tail, 0);
      assert captured[..0] == [] && captured[0..] == captured;
      d := Complete([]);
      if used > 0 {
        d := DumpWalk();
      } else {
        SizeZero(captured);
      }
      used, tail, captured := 0, 0, [];
    }
  }

  lemma SizeZero(ps: seq<Packet>)
    requires Size(ps) == 0
    ensures ps == []
  {
  }

  lemma NothingFits(ps: seq<Packet>)
    ensures Fit(ps, 0) == []
  {
  }

  /** The records already dumped, followed by the rest of the walk. */
  function After(rs: seq<Record>, d: Dump): Dump {
    match d
    case Complete(ss) => Complete(rs + ss)
    case Overrun(ss) => Overrun(rs + ss)
  }

  lemma AfterStep(rs: seq<Record>, r: Record, d: Dump)
    ensures After(rs, Prepend(r, d)) == After(rs + [r], d)
  {
    assert rs + ([r] + d.records) == rs + [r] + d.records;
  }

  // ------------------------------------------------------------------------------------
  // Whole sessions
  // ------------------------------------------------------------------------------------

  /** What a session of batches stores in `room` bytes: of each batch the longest prefix that
      still fits, in order. */
  function Stored(batches: seq<seq<Packet>>, room: int): seq<Packet> {
    if batches == [] then []
    else
      var earlier := Stored(batches[..|batches| - 1], room);
      earlier + Fit(batches[|batches| - 1], room - Size(earlier))
  }

  lemma StoredNext(batches: seq<seq<Packet>>, i: nat, room: int)
    requires i < |batches|
    ensures var earlier := Stored(batches[..i], room);
            Stored(batches[..i + 1], room) == earlier + Fit(batches[i], room - Size(earlier))
  {
    assert batches[..i + 1][..i] == batches[..i];
  }

  /** Enabling, any number of batches, disabling: the dump shows exactly the stored packets if
      and only if all of them have a length from 1 to 65534. */
  method Session(store: Store, batches: seq<seq<Packet>>) returns (d: Dump)
    requires store.zone.Length >= HDR
    modifies store, store.zone
    ensures var stored := Stored(batches, store.zone.Length - HDR);
            d.Complete? && ShowsAll(d.records, stored) <==> AllStorable(stored)
  {
    store.Enable();
    ghost var room := store.zone.Length - HDR;
    for i := 0 to |batches|
      invariant store.Valid() && store.end == room
      invariant store.captured == Stored(batches[..i], room)
    {
      StoredNext(batches, i, room);
      store.CaptureBulk(batches[i]);
    }
    assert batches[..|batches|] == batches;
    ghost var stored := store.captured;
    d := store.Disable();
    assert stored == Stored(batches, room);
  }

  /** A packet without data takes room in the store... */
  lemma EmptyPacketIsStored(room: nat)
    requires room >= HDR
    ensures var empty: Packet := []; Stored([[empty]], room) == [empty]
  {
    var empty: Packet := [];
    var batches := [[empty]];
    assert batches[..0] == [];
    assert Stored(batches[..0], room) == [];
    assert Fit([empty], room) == [empty] + Fit([empty][1..], room - HDR);
  }

  /** ...but looks like the end of data: the dump shows the packets before the first empty one,
      and neither that one nor any behind it. */
  lemma {:induction false} EmptyPacketIsLost(a: seq<Byte>, ps: seq<Packet>, tail: nat, k: nat, j: nat)
    requires Layout(a, ps, tail) && j <= k < |ps| && ps[k] == []
    requires forall i :: j <= i < k ==> Storable(ps[i])
    ensures Reads(a, Size(ps[..j]), ps[j..k])
    decreases k - j
  {
    var off := Size(ps[..j]);
    assert RecordIn(a, off, ps[j]);
    if j == k {
      HeaderLoads(a, off, ps[k]);
      assert Peek(a, off) == Sentinel && ps[j..k] == [];
    } else {
      EmptyPacketIsLost(a, ps, tail, k, j + 1);
      SizePrefix(ps, j);
      PeekGood(a, off, ps[j]);
      var t := Peek(a, off);
      ConsShows(t.record, Walk(a, t.next).records, ps[j], ps[j + 1..k]);
      assert ps[j..k] == [ps[j]] + ps[j + 1..k];
    }
  }

  /** A packet of 65535 bytes is stored with a data length of zero: the dump shows no byte of it
      and takes its data for the next header. */
  lemma LongestPacketIsMisread(a: seq<Byte>, off: nat, p: Packet)
    requires RecordIn(a, off, p) && |p| == 65535
    ensures Walk(a, off) == Prepend(Record(65535, []), Walk(a, off + HDR))
    ensures Load16(a, off + HDR) == Load16(p, 0)
  {
    HeaderLoads(a, off, p);
    var data := a[off + HDR..off + HDR + |p|];
    assert data == p && data[0] == a[off + HDR] && data[1] == a[off + HDR + 1];
    assert a[off + HDR..off + HDR] == [];
  }
}

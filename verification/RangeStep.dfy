/**
 * Range packets (pktgen-2.8.6/app/pktgen-range.c and the range setters of
 * pktgen-2.8.6/app/pktgen-cmds.c): every packet takes the next value of each field, wrapping
 * around between a minimum and a maximum.
 */
module RangeStep {
  import opened Basics

  const U16: nat := 0x1_0000
  const U32: nat := 0x1_0000_0000

  datatype Range = Range(start: nat, min: nat, max: nat, inc: nat)

  // ------------------------------------------------------------------------------------
  // One field
  // ------------------------------------------------------------------------------------

  /** The next value of an IP address, VLAN id or packet size: `width` is the modulus of the
      variable the sum is computed in. */
  function Step(r: Range, p: nat, width: nat): nat
    requires width > 0
  {
    if r.inc == 0 then r.start
    else
      var q := (p + r.inc) % width;
      if q < r.min then r.max else if q > r.max then r.min else q
  }

  /** The code for ports tests the maximum again after it has replaced a value below the minimum.
      That makes no difference, whatever the bounds are. */
  method StepPort(r: Range, port: nat) returns (p: nat)
    requires port < U16
    ensures p == Step(r, port, U16)
  {
    if r.inc != 0 {
      var sport := (port + r.inc) % U16;
      if sport < r.min {
        sport := r.max;
      }
      if sport > r.max {
        sport := r.min;
      }
      p := sport;
    } else {
      p := r.start;
    }
  }

  /** The code for the other fields. */
  method StepField(r: Range, value: nat, width: nat) returns (p: nat)
    requires width > 0
    ensures p == Step(r, value, width)
  {
    if r.inc != 0 {
      p := (value + r.inc) % width;
      if p < r.min {
        p := r.max;
      } else if p > r.max {
        p := r.min;
      }
    } else {
      p := r.start;
    }
  }

  /** From any value, and even when the sum wraps, one step lands between the bounds; with the
      bounds the wrong way round it lands on one of them. */
  lemma StepLands(r: Range, p: nat, width: nat)
    requires width > 0 && r.inc != 0
    ensures r.min <= r.max ==> r.min <= Step(r, p, width) <= r.max
    ensures r.min > r.max ==> Step(r, p, width) in {r.min, r.max}
  {
  }

  /** The sum is taken as it is between the bounds, and otherwise goes on at the opposite one; a
      field without increment always takes its start value. */
  lemma StepGoes(r: Range, p: nat, width: nat)
    requires width > 0
    ensures r.inc == 0 ==> Step(r, p, width) == r.start
    ensures r.inc != 0 && r.min <= (p + r.inc) % width <= r.max ==> Step(r, p, width) == (p + r.inc) % width
    ensures r.inc != 0 && (p + r.inc) % width < r.min ==> Step(r, p, width) == r.max
    ensures r.inc != 0 && r.min <= r.max < (p + r.inc) % width ==> Step(r, p, width) == r.min
  {
  }

  /** The n-th value of a field that starts at its minimum. */
  function Nth(r: Range, n: nat, width: nat): nat
    requires width > 0
  {
    if n == 0 then r.min else Step(r, Nth(r, n - 1, width), width)
  }

  ghost predicate Proper(r: Range, width: nat) {
    r.min <= r.max < width && 0 < r.inc < width
  }

  /** Values in one pass over the range, and the last of them. */
  function Cycle(r: Range): nat
    requires r.min <= r.max && r.inc > 0
  {
    (r.max - r.min) / r.inc + 1
  }

  function Last(r: Range): nat
    requires r.min <= r.max && r.inc > 0
  {
    r.min + r.inc * (Cycle(r) - 1)
  }

  function Closed(r: Range, n: nat): nat
    requires r.min <= r.max && r.inc > 0
  {
    r.min + r.inc * (n % Cycle(r))
  }

  /** The step after the last value returns to the minimum: it does not leave the working type,
      or the range has one value, or it wraps exactly onto the minimum. */
  predicate Returns(r: Range, width: nat)
    requires r.min <= r.max && r.inc > 0
  {
    Last(r) + r.inc < width || r.min == r.max || Last(r) + r.inc == width + r.min
  }

  lemma LastBounds(r: Range)
    requires r.min <= r.max && r.inc > 0
    ensures r.min <= Last(r) <= r.max < Last(r) + r.inc
  {
    var d, q := r.max - r.min, (r.max - r.min) / r.inc;
    assert d == r.inc * q + d % r.inc;
  }

  /** Within a pass every step adds the increment. */
  lemma StepInside(r: Range, k: nat, width: nat)
    requires Proper(r, width) && k + 1 < Cycle(r)
    ensures Step(r, r.min + r.inc * k, width) == r.min + r.inc * (k + 1)
  {
    LastBounds(r);
    MulMono(r.inc, k + 1, Cycle(r) - 1);
    assert r.inc * (k + 1) == r.inc * k + r.inc;
    Small(r.min + r.inc * (k + 1), width);
  }

  lemma Small(a: nat, width: nat)
    requires a < width
    ensures a % width == a
  {
  }

  lemma Wrapped(a: nat, width: nat)
    requires width <= a < 2 * width
    ensures a % width == a - width
  {
  }

  /** At the end of a pass the step goes back to the minimum exactly when Returns says so. */
  lemma StepAtEnd(r: Range, width: nat)
    requires Proper(r, width)
    ensures Step(r, Last(r), width) == r.min <==> Returns(r, width)
  {
    LastBounds(r);
    var a := Last(r) + r.inc;
    if a < width {
      Small(a, width);
    } else {
      Wrapped(a, width);
    }
  }

  lemma NextIndex(n: nat, l: nat)
    requires l > 0
    ensures n % l < l && (n + 1) % l == if n % l + 1 < l then n % l + 1 else 0
  {
    var q, k := n / l, n % l;
    assert n == l * q + k;
    if k + 1 < l {
      Residue(n + 1, l, q, k + 1);
    } else {
      assert l * (q + 1) == l * q + l;
      Residue(n + 1, l, q + 1, 0);
    }
  }

  lemma Residue(n: nat, l: nat, q: nat, k: nat)
    requires l > 0 && n == l * q + k && k < l
    ensures n % l == k
  {
    var q', k' := n / l, n % l;
    assert n == l * q' + k';
    assert l * (q' + 1) == l * q' + l && l * (q + 1) == l * q + l;
    if q' < q {
      MulMono(l, q' + 1, q);
    } else if q' > q {
      MulMono(l, q + 1, q');
    }
  }

  /** One step from the k-th value of a pass. */
  lemma NextValue(r: Range, k: nat, width: nat)
    requires Proper(r, width) && k < Cycle(r) && (Returns(r, width) || k + 1 < Cycle(r))
    ensures Step(r, r.min + r.inc * k, width) == if k + 1 < Cycle(r) then r.min + r.inc * (k + 1) else r.min
  {
    if k + 1 < Cycle(r) {
      StepInside(r, k, width);
    } else {
      StepAtEnd(r, width);
    }
  }

  /** Counting from 0 and starting again after `l` values. */
  function Index(n: nat, l: nat): (k: nat)
    requires l > 0
    ensures k < l && (n < l ==> k == n)
  {
    if n == 0 then 0
    else
      var k := Index(n - 1, l);
      if k + 1 < l then k + 1 else 0
  }

  lemma {:induction false} IndexIsRemainder(n: nat, l: nat)
    requires l > 0
    ensures Index(n, l) == n % l
  {
    if n == 0 {
      Residue(0, l, 0, 0);
    } else {
      IndexIsRemainder(n - 1, l);
      NextIndex(n - 1, l);
    }
  }

  lemma {:induction false} NthIndex(r: Range, n: nat, width: nat, l: nat)
    requires Proper(r, width) && l == Cycle(r) && (Returns(r, width) || n < l)
    ensures Nth(r, n, width) == r.min + r.inc * Index(n, l)
  {
    if n > 0 {
      NthIndex(r, n - 1, width, l);
      NextValue(r, Index(n - 1, l), width);
    }
  }

  /** The n-th value in closed form, at least within the first pass. */
  lemma ClosedForm(r: Range, n: nat, width: nat)
    requires Proper(r, width) && (Returns(r, width) || n < Cycle(r))
    ensures Nth(r, n, width) == Closed(r, n)
  {
    NthIndex(r, n, width, Cycle(r));
    IndexIsRemainder(n, Cycle(r));
  }

  /** The n-th value is min + inc * (n mod cycle) for all n if and only if the pass returns. */
  lemma ClosedFormExact(r: Range, width: nat)
    requires Proper(r, width)
    ensures (forall n: nat :: Nth(r, n, width) == Closed(r, n)) <==> Returns(r, width)
  {
    if Returns(r, width) {
      forall n: nat ensures Nth(r, n, width) == Closed(r, n) {
        ClosedForm(r, n, width);
      }
    } else {
      var l := Cycle(r);
      ClosedForm(r, l - 1, width);
      Small(l - 1, l);
      Residue(l, l, 1, 0);
      StepAtEnd(r, width);
      assert Nth(r, l, width) != Closed(r, l);
    }
  }

  /** A wrap the closed form does not survive: 65530 to 65535 in steps of 4. */
  lemma EarlyWrap()
    ensures var r := Range(65530, 65530, 65535, 4);
            Proper(r, U16) && !Returns(r, U16) && Nth(r, 2, U16) == 65535 != Closed(r, 2)
  {
    var r := Range(65530, 65530, 65535, 4);
    assert Nth(r, 1, U16) == 65534;
  }

  // ------------------------------------------------------------------------------------
  // Packets and setters
  // ------------------------------------------------------------------------------------

  const MIN_VLAN_ID: nat := 1
  const MAX_VLAN_ID: nat := 4095
  const ETHER_MIN_LEN: nat := 64
  const ETHER_MAX_LEN: nat := 1518
  const MIN_PKT_SIZE: nat := ETHER_MIN_LEN - FCS_SIZE
  const MAX_PKT_SIZE: nat := ETHER_MAX_LEN - FCS_SIZE

  datatype Packet = Packet(sport: nat, dport: nat, ipSrc: nat, ipDst: nat, vlanid: nat, pktSize: nat)

  /** Every field within the width of its C type. */
  ghost predicate Typed(r: Range, width: nat) {
    r.start < width && r.min < width && r.max < width && r.inc < width
  }

  ghost predicate Within(r: Range, lo: nat, hi: nat) {
    lo <= r.start <= hi && lo <= r.min <= hi && lo <= r.max <= hi
  }

  function IPv4(a: nat, b: nat, c: nat, d: nat): nat {
    ((a % 256 * 256 + b % 256) * 256 + c % 256) * 256 + d % 256
  }

  /** The hosts 192.168.net.1 to 192.168.net.254. */
  function Hosts(net: nat, inc: nat): Range {
    Range(IPv4(192, 168, net, 1), IPv4(192, 168, net, 1), IPv4(192, 168, net, 254), inc)
  }

  lemma IPv4Is(net: nat, host: nat)
    requires net < 256 && host < 256
    ensures IPv4(192, 168, net, host) == 0xC0A8_0000 + 256 * net + host
  {
    assert net % 256 == net && host % 256 == host;
  }

  lemma HostsAt(net: nat, inc: nat)
    requires net < 256
    ensures var r := Hosts(net, inc);
            r.start == r.min == 0xC0A8_0001 + 256 * net && r.max == r.min + 253 && r.inc == inc
  {
    IPv4Is(net, 1);
    IPv4Is(net, 254);
  }

  /** The nearest value between the bounds. */
  function Clamp(v: nat, lo: nat, hi: nat): (r: nat)
    requires lo <= hi
    ensures lo <= r <= hi && (lo <= v <= hi ==> r == v)
    ensures (r < v ==> r == hi) && (r > v ==> r == lo)
  {
    if v < lo then lo else if v > hi then hi else v
  }

  class Port {
    const pid: nat
    var vlanid: nat
    var srcPort: Range
    var dstPort: Range
    var srcIp: Range
    var dstIp: Range
    var vlan: Range
    var size: Range
    var pkt: Packet

    ghost predicate Valid()
      reads this
    {
      && pid < 32 && vlanid < U16
      && Typed(srcPort, U16) && Typed(dstPort, U16) && Typed(srcIp, U32) && Typed(dstIp, U32)
      && Typed(vlan, U16) && Typed(size, U16)
      && Within(vlan, MIN_VLAN_ID, MAX_VLAN_ID) && Within(size, MIN_PKT_SIZE, MAX_PKT_SIZE)
      && pkt.sport < U16 && pkt.dport < U16 && pkt.ipSrc < U32 && pkt.ipDst < U32
      && MIN_VLAN_ID <= pkt.vlanid <= MAX_VLAN_ID && MIN_PKT_SIZE <= pkt.pktSize <= MAX_PKT_SIZE
    }

    constructor (pid: nat)
      requires pid < 32
      ensures Valid() && this.pid == pid
    {
      this.pid := pid;
      vlanid := MIN_VLAN_ID;
      pkt := Packet(0, 0, 0, 0, MIN_VLAN_ID, MIN_PKT_SIZE);
      srcPort, dstPort, srcIp, dstIp := Range(0, 0, 0, 0), Range(0, 0, 0, 0), Range(0, 0, 0, 0), Range(0, 0, 0, 0);
      vlan := Range(MIN_VLAN_ID, MIN_VLAN_ID, MAX_VLAN_ID, 0);
      size := Range(MIN_PKT_SIZE, MIN_PKT_SIZE, MAX_PKT_SIZE, 0);
      new;
      Reset();
    }

    /** pktgen_reset: the port defaults and then pktgen_range_setup, which copies the port's VLAN
        id as it is. */
    method Reset()
      requires pid < 32
      modifies this
      ensures Valid() && vlanid == MIN_VLAN_ID
      ensures pkt.vlanid == MIN_VLAN_ID && pkt.pktSize == MIN_PKT_SIZE
      ensures vlan == Range(MIN_VLAN_ID, MIN_VLAN_ID, MAX_VLAN_ID, 0)
      ensures size == Range(MIN_PKT_SIZE, MIN_PKT_SIZE, MAX_PKT_SIZE, 0)
    {
      // pktgen_port_defaults
      vlanid := MIN_VLAN_ID;
      var peer := if pid % 2 == 0 then pid + 1 else pid - 1;
      pkt := Packet(1234, 5678, IPv4(192, 168, pid, 1), IPv4(192, 168, peer, 1), MIN_VLAN_ID, MIN_PKT_SIZE);
      RangeSetup();
    }

    method RangeSetup()
      requires pid < 32 && vlanid < U16
      modifies this`srcPort, this`dstPort, this`srcIp, this`dstIp, this`vlan, this`size, this`pkt
      ensures srcPort == dstPort == Range(pid * 256, pid * 256, pid * 256 + 254, 1) && Typed(srcPort, U16)
      ensures srcIp == Hosts(pid, 0) && dstIp == Hosts(pid + 1, 1) && Typed(srcIp, U32) && Typed(dstIp, U32)
      ensures srcIp.start == srcIp.min == 0xC0A8_0001 + 256 * pid && srcIp.max == srcIp.min + 253
      ensures dstIp.start == dstIp.min == 0xC0A8_0101 + 256 * pid && dstIp.max == dstIp.min + 253
      ensures vlan == Range(vlanid, MIN_VLAN_ID, MAX_VLAN_ID, 0)
      ensures size == Range(MIN_PKT_SIZE, MIN_PKT_SIZE, MAX_PKT_SIZE, 0)
      ensures pkt == old(pkt).(pktSize := MIN_PKT_SIZE)
    {
      HostsAt(pid, 0);
      HostsAt(pid + 1, 1);
      dstIp := Hosts(pid + 1, 1);
      srcIp := Hosts(pid, 0);
      dstPort := Range(pid * 256, pid * 256, pid * 256 + 254, 1);
      srcPort := Range(pid * 256, pid * 256, pid * 256 + 254, 1);
      vlan := Range(vlanid, MIN_VLAN_ID, MAX_VLAN_ID, 0);
      size := Range(MIN_PKT_SIZE, MIN_PKT_SIZE, MAX_PKT_SIZE, 0);
      pkt := pkt.(pktSize := MIN_PKT_SIZE);
    }

    /** pktgen_set_vlanid: not clamped. */
    method SetPortVlan(id: nat)
      requires Valid() && id < U16
      modifies this`vlanid
      ensures Valid() && vlanid == id
    {
      vlanid := id;
    }

    /** pktgen_set_vlan_id. */
    method SetVlanId(what: string, id: nat)
      requires Valid() && id < U16
      modifies this`vlan
      ensures Valid()
      ensures what == "inc" ==> vlan == old(vlan).(inc := if id > 64 then 64 else id)
      ensures what == "min" ==> vlan == old(vlan).(min := Clamp(id, MIN_VLAN_ID, MAX_VLAN_ID))
      ensures what == "max" ==> vlan == old(vlan).(max := Clamp(id, MIN_VLAN_ID, MAX_VLAN_ID))
      ensures what == "start" ==> vlan == old(vlan).(start := Clamp(id, MIN_VLAN_ID, MAX_VLAN_ID))
      ensures what !in ["inc", "min", "max", "start"] ==> vlan == old(vlan)
    {
      if what == "inc" {
        vlan := vlan.(inc := if id > 64 then 64 else id);
      } else {
        var v := id;
        if v < MIN_VLAN_ID {
          v := MIN_VLAN_ID;
        } else if v > MAX_VLAN_ID {
          v := MAX_VLAN_ID;
        }
        if what == "min" {
          vlan := vlan.(min := v);
        } else if what == "max" {
          vlan := vlan.(max := v);
        } else if what == "start" {
          vlan := vlan.(start := v);
        }
      }
    }

    /** pktgen_set_range_pkt_size: the caller's size includes the checksum. */
    method SetRangePktSize(what: string, bytes: nat)
      requires Valid() && bytes < U16
      modifies this`size
      ensures Valid()
      ensures what == "inc" ==> size == old(size).(inc := if bytes > 64 then 64 else bytes)
      ensures what == "min" ==> size == old(size).(min := Clamp(bytes, ETHER_MIN_LEN, ETHER_MAX_LEN) - FCS_SIZE)
      ensures what == "max" ==> size == old(size).(max := Clamp(bytes, ETHER_MIN_LEN, ETHER_MAX_LEN) - FCS_SIZE)
      ensures what == "start" ==>
                size == old(size).(start := Clamp(bytes, ETHER_MIN_LEN, ETHER_MAX_LEN) - FCS_SIZE)
      ensures what !in ["inc", "min", "max", "start"] ==> size == old(size)
    {
      if what == "inc" {
        size := size.(inc := if bytes > ETHER_MIN_LEN then ETHER_MIN_LEN else bytes);
      } else {
        var v: nat;
        if bytes < ETHER_MIN_LEN {
          v := MIN_PKT_SIZE;
        } else if bytes > ETHER_MAX_LEN {
          v := MAX_PKT_SIZE;
        } else {
          v := bytes - FCS_SIZE;
        }
        if what == "start" {
          size := size.(start := v);
        } else if what == "min" {
          size := size.(min := v);
        } else if what == "max" {
          size := size.(max := v);
        }
      }
    }

    /** pktgen_range_ctor on an IPv4 packet with TCP or UDP: the fields of the next packet. VLAN id
        and size are 16 bits wide but added in 32. */
    method RangeCtor()
      requires Valid()
      modifies this`pkt
      ensures Valid()
      ensures pkt == Packet(Step(srcPort, old(pkt.sport), U16), Step(dstPort, old(pkt.dport), U16),
                            Step(srcIp, old(pkt.ipSrc), U32), Step(dstIp, old(pkt.ipDst), U32),
                            Step(vlan, old(pkt.vlanid), U32), Step(size, old(pkt.pktSize), U32))
    {
      var sport := StepPort(srcPort, pkt.sport);
      var dport := StepPort(dstPort, pkt.dport);
      var ipSrc := StepField(srcIp, pkt.ipSrc, U32);
      var ipDst := StepField(dstIp, pkt.ipDst, U32);
      var vlanid := StepField(vlan, pkt.vlanid, U32);
      var pktSize := StepField(size, pkt.pktSize, U32);
      pkt := Packet(sport, dport, ipSrc, ipDst, vlanid, pktSize);
    }
  }

  datatype Command =
    | Reset
    | PortVlan(id: nat)
    | RangeVlan(what: string, id: nat)
    | RangeSize(what: string, bytes: nat)
    | NextPacket

  ghost predicate Fits(c: Command) {
    (c.PortVlan? ==> c.id < U16) && (c.RangeVlan? ==> c.id < U16) && (c.RangeSize? ==> c.bytes < U16)
  }

  function PacketsIn(commands: seq<Command>): nat {
    if commands == [] then 0
    else PacketsIn(commands[..|commands| - 1]) + if commands[|commands| - 1].NextPacket? then 1 else 0
  }

  /** One command, and the packet it makes, if any. */
  method Perform(port: Port, c: Command) returns (made: seq<Packet>)
    requires port.Valid() && Fits(c)
    modifies port
    ensures port.Valid()
    ensures !c.Reset? && !c.RangeVlan? ==> port.vlan == old(port.vlan)
    ensures !c.Reset? && !c.RangeSize? ==> port.size == old(port.size)
    ensures made == if c.NextPacket? then [port.pkt] else []
    ensures c.NextPacket? ==>
              && port.pkt.vlanid == Step(port.vlan, old(port.pkt.vlanid), U32)
              && port.pkt.pktSize == Step(port.size, old(port.pkt.pktSize), U32)
  {
    made := [];
    match c {
      case Reset => port.Reset();
      case PortVlan(id) => port.SetPortVlan(id);
      case RangeVlan(what, id) => port.SetVlanId(what, id);
      case RangeSize(what, bytes) => port.SetRangePktSize(what, bytes);
      case NextPacket =>
        port.RangeCtor();
        made := [port.pkt];
    }
  }

  /** Any history of commands: every packet made on the way has a VLAN id and a size within the
      limits, also when the minimum is set above the maximum. */
  method History(pid: nat, commands: seq<Command>) returns (sent: seq<Packet>)
    requires pid < 32
    requires forall i :: 0 <= i < |commands| ==> Fits(commands[i])
    ensures |sent| == PacketsIn(commands)
    ensures forall i :: 0 <= i < |sent| ==>
              MIN_VLAN_ID <= sent[i].vlanid <= MAX_VLAN_ID && MIN_PKT_SIZE <= sent[i].pktSize <= MAX_PKT_SIZE
  {
    var port := new Port(pid);
    sent := [];
    for k := 0 to |commands|
      invariant fresh(port) && port.Valid()
      invariant |sent| == PacketsIn(commands[..k])
      invariant forall i :: 0 <= i < |sent| ==>
                  MIN_VLAN_ID <= sent[i].vlanid <= MAX_VLAN_ID && MIN_PKT_SIZE <= sent[i].pktSize <= MAX_PKT_SIZE
    {
      assert commands[..k + 1][..k] == commands[..k];
      var made := Perform(port, commands[k]);
      sent := sent + made;
    }
    assert commands[..|commands|] == commands;
  }

  /** One command that leaves the VLAN range alone. */
  method PerformInVlan(port: Port, c: Command) returns (made: seq<Packet>)
    requires port.Valid() && Fits(c) && !c.Reset? && !c.RangeVlan?
    requires port.vlan.inc != 0 && port.vlan.min <= port.vlan.max
    modifies port
    ensures port.Valid() && port.vlan == old(port.vlan) && |made| == if c.NextPacket? then 1 else 0
    ensures forall i :: 0 <= i < |made| ==> port.vlan.min <= made[i].vlanid <= port.vlan.max
  {
    StepLands(port.vlan, port.pkt.vlanid, U32);
    made := Perform(port, c);
  }

  /** After setting a minimum and a maximum VLAN id, with a non-zero increment, every packet made by
      commands that leave the VLAN range alone has an id between the two. */
  method HistoryWithVlan(port: Port, lo: nat, hi: nat, commands: seq<Command>) returns (sent: seq<Packet>)
    requires port.Valid() && port.vlan.inc != 0 && MIN_VLAN_ID <= lo <= hi <= MAX_VLAN_ID
    requires forall i :: 0 <= i < |commands| ==>
               Fits(commands[i]) && !commands[i].Reset? && !commands[i].RangeVlan?
    modifies port
    ensures port.Valid() && |sent| == PacketsIn(commands)
    ensures forall i :: 0 <= i < |sent| ==> lo <= sent[i].vlanid <= hi
  {
    port.SetVlanId("min", lo);
    port.SetVlanId("max", hi);
    sent := [];
    for k := 0 to |commands|
      invariant port.Valid() && port.vlan.inc != 0 && port.vlan.min == lo && port.vlan.max == hi
      invariant |sent| == PacketsIn(commands[..k])
      invariant forall i :: 0 <= i < |sent| ==> lo <= sent[i].vlanid <= hi
    {
      assert commands[..k + 1][..k] == commands[..k];
      var made := PerformInVlan(port, commands[k]);
      sent := sent + made;
    }
    assert commands[..|commands|] == commands;
  }

  /** One command that leaves the size range alone. */
  method PerformInSize(port: Port, c: Command) returns (made: seq<Packet>)
    requires port.Valid() && Fits(c) && !c.Reset? && !c.RangeSize?
    requires port.size.inc != 0 && port.size.min <= port.size.max
    modifies port
    ensures port.Valid() && port.size == old(port.size) && |made| == if c.NextPacket? then 1 else 0
    ensures forall i :: 0 <= i < |made| ==> port.size.min <= made[i].pktSize <= port.size.max
  {
    StepLands(port.size, port.pkt.pktSize, U32);
    made := Perform(port, c);
  }

  /** The same for the packet size, given with its checksum. */
  method HistoryWithSize(port: Port, lo: nat, hi: nat, commands: seq<Command>) returns (sent: seq<Packet>)
    requires port.Valid() && port.size.inc != 0 && ETHER_MIN_LEN <= lo <= hi <= ETHER_MAX_LEN
    requires forall i :: 0 <= i < |commands| ==>
               Fits(commands[i]) && !commands[i].Reset? && !commands[i].RangeSize?
    modifies port
    ensures port.Valid() && |sent| == PacketsIn(commands)
    ensures forall i :: 0 <= i < |sent| ==> lo <= sent[i].pktSize + FCS_SIZE <= hi
  {
    port.SetRangePktSize("min", lo);
    port.SetRangePktSize("max", hi);
    sent := [];
    for k := 0 to |commands|
      invariant port.Valid() && port.size.inc != 0
      invariant port.size.min == lo - FCS_SIZE && port.size.max == hi - FCS_SIZE
      invariant |sent| == PacketsIn(commands[..k])
      invariant forall i :: 0 <= i < |sent| ==> lo <= sent[i].pktSize + FCS_SIZE <= hi
    {
      assert commands[..k + 1][..k] == commands[..k];
      var made := PerformInSize(port, commands[k]);
      sent := sent + made;
    }
    assert commands[..|commands|] == commands;
  }
}

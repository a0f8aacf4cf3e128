/**
 * Who may capture (pktgen-2.8.6/app/pktgen-capture.c): enabling and disabling capture on ports,
 * with one capture slot per CPU socket and at most one capturing port per slot.
 */
module CaptureOwnership {

  const RTE_MAX_LCORE: nat := 128
  const RTE_MAX_ETHPORTS: nat := 32
  const RTE_MAX_NUMA_NODES: nat := 8

  type PortId = p: nat | p < RTE_MAX_ETHPORTS
  type SocketId = s: nat | s < RTE_MAX_NUMA_NODES

  /** The port to lcore mapping, the sockets of the lcores, and which sockets have a memory zone.
      None of it changes after start-up. */
  datatype CoreMap = CoreMap(
    rxQueues: seq<nat>,
    portLcores: seq<seq<nat>>,
    lcorePorts: seq<seq<nat>>,
    socketOf: seq<SocketId>,
    hasZone: seq<bool>)
  {
    ghost predicate Valid() {
      && |rxQueues| == |portLcores| == RTE_MAX_ETHPORTS
      && |lcorePorts| == |socketOf| == RTE_MAX_LCORE
      && |hasZone| == RTE_MAX_NUMA_NODES
      && forall p, i :: 0 <= p < RTE_MAX_ETHPORTS && 0 <= i < |portLcores[p]| ==> portLcores[p][i] < RTE_MAX_LCORE
    }
  }

  datatype Slot = Slot(lcore: nat, port: nat)

  const FREE := Slot(RTE_MAX_LCORE, RTE_MAX_ETHPORTS)

  /** The CAPTURE_PKTS flag of every port and the slot of every socket. */
  datatype State = State(capturing: seq<bool>, slots: seq<Slot>)

  datatype Outcome =
    // enabling
    | Enabled | AlreadyOn | NoRxQueue | NoRxLcore | NoMemory | SocketBusy
    // disabling
    | Disabled | NotOn | NoRxQueueLeft | NoSocketFound

  // ------------------------------------------------------------------------------------
  // The lcore that captures for a port
  // ------------------------------------------------------------------------------------

  /** The first lcore of the list that receives from `pid`, or RTE_MAX_LCORE. */
  function FirstReceiving(lids: seq<nat>, ports: seq<seq<nat>>, pid: nat): (r: nat)
    requires forall i :: 0 <= i < |lids| ==> lids[i] < |ports|
    ensures r == RTE_MAX_LCORE || (r in lids && pid in ports[r])
    ensures forall i :: 0 <= i < |lids| && pid in ports[lids[i]] && (forall j :: 0 <= j < i ==> pid !in ports[lids[j]])
              ==> r == lids[i]
    ensures r == RTE_MAX_LCORE && |ports| <= RTE_MAX_LCORE ==> forall i :: 0 <= i < |lids| ==> pid !in ports[lids[i]]
  {
    if lids == [] then RTE_MAX_LCORE
    else if pid in ports[lids[0]] then lids[0]
    else FirstReceiving(lids[1..], ports, pid)
  }

  function RxLcore(c: CoreMap, pid: PortId): (r: nat)
    requires c.Valid()
    ensures r <= RTE_MAX_LCORE
  {
    FirstReceiving(c.portLcores[pid], c.lcorePorts, pid)
  }

  /** The two nested search loops. */
  method FindRxLcore(c: CoreMap, pid: PortId) returns (lid: nat)
    requires c.Valid()
    ensures lid == RxLcore(c, pid)
  {
    var lids := c.portLcores[pid];
    var i := 0;
    while i < |lids|
      invariant 0 <= i <= |lids|
      invariant FirstReceiving(lids[i..], c.lcorePorts, pid) == RxLcore(c, pid)
    {
      lid := lids[i];
      var rx := c.lcorePorts[lid];
      var k := 0;
      while k < |rx|
        invariant 0 <= k <= |rx| && pid !in rx[..k]
      {
        if rx[k] == pid {
          return;
        }
        k := k + 1;
      }
      assert rx[..k] == rx;
      i := i + 1;
    }
    lid := RTE_MAX_LCORE;
  }

  // ------------------------------------------------------------------------------------
  // The invariant
  // ------------------------------------------------------------------------------------

  /** Socket `sid` captures for port `pid`. */
  predicate Names(c: CoreMap, s: State, sid: nat, pid: nat) {
    sid < |c.hasZone| && sid < |s.slots| && c.hasZone[sid] && s.slots[sid].port == pid
  }

  ghost predicate SlotOk(c: CoreMap, s: State, sid: SocketId)
    requires c.Valid() && |s.capturing| == RTE_MAX_ETHPORTS && |s.slots| == RTE_MAX_NUMA_NODES
  {
    var slot := s.slots[sid];
    || slot == FREE
    || (&& slot.port < RTE_MAX_ETHPORTS && s.capturing[slot.port]
        && slot.lcore < RTE_MAX_LCORE && slot.lcore == RxLcore(c, slot.port)
        && c.socketOf[slot.lcore] == sid)
  }

  ghost predicate PortOk(c: CoreMap, s: State, pid: PortId)
    requires c.Valid() && |s.capturing| == RTE_MAX_ETHPORTS && |s.slots| == RTE_MAX_NUMA_NODES
  {
    s.capturing[pid] ==>
      && c.rxQueues[pid] > 0 && RxLcore(c, pid) < RTE_MAX_LCORE
      && Names(c, s, c.socketOf[RxLcore(c, pid)], pid)
  }

  ghost predicate Inv(c: CoreMap, s: State) {
    && c.Valid() && |s.capturing| == RTE_MAX_ETHPORTS && |s.slots| == RTE_MAX_NUMA_NODES
    && (forall sid: SocketId :: c.hasZone[sid] ==> SlotOk(c, s, sid))
    && (forall pid: PortId :: PortOk(c, s, pid))
  }

  /** After start-up no port captures and every initialised slot is free. */
  ghost predicate Init(c: CoreMap, s: State) {
    && c.Valid() && |s.capturing| == RTE_MAX_ETHPORTS && |s.slots| == RTE_MAX_NUMA_NODES
    && (forall pid: PortId :: !s.capturing[pid])
    && (forall sid: SocketId :: c.hasZone[sid] ==> s.slots[sid] == FREE)
  }

  /** The capture flag of a port is set exactly when one initialised slot names it, and then it
      is the only one; a slot's lcore is free exactly when its port is. */
  lemma ExactlyOneSlot(c: CoreMap, s: State, pid: PortId)
    requires Inv(c, s)
    ensures s.capturing[pid] <==> exists sid: SocketId :: Names(c, s, sid, pid)
    ensures forall a: SocketId, b: SocketId :: Names(c, s, a, pid) && Names(c, s, b, pid) ==> a == b
    ensures forall sid: SocketId :: c.hasZone[sid] ==>
              (s.slots[sid].lcore == RTE_MAX_LCORE <==> s.slots[sid].port == RTE_MAX_ETHPORTS)
  {
    assert PortOk(c, s, pid);
    forall sid: SocketId | Names(c, s, sid, pid) ensures s.capturing[pid] && sid == c.socketOf[RxLcore(c, pid)] {
      assert SlotOk(c, s, sid);
    }
    if s.capturing[pid] {
      var sid: SocketId := c.socketOf[RxLcore(c, pid)];
      assert Names(c, s, sid, pid);
    }
    forall sid: SocketId | c.hasZone[sid]
      ensures s.slots[sid].lcore == RTE_MAX_LCORE <==> s.slots[sid].port == RTE_MAX_ETHPORTS {
      assert SlotOk(c, s, sid);
    }
  }

  /** Two ports that capture do so on different sockets. */
  lemma OnePortPerSocket(c: CoreMap, s: State, p: PortId, q: PortId)
    requires Inv(c, s) && p != q && s.capturing[p] && s.capturing[q]
    ensures RxLcore(c, p) < RTE_MAX_LCORE && RxLcore(c, q) < RTE_MAX_LCORE
    ensures c.socketOf[RxLcore(c, p)] != c.socketOf[RxLcore(c, q)]
  {
    assert PortOk(c, s, p) && PortOk(c, s, q);
  }

  // ------------------------------------------------------------------------------------
  // The commands
  // ------------------------------------------------------------------------------------

  /** When enabling is possible: the port does not capture yet, some lcore receives from it, and
      that lcore's socket has memory and no capturing lcore. */
  ghost predicate CanEnable(c: CoreMap, s: State, pid: PortId)
    requires Inv(c, s)
  {
    && !s.capturing[pid] && c.rxQueues[pid] > 0 && RxLcore(c, pid) < RTE_MAX_LCORE
    && var sid := c.socketOf[RxLcore(c, pid)]; c.hasZone[sid] && s.slots[sid].lcore == RTE_MAX_LCORE
  }

  /** Some lcore receives from the port. */
  predicate Receives(c: CoreMap, pid: PortId)
    requires c.Valid()
  {
    c.rxQueues[pid] > 0 && RxLcore(c, pid) < RTE_MAX_LCORE
  }

  /** The socket of that lcore. */
  function SocketFor(c: CoreMap, pid: PortId): nat
    requires c.Valid() && Receives(c, pid)
  {
    c.socketOf[RxLcore(c, pid)]
  }

  ghost predicate Differs(s: State, s': State, pid: PortId, sid: SocketId, on: bool, slot: Slot)
    requires |s.capturing| == RTE_MAX_ETHPORTS && |s.slots| == RTE_MAX_NUMA_NODES
  {
    s' == State(s.capturing[pid := on], s.slots[sid := slot])
  }

  class Control {
    const c: CoreMap
    var capturing: seq<bool>
    var slots: seq<Slot>

    ghost function View(): State
      reads this
    {
      State(capturing, slots)
    }

    /** pktgen_packet_capture_init on every socket. */
    constructor (c: CoreMap)
      requires c.Valid()
      ensures this.c == c && Init(c, View())
    {
      this.c := c;
      capturing := seq(RTE_MAX_ETHPORTS, _ => false);
      slots := seq(RTE_MAX_NUMA_NODES, _ => FREE);
    }

    /** pktgen_set_capture with ENABLE_STATE. */
    method Enable(pid: PortId) returns (o: Outcome)
      requires Inv(c, View())
      modifies this`capturing, this`slots
      ensures Inv(c, View())
      ensures o.Enabled? <==> old(CanEnable(c, View(), pid))
      ensures o.Enabled? ==>
                Differs(old(View()), View(), pid, c.socketOf[RxLcore(c, pid)], true, Slot(RxLcore(c, pid), pid))
      ensures !o.Enabled? ==> View() == old(View())
      ensures o == AlreadyOn <==> old(capturing)[pid]
      ensures o == NoRxQueue <==> !old(capturing)[pid] && c.rxQueues[pid] == 0
      ensures o == NoRxLcore <==>
                !old(capturing)[pid] && c.rxQueues[pid] > 0 && RxLcore(c, pid) == RTE_MAX_LCORE
      ensures o == NoMemory <==> !old(capturing)[pid] && Receives(c, pid) && !c.hasZone[SocketFor(c, pid)]
      ensures o == SocketBusy <==>
                && !old(capturing)[pid] && Receives(c, pid) && c.hasZone[SocketFor(c, pid)]
                && old(slots)[SocketFor(c, pid)].lcore != RTE_MAX_LCORE
    {
      if capturing[pid] {
        return AlreadyOn;
      }
      if c.rxQueues[pid] == 0 {
        return NoRxQueue;
      }
      var lid := FindRxLcore(c, pid);
      if lid == RTE_MAX_LCORE {
        return NoRxLcore;
      }
      var sid := c.socketOf[lid];
      if !c.hasZone[sid] {
        return NoMemory;
      }
      if slots[sid].lcore != RTE_MAX_LCORE {
        return SocketBusy;
      }
      ghost var s := View();
      slots := slots[sid := Slot(lid, pid)];
      capturing := capturing[pid := true];
      EnableKeeps(c, s, pid);
      return Enabled;
    }

    /** pktgen_set_capture with DISABLE_STATE: the two exits the source marks as impossible are
        never taken. */
    method Disable(pid: PortId) returns (o: Outcome)
      requires Inv(c, View())
      modifies this`capturing, this`slots
      ensures Inv(c, View())
      ensures o == if old(capturing)[pid] then Disabled else NotOn
      ensures o.Disabled? ==>
                RxLcore(c, pid) < RTE_MAX_LCORE &&
                Differs(old(View()), View(), pid, c.socketOf[RxLcore(c, pid)], false, FREE)
      ensures o.NotOn? ==> View() == old(View())
    {
      if !capturing[pid] {
        return NotOn;
      }
      ghost var s := View();
      assert PortOk(c, s, pid);
      if c.rxQueues[pid] == 0 {
        return NoRxQueueLeft;
      }
      ExactlyOneSlot(c, s, pid);
      var sid := 0;
      while sid < RTE_MAX_NUMA_NODES
        invariant 0 <= sid <= RTE_MAX_NUMA_NODES
        invariant forall k :: 0 <= k < sid ==> !Names(c, s, k, pid)
      {
        if c.hasZone[sid] && slots[sid].port == pid {
          break;
        }
        sid := sid + 1;
      }
      if sid == RTE_MAX_NUMA_NODES {
        return NoSocketFound;
      }
      assert Names(c, s, sid, pid);
      slots := slots[sid := FREE];
      capturing := capturing[pid := false];
      DisableKeeps(c, s, pid);
      return Disabled;
    }
  }

  lemma EnableKeeps(c: CoreMap, s: State, pid: PortId)
    requires Inv(c, s) && CanEnable(c, s, pid)
    ensures var lid := RxLcore(c, pid);
            Inv(c, State(s.capturing[pid := true], s.slots[c.socketOf[lid] := Slot(lid, pid)]))
  {
    var lid := RxLcore(c, pid);
    var sid := c.socketOf[lid];
    var s' := State(s.capturing[pid := true], s.slots[sid := Slot(lid, pid)]);
    assert SlotOk(c, s, sid);
    forall k: SocketId | c.hasZone[k] ensures SlotOk(c, s', k) {
      assert SlotOk(c, s, k);
    }
    forall p: PortId ensures PortOk(c, s', p) {
      assert PortOk(c, s, p);
    }
  }

  lemma DisableKeeps(c: CoreMap, s: State, pid: PortId)
    requires Inv(c, s) && s.capturing[pid]
    ensures RxLcore(c, pid) < RTE_MAX_LCORE
    ensures Inv(c, State(s.capturing[pid := false], s.slots[c.socketOf[RxLcore(c, pid)] := FREE]))
  {
    assert PortOk(c, s, pid);
    var sid := c.socketOf[RxLcore(c, pid)];
    var s' := State(s.capturing[pid := false], s.slots[sid := FREE]);
    forall k: SocketId | c.hasZone[k] ensures SlotOk(c, s', k) {
      assert SlotOk(c, s, k);
    }
    forall p: PortId ensures PortOk(c, s', p) {
      assert PortOk(c, s, p);
    }
  }

  // ------------------------------------------------------------------------------------
  // Histories
  // ------------------------------------------------------------------------------------

  datatype Command = Command(pid: PortId, on: bool)

  lemma InitInv(c: CoreMap, s: State)
    requires Init(c, s)
    ensures Inv(c, s)
  {
  }

  /** Any history of commands on any ports: every command ends in an outcome the source expects,
      and the ports that capture afterwards are exactly those named by one slot. */
  method History(c: CoreMap, commands: seq<Command>) returns (control: Control, outcomes: seq<Outcome>)
    requires c.Valid()
    ensures fresh(control) && control.c == c && Inv(c, control.View())
    ensures |outcomes| == |commands|
    ensures NoRxQueueLeft !in outcomes && NoSocketFound !in outcomes
    ensures forall pid: PortId :: control.capturing[pid] <==> exists sid: SocketId :: Names(c, control.View(), sid, pid)
  {
    control := new Control(c);
    InitInv(c, control.View());
    outcomes := [];
    for i := 0 to |commands|
      invariant fresh(control) && control.c == c && Inv(c, control.View())
      invariant |outcomes| == i && NoRxQueueLeft !in outcomes && NoSocketFound !in outcomes
    {
      var o: Outcome;
      if commands[i].on {
        o := control.Enable(commands[i].pid);
      } else {
        o := control.Disable(commands[i].pid);
      }
      outcomes := outcomes + [o];
    }
    forall pid: PortId
      ensures control.capturing[pid] <==> exists sid: SocketId :: Names(c, control.View(), sid, pid) {
      ExactlyOneSlot(c, control.View(), pid);
    }
  }
}

/** Setup tasks and shutdown notifications, interleaved at their locks. A shutdown runs on the event loop,
    so only one is in progress and no message is taken meanwhile, but the setup tasks go on. */
module NodeRuns {
  import opened Maps
  import opened NodeRegistry
  import opened Runs

  /** How far the setup of a node has come. */
  datatype Phase = Arrived | Mapped | InIApp

  datatype Task = Task(node: E2Node, phase: Phase)

  datatype Loop = Idle | AddressRemoved(id: nat) | Erased(id: nat)

  datatype Reg = Reg(addresses: map<int, nat>, connected: seq<E2Node>, iApp: set<nat>, tasks: map<int, Task>,
                     loop: Loop)

  datatype Action =
    | SetupArrives(addr: int, node: E2Node)
    | RegisterAddress(addr: int)
    | AddToIApp(addr: int)
    | PushNode(addr: int)
    | ShutdownArrives(addr: int)
    | EraseNode
    | RemoveFromIApp

  ghost predicate Busy(s: Reg, id: nat)
  {
    exists a :: a in s.tasks && s.tasks[a].node.id == id
  }

  /** A setup comes from a new address and names an identifier that is not connected. */
  ghost predicate NewNode(s: Reg, addr: int, id: nat)
  {
    addr !in s.addresses && addr !in s.tasks && id !in s.addresses.Values && !Busy(s, id)
  }

  ghost function Next(s: Reg, a: Action): Reg
  {
    match a
    case SetupArrives(addr, node) =>
      if s.loop.Idle? && NewNode(s, addr, node.id) then s.(tasks := s.tasks[addr := Task(node, Arrived)]) else s
    case RegisterAddress(addr) =>
      if addr in s.tasks && s.tasks[addr].phase.Arrived?
      then s.(addresses := s.addresses[addr := s.tasks[addr].node.id],
              tasks := s.tasks[addr := s.tasks[addr].(phase := Mapped)])
      else s
    case AddToIApp(addr) =>
      if addr in s.tasks && s.tasks[addr].phase.Mapped?
      then s.(iApp := s.iApp + {s.tasks[addr].node.id}, tasks := s.tasks[addr := s.tasks[addr].(phase := InIApp)])
      else s
    case PushNode(addr) =>
      if addr in s.tasks && s.tasks[addr].phase.InIApp?
      then s.(connected := s.connected + [s.tasks[addr].node], tasks := s.tasks - {addr})
      else s
    case ShutdownArrives(addr) =>
      if s.loop.Idle? && addr in s.addresses
      then s.(addresses := s.addresses - {addr}, loop := AddressRemoved(s.addresses[addr]))
      else s
    case EraseNode =>
      if s.loop.AddressRemoved? && HasId(s.connected, s.loop.id)
      then s.(connected := Erase(s.connected, s.loop.id), loop := Erased(s.loop.id))
      else s
    case RemoveFromIApp =>
      if s.loop.Erased? then s.(iApp := s.iApp - {s.loop.id}, loop := Idle) else s
  }

  predicate Init(s: Reg)
  {
    s == Reg(map[], [], {}, map[], Idle)
  }

  /** The identifier of a shutdown in progress, still in the list or about to get there. */
  predicate Leaving(s: Reg, id: nat)
  {
    s.loop.AddressRemoved? && s.loop.id == id
  }

  ghost predicate TaskInv(s: Reg)
  {
    && (forall a, b :: a in s.tasks && b in s.tasks && s.tasks[a].node.id == s.tasks[b].node.id ==> a == b)
    && (forall a :: a in s.tasks ==>
          var id := s.tasks[a].node.id;
          && (s.tasks[a].phase.Arrived? ==> a !in s.addresses && id !in s.addresses.Values && !Leaving(s, id))
          && (!s.tasks[a].phase.Arrived? ==> (a in s.addresses && s.addresses[a] == id) || Leaving(s, id))
          && (s.loop.Erased? ==> id != s.loop.id))
  }

  ghost predicate AddressInv(s: Reg)
  {
    && Injective(s.addresses)
    && (!s.loop.Idle? ==> s.loop.id !in s.addresses.Values)
  }

  ghost predicate ConnectedInv(s: Reg)
  {
    && DistinctIds(s.connected)
    && forall id :: HasId(s.connected, id) <==> (id in s.addresses.Values || Leaving(s, id)) && !Busy(s, id)
  }

  predicate InIAppPhase(s: Reg, id: nat)
  {
    exists a | a in s.tasks :: s.tasks[a].node.id == id && s.tasks[a].phase.InIApp?
  }

  ghost predicate IAppInv(s: Reg)
  {
    forall id :: id in s.iApp <==>
      || HasId(s.connected, id)
      || InIAppPhase(s, id)
      || (s.loop.Erased? && s.loop.id == id)
  }

  ghost predicate Inv(s: Reg)
  {
    TaskInv(s) && AddressInv(s) && ConnectedInv(s) && IAppInv(s)
  }

  lemma SetupArrivesInv(s: Reg, addr: int, node: E2Node)
    requires Inv(s)
    ensures Inv(Next(s, SetupArrives(addr, node)))
  {
    var t := Next(s, SetupArrives(addr, node));
    if t != s {
      forall id ensures Busy(t, id) <==> Busy(s, id) || id == node.id {
        if Busy(s, id) {
          var a :| a in s.tasks && s.tasks[a].node.id == id;
          assert t.tasks[a] == s.tasks[a];
        }
        assert addr in t.tasks && t.tasks[addr].node.id == node.id;
      }
      forall id ensures InIAppPhase(t, id) <==> InIAppPhase(s, id) {
        if InIAppPhase(s, id) {
          var a :| a in s.tasks && s.tasks[a].node.id == id && s.tasks[a].phase.InIApp?;
          assert t.tasks[a] == s.tasks[a];
        }
      }
    }
  }

  /** Moving a task on changes neither the other tasks nor who is busy. */
  lemma PhaseChange(s: Reg, addr: int, phase: Phase, id: nat)
    requires addr in s.tasks
    ensures var t := s.(tasks := s.tasks[addr := s.tasks[addr].(phase := phase)]);
            && (Busy(t, id) <==> Busy(s, id))
            && (id != s.tasks[addr].node.id ==> (InIAppPhase(t, id) <==> InIAppPhase(s, id)))
  {
    var t := s.(tasks := s.tasks[addr := s.tasks[addr].(phase := phase)]);
    if Busy(s, id) {
      var a :| a in s.tasks && s.tasks[a].node.id == id;
      assert a in t.tasks && t.tasks[a].node.id == id;
    }
    if Busy(t, id) {
      var a :| a in t.tasks && t.tasks[a].node.id == id;
      assert a in s.tasks && s.tasks[a].node.id == id;
    }
    if id != s.tasks[addr].node.id {
      if InIAppPhase(s, id) {
        var a :| a in s.tasks && s.tasks[a].node.id == id && s.tasks[a].phase.InIApp?;
        assert a in t.tasks && t.tasks[a] == s.tasks[a];
      }
    }
  }

  lemma RegisterAddressInv(s: Reg, addr: int)
    requires Inv(s)
    ensures Inv(Next(s, RegisterAddress(addr)))
  {
    var t := Next(s, RegisterAddress(addr));
    if t != s {
      var mine := s.tasks[addr].node.id;
      InsertInjective(s.addresses, addr, mine);
      forall id
        ensures (Busy(t, id) <==> Busy(s, id)) && (id != mine ==> (InIAppPhase(t, id) <==> InIAppPhase(s, id)))
      {
        PhaseChange(s, addr, Mapped, id);
      }
      assert Busy(s, mine);
      assert ConnectedInv(t);
      assert !InIAppPhase(t, mine) && !InIAppPhase(s, mine);
      assert IAppInv(t);
      assert AddressInv(t);
      assert TaskInv(t);
    }
  }

  lemma AddToIAppInv(s: Reg, addr: int)
    requires Inv(s)
    ensures Inv(Next(s, AddToIApp(addr)))
  {
    var t := Next(s, AddToIApp(addr));
    if t != s {
      var mine := s.tasks[addr].node.id;
      forall id
        ensures (Busy(t, id) <==> Busy(s, id)) && (id != mine ==> (InIAppPhase(t, id) <==> InIAppPhase(s, id)))
      {
        PhaseChange(s, addr, InIApp, id);
      }
      assert InIAppPhase(t, mine) by {
        assert addr in t.tasks && t.tasks[addr].node.id == mine;
      }
      assert IAppInv(t);
      assert TaskInv(t);
      assert ConnectedInv(t);
    }
  }

  lemma PushNodeInv(s: Reg, addr: int)
    requires Inv(s)
    ensures Inv(Next(s, PushNode(addr)))
  {
    var t := Next(s, PushNode(addr));
    if t != s {
      var mine := s.tasks[addr].node.id;
      assert Busy(s, mine);
      forall id
        ensures HasId(t.connected, id) <==> HasId(s.connected, id) || mine == id
        ensures Busy(t, id) <==> Busy(s, id) && id != mine
        ensures InIAppPhase(t, id) <==> InIAppPhase(s, id) && id != mine
      {
        PushIds(s.connected, s.tasks[addr].node, id);
        if Busy(s, id) && id != mine {
          var a :| a in s.tasks && s.tasks[a].node.id == id;
          assert a in t.tasks && t.tasks[a] == s.tasks[a];
        }
        if InIAppPhase(s, id) && id != mine {
          var a :| a in s.tasks && s.tasks[a].node.id == id && s.tasks[a].phase.InIApp?;
          assert a in t.tasks && t.tasks[a] == s.tasks[a];
        }
      }
      assert mine in s.addresses.Values || Leaving(s, mine);
      assert DistinctIds(t.connected) by {
        assert forall i :: 0 <= i < |s.connected| ==> HasId(s.connected, s.connected[i].id);
      }
      assert ConnectedInv(t);
      assert InIAppPhase(s, mine);
      assert IAppInv(t);
    }
  }

  lemma ShutdownArrivesInv(s: Reg, addr: int)
    requires Inv(s)
    ensures Inv(Next(s, ShutdownArrives(addr)))
  {
    var t := Next(s, ShutdownArrives(addr));
    if t != s {
      ExtractInjective(s.addresses, addr);
      assert s.addresses[addr] in s.addresses.Values;
      forall id ensures (Busy(t, id) <==> Busy(s, id)) && (InIAppPhase(t, id) <==> InIAppPhase(s, id)) {
      }
      assert ConnectedInv(t);
      assert IAppInv(t);
      assert TaskInv(t);
    }
  }

  lemma LoopInv(s: Reg, a: Action)
    requires Inv(s) && (a.EraseNode? || a.RemoveFromIApp?)
    ensures Inv(Next(s, a))
  {
    var t := Next(s, a);
    if t != s {
      if a.EraseNode? {
        EraseRemovesExactly(s.connected, s.loop.id);
        assert forall b :: b in s.tasks && s.tasks[b].node.id == s.loop.id ==> Busy(s, s.loop.id);
      }
      forall id ensures (Busy(t, id) <==> Busy(s, id)) && (InIAppPhase(t, id) <==> InIAppPhase(s, id)) {
      }
      assert ConnectedInv(t);
      assert IAppInv(t);
      assert TaskInv(t);
    }
  }

  lemma NextInv(s: Reg, a: Action)
    requires Inv(s)
    ensures Inv(Next(s, a))
  {
    match a
    case SetupArrives(addr, node) => SetupArrivesInv(s, addr, node);
    case RegisterAddress(addr) => RegisterAddressInv(s, addr);
    case AddToIApp(addr) => AddToIAppInv(s, addr);
    case PushNode(addr) => PushNodeInv(s, addr);
    case ShutdownArrives(addr) => ShutdownArrivesInv(s, addr);
    case EraseNode => LoopInv(s, a);
    case RemoveFromIApp => LoopInv(s, a);
  }

  lemma ReachableInv(s: Reg)
    requires Reachable(Init, Next, s)
    ensures Inv(s)
  {
    forall s, a | Inv(s) ensures Inv(Next(s, a)) {
      NextInv(s, a);
    }
    ReachableKeeps(Init, Next, Inv, s);
  }

  // What follows for every run

  /** With no setup and no shutdown in progress the three registries hold the same identifiers, once each. */
  lemma RegistriesAgree(s: Reg)
    requires Reachable(Init, Next, s) && s.tasks == map[] && s.loop.Idle?
    ensures Injective(s.addresses) && DistinctIds(s.connected)
    ensures forall id :: HasId(s.connected, id) <==> id in s.addresses.Values
    ensures s.iApp == s.addresses.Values
  {
    ReachableInv(s);
    forall id ensures id in s.iApp <==> id in s.addresses.Values {
    }
  }

  /** Neither adding a node to the iApp twice nor removing one that is not there can happen. */
  lemma IAppChangesAreValid(s: Reg)
    requires Reachable(Init, Next, s)
    ensures forall a :: a in s.tasks && s.tasks[a].phase.Mapped? ==> s.tasks[a].node.id !in s.iApp
    ensures s.loop.Erased? ==> s.loop.id in s.iApp
  {
    ReachableInv(s);
    forall a | a in s.tasks && s.tasks[a].phase.Mapped? ensures s.tasks[a].node.id !in s.iApp {
      assert Busy(s, s.tasks[a].node.id);
    }
  }

  /** The address of a connected node can be looked up, unless its shutdown has begun. */
  lemma ConnectedIsAddressable(s: Reg, id: nat)
    requires Reachable(Init, Next, s) && HasId(s.connected, id)
    ensures id in s.addresses.Values <==> !Leaving(s, id)
  {
    ReachableInv(s);
  }

  /** A shutdown finds its address exactly when the setup from it got past the registration, and then finds
      the node in the list exactly when that setup is finished. */
  lemma ShutdownSucceedsIffSetupDone(s: Reg, addr: int)
    requires Reachable(Init, Next, s) && s.loop.Idle? && (addr in s.addresses || addr in s.tasks)
    ensures addr in s.addresses <==> !(addr in s.tasks && s.tasks[addr].phase.Arrived?)
    ensures var t := Next(s, ShutdownArrives(addr));
            t.loop.AddressRemoved? && HasId(t.connected, t.loop.id) <==> addr !in s.tasks
  {
    ReachableInv(s);
    if addr in s.addresses {
      assert s.addresses[addr] in s.addresses.Values;
      if Busy(s, s.addresses[addr]) {
        var a :| a in s.tasks && s.tasks[a].node.id == s.addresses[addr];
      }
    }
  }

  /** A shutdown of a node that is set up removes that node from all three registries and nothing else. */
  lemma ShutdownRemovesExactly(s: Reg, addr: int)
    requires Reachable(Init, Next, s) && s.loop.Idle? && addr in s.addresses && addr !in s.tasks
    ensures var t := Run(Next, s, [ShutdownArrives(addr), EraseNode, RemoveFromIApp]);
            var id := s.addresses[addr];
            && t.loop.Idle? && t.tasks == s.tasks
            && t.addresses == s.addresses - {addr} && t.iApp == s.iApp - {id}
            && (forall n :: n in t.connected <==> n in s.connected && n.id != id)
            && !HasId(t.connected, id) && id !in t.addresses.Values
  {
    ShutdownSucceedsIffSetupDone(s, addr);
    ReachableInv(s);
    var s1 := Next(s, ShutdownArrives(addr));
    NextInv(s, ShutdownArrives(addr));
    EraseRemovesExactly(s1.connected, s1.loop.id);
    var s2 := Next(s1, EraseNode);
    assert Run(Next, s, [ShutdownArrives(addr), EraseNode, RemoveFromIApp])
        == Run(Next, s1, [EraseNode, RemoveFromIApp])
        == Run(Next, s2, [RemoveFromIApp]) == Next(s2, RemoveFromIApp);
  }

  ghost predicate ShutdownMissesNode(s: Reg)
  {
    s.loop.AddressRemoved? && !HasId(s.connected, s.loop.id)
  }

  /** And every new node has a run in which its shutdown comes before its setup is finished. */
  lemma ShutdownCanMissNode(s: Reg, addr: int, node: E2Node)
    requires Reachable(Init, Next, s) && s.loop.Idle? && NewNode(s, addr, node.id)
    ensures Possible(Next, ShutdownMissesNode, s)
  {
    ReachableInv(s);
    var s1 := Next(s, SetupArrives(addr, node));
    var s2 := Next(s1, RegisterAddress(addr));
    PossibleNow(Next, ShutdownMissesNode, Next(s2, ShutdownArrives(addr)));
    PossibleAfter(Next, ShutdownMissesNode, s2, ShutdownArrives(addr));
    PossibleAfter(Next, ShutdownMissesNode, s1, RegisterAddress(addr));
    PossibleAfter(Next, ShutdownMissesNode, s, SetupArrives(addr, node));
  }

  // What is registered

  /** The setup of a new node, from the message to the list: the node itself is listed, with its functions. */
  lemma SetupRegisters(s: Reg, addr: int, node: E2Node)
    requires Reachable(Init, Next, s) && s.loop.Idle? && NewNode(s, addr, node.id)
    ensures var t := Next(Next(Next(Next(s, SetupArrives(addr, node)), RegisterAddress(addr)), AddToIApp(addr)),
                          PushNode(addr));
            && t.connected == s.connected + [node] && t.addresses == s.addresses[addr := node.id]
            && t.iApp == s.iApp + {node.id} && t.tasks == s.tasks && t.loop == s.loop
  {
    assert s.tasks[addr := Task(node, InIApp)] - {addr} == s.tasks;
  }

  ghost predicate Named(acts: seq<Action>, addr: int, node: E2Node)
  {
    exists k :: 0 <= k < |acts| && acts[k] == SetupArrives(addr, node)
  }

  ghost predicate NamedAnywhere(acts: seq<Action>, node: E2Node)
  {
    exists addr :: Named(acts, addr, node)
  }

  lemma StepRegistersNamed(s: Reg, a: Action)
    ensures forall n :: n in Next(s, a).connected ==>
              n in s.connected || exists b :: b in s.tasks && s.tasks[b].node == n
    ensures forall b :: b in Next(s, a).tasks ==>
              || a == SetupArrives(b, Next(s, a).tasks[b].node)
              || (b in s.tasks && s.tasks[b].node == Next(s, a).tasks[b].node)
  {
    if a.EraseNode? && Next(s, a) != s {
      EraseOnlyRemoves(s.connected, s.loop.id);
    }
  }

  lemma NamedLater(acts: seq<Action>, addr: int, node: E2Node)
    requires acts != [] && Named(acts[1..], addr, node)
    ensures Named(acts, addr, node)
  {
    var k :| 0 <= k < |acts| - 1 && acts[1..][k] == SetupArrives(addr, node);
    assert acts[k + 1] == SetupArrives(addr, node);
  }

  /** In every interleaving each listed node is one that a setup of the run has named, functions and all, and
      each task works for the address and the node of a setup. */
  lemma {:induction false} OnlyNamedNodes(s: Reg, acts: seq<Action>)
    requires s.connected == [] && s.tasks == map[]
    ensures forall n :: n in Run(Next, s, acts).connected ==> NamedAnywhere(acts, n)
    ensures forall b :: b in Run(Next, s, acts).tasks ==> Named(acts, b, Run(Next, s, acts).tasks[b].node)
  {
    OnlyNamedFrom(s, acts);
  }

  lemma {:induction false} OnlyNamedFrom(s: Reg, acts: seq<Action>)
    ensures forall n :: n in Run(Next, s, acts).connected ==>
              n in s.connected || (exists b :: b in s.tasks && s.tasks[b].node == n) || NamedAnywhere(acts, n)
    ensures forall b :: b in Run(Next, s, acts).tasks ==>
              || (b in s.tasks && s.tasks[b].node == Run(Next, s, acts).tasks[b].node)
              || Named(acts, b, Run(Next, s, acts).tasks[b].node)
    decreases acts
  {
    if acts != [] {
      var s1, t := Next(s, acts[0]), Run(Next, s, acts);
      StepRegistersNamed(s, acts[0]);
      OnlyNamedFrom(s1, acts[1..]);
      forall b | b in t.tasks
        ensures (b in s.tasks && s.tasks[b].node == t.tasks[b].node) || Named(acts, b, t.tasks[b].node)
      {
        if Named(acts[1..], b, t.tasks[b].node) {
          NamedLater(acts, b, t.tasks[b].node);
        }
      }
      forall n | n in t.connected
        ensures n in s.connected || (exists b :: b in s.tasks && s.tasks[b].node == n) || NamedAnywhere(acts, n)
      {
        if NamedAnywhere(acts[1..], n) {
          var addr :| Named(acts[1..], addr, n);
          NamedLater(acts, addr, n);
        } else if exists b :: b in s1.tasks && s1.tasks[b].node == n {
          var b :| b in s1.tasks && s1.tasks[b].node == n;
          assert acts[0] == SetupArrives(b, n) ==> Named(acts, b, n);
        }
      }
    }
  }
}

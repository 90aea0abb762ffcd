/** The setup tasks and shutdowns of `NodeRuns` without the condition that a setup comes from a new node: an
    agent that waits too long for its setup response sends the request again. The two-way map keeps equal
    pairs side by side, and the iApp asserts that it does not know the node yet; a failed assertion ends the
    run. */
module RepeatedSetups {
  import opened NodeRegistry
  import opened NodeRuns
  import opened Runs

  datatype Setup = Setup(addr: int, node: E2Node, phase: Phase)

  datatype Registries = Registries(pairs: seq<(int, nat)>, connected: seq<E2Node>, iApp: set<nat>, setups: seq<Setup>,
                                   loop: Loop)

  datatype Step =
    | Arrive(addr: int, node: E2Node)
    | Register(i: nat)
    | EnterIApp(i: nat)
    | Push(i: nat)
    | Shutdown(k: nat)
    | EraseListed
    | LeaveIApp

  function Without<T>(s: seq<T>, i: nat): seq<T>
    requires i < |s|
  {
    s[..i] + s[i + 1..]
  }

  predicate At(s: Registries, i: nat, phase: Phase)
  {
    i < |s.setups| && s.setups[i].phase == phase
  }

  function Advance(s: Registries, i: nat, phase: Phase): Registries
    requires i < |s.setups|
  {
    s.(setups := s.setups[i := s.setups[i].(phase := phase)])
  }

  /** `Shutdown` is one that passes; see `Meets` below. */
  function After(s: Registries, a: Step): Registries
  {
    match a
    case Arrive(addr, node) => if s.loop.Idle? then s.(setups := s.setups + [Setup(addr, node, Arrived)]) else s
    case Register(i) =>
      if At(s, i, Arrived)
      then Advance(s, i, Mapped).(pairs := s.pairs + [(s.setups[i].addr, s.setups[i].node.id)])
      else s
    case EnterIApp(i) =>
      if At(s, i, Mapped) && s.setups[i].node.id !in s.iApp
      then Advance(s, i, InIApp).(iApp := s.iApp + {s.setups[i].node.id})
      else s
    case Push(i) =>
      if At(s, i, InIApp)
      then s.(connected := s.connected + [s.setups[i].node], setups := Without(s.setups, i))
      else s
    case Shutdown(k) =>
      if s.loop.Idle? && k < |s.pairs|
      then s.(pairs := Without(s.pairs, k), loop := AddressRemoved(s.pairs[k].1))
      else s
    case EraseListed =>
      if s.loop.AddressRemoved? && HasId(s.connected, s.loop.id)
      then s.(connected := Erase(s.connected, s.loop.id), loop := Erased(s.loop.id))
      else s
    case LeaveIApp => if s.loop.Erased? then s.(iApp := s.iApp - {s.loop.id}, loop := Idle) else s
  }

  predicate Start(s: Registries)
  {
    s == Registries([], [], {}, [], Idle)
  }

  // Counting the records of a node

  ghost function Count<T>(s: seq<T>, p: T -> bool): nat
  {
    if s == [] then 0 else Count(s[..|s| - 1], p) + One(p(s[|s| - 1]))
  }

  function One(b: bool): nat
  {
    if b then 1 else 0
  }

  lemma CountAppend<T>(s: seq<T>, x: T, p: T -> bool)
    ensures Count(s + [x], p) == Count(s, p) + One(p(x))
  {
    assert (s + [x])[..|s|] == s;
  }

  lemma {:induction false} CountWithout<T>(s: seq<T>, i: nat, p: T -> bool)
    requires i < |s|
    ensures Count(s, p) == Count(Without(s, i), p) + One(p(s[i]))
    decreases |s|
  {
    var n, rest := |s| - 1, Without(s, i);
    if i == n {
      assert rest == s[..n];
    } else {
      CountWithout(s[..n], i, p);
      assert rest[..|rest| - 1] == Without(s[..n], i);
    }
  }

  lemma CountUpdate<T>(s: seq<T>, i: nat, x: T, p: T -> bool)
    requires i < |s|
    ensures Count(s[i := x], p) + One(p(s[i])) == Count(s, p) + One(p(x))
  {
    CountWithout(s, i, p);
    CountWithout(s[i := x], i, p);
    assert Without(s[i := x], i) == Without(s, i);
  }

  lemma {:induction false} CountNone<T>(s: seq<T>, p: T -> bool)
    ensures Count(s, p) == 0 <==> forall i :: 0 <= i < |s| ==> !p(s[i])
  {
    if s != [] {
      CountNone(s[..|s| - 1], p);
      assert forall i :: 0 <= i < |s| - 1 ==> s[..|s| - 1][i] == s[i];
    }
  }

  ghost function Addresses(s: Registries, id: nat): nat
  {
    Count(s.pairs, (p: (int, nat)) => p.1 == id)
  }

  ghost function Listed(nodes: seq<E2Node>, id: nat): nat
  {
    Count(nodes, (n: E2Node) => n.id == id)
  }

  /** The setups of a node that have registered its address and are not finished. */
  ghost function Unfinished(s: Registries, id: nat): nat
  {
    Count(s.setups, (t: Setup) => t.node.id == id && !t.phase.Arrived?)
  }

  ghost function BeforePush(s: Registries, id: nat): nat
  {
    Count(s.setups, (t: Setup) => t.node.id == id && t.phase.InIApp?)
  }

  ghost predicate Balanced(s: Registries, id: nat)
  {
    && Addresses(s, id) + One(s.loop.AddressRemoved? && s.loop.id == id)
       == Listed(s.connected, id) + Unfinished(s, id)
    && One(id in s.iApp) == Listed(s.connected, id) + BeforePush(s, id) + One(s.loop.Erased? && s.loop.id == id)
  }

  lemma ListedIffHasId(nodes: seq<E2Node>, id: nat)
    ensures Listed(nodes, id) > 0 <==> HasId(nodes, id)
  {
    CountNone(nodes, (n: E2Node) => n.id == id);
  }

  lemma {:induction false} FirstWithId(nodes: seq<E2Node>, id: nat) returns (i: nat)
    requires HasId(nodes, id)
    ensures i < |nodes| && nodes[i].id == id && forall j :: 0 <= j < i ==> nodes[j].id != id
  {
    if nodes[0].id == id {
      i := 0;
    } else {
      var k :| 0 <= k < |nodes| && nodes[k].id == id;
      assert nodes[1..][k - 1].id == id;
      var rest := FirstWithId(nodes[1..], id);
      i := rest + 1;
      assert forall j :: 1 <= j < i ==> nodes[j] == nodes[1..][j - 1];
    }
  }

  lemma EraseUnlists(nodes: seq<E2Node>, id: nat, other: nat)
    requires HasId(nodes, id)
    ensures Listed(Erase(nodes, id), other) + One(other == id) == Listed(nodes, other)
  {
    var i := FirstWithId(nodes, id);
    EraseAt(nodes, id, i);
    CountWithout(nodes, i, (n: E2Node) => n.id == other);
  }

  /** What a new, changed or removed setup does to the two counts of a node. */
  lemma SetupAdded(s: Registries, setup: Setup, id: nat)
    ensures var t := s.(setups := s.setups + [setup]);
            && Unfinished(t, id) == Unfinished(s, id) + One(setup.node.id == id && !setup.phase.Arrived?)
            && BeforePush(t, id) == BeforePush(s, id) + One(setup.node.id == id && setup.phase.InIApp?)
  {
    CountAppend(s.setups, setup, (t: Setup) => t.node.id == id && !t.phase.Arrived?);
    CountAppend(s.setups, setup, (t: Setup) => t.node.id == id && t.phase.InIApp?);
  }

  lemma SetupAdvanced(s: Registries, i: nat, phase: Phase, id: nat)
    requires i < |s.setups|
    ensures var t, mine := Advance(s, i, phase), s.setups[i].node.id == id;
            && Unfinished(t, id) + One(mine && !s.setups[i].phase.Arrived?)
               == Unfinished(s, id) + One(mine && !phase.Arrived?)
            && BeforePush(t, id) + One(mine && s.setups[i].phase.InIApp?)
               == BeforePush(s, id) + One(mine && phase.InIApp?)
  {
    var after := s.setups[i].(phase := phase);
    CountUpdate(s.setups, i, after, (t: Setup) => t.node.id == id && !t.phase.Arrived?);
    CountUpdate(s.setups, i, after, (t: Setup) => t.node.id == id && t.phase.InIApp?);
  }

  lemma SetupRemoved(s: Registries, i: nat, id: nat)
    requires i < |s.setups|
    ensures var t, mine := s.(setups := Without(s.setups, i)), s.setups[i].node.id == id;
            && Unfinished(s, id) == Unfinished(t, id) + One(mine && !s.setups[i].phase.Arrived?)
            && BeforePush(s, id) == BeforePush(t, id) + One(mine && s.setups[i].phase.InIApp?)
  {
    CountWithout(s.setups, i, (t: Setup) => t.node.id == id && !t.phase.Arrived?);
    CountWithout(s.setups, i, (t: Setup) => t.node.id == id && t.phase.InIApp?);
  }

  lemma PairAdded(s: Registries, pair: (int, nat), id: nat)
    ensures Addresses(s.(pairs := s.pairs + [pair]), id) == Addresses(s, id) + One(pair.1 == id)
  {
    CountAppend(s.pairs, pair, (p: (int, nat)) => p.1 == id);
  }

  lemma NodePushed(nodes: seq<E2Node>, node: E2Node, id: nat)
    ensures Listed(nodes + [node], id) == Listed(nodes, id) + One(node.id == id)
  {
    CountAppend(nodes, node, (n: E2Node) => n.id == id);
  }

  lemma RegisterBalances(s: Registries, i: nat, id: nat)
    requires Balanced(s, id) && At(s, i, Arrived)
    ensures Balanced(After(s, Register(i)), id)
  {
    SetupAdvanced(s, i, Mapped, id);
    PairAdded(s, (s.setups[i].addr, s.setups[i].node.id), id);
  }

  lemma PushBalances(s: Registries, i: nat, id: nat)
    requires Balanced(s, id) && At(s, i, InIApp)
    ensures Balanced(After(s, Push(i)), id)
  {
    SetupRemoved(s, i, id);
    NodePushed(s.connected, s.setups[i].node, id);
  }

  lemma EnterBalances(s: Registries, i: nat, id: nat)
    requires Balanced(s, id) && At(s, i, Mapped)
    ensures Balanced(After(s, EnterIApp(i)), id)
  {
    SetupAdvanced(s, i, InIApp, id);
  }

  lemma PairRemoved(s: Registries, k: nat, id: nat)
    requires k < |s.pairs|
    ensures Addresses(s, id) == Addresses(s.(pairs := Without(s.pairs, k)), id) + One(s.pairs[k].1 == id)
  {
    CountWithout(s.pairs, k, (p: (int, nat)) => p.1 == id);
  }

  lemma ArriveBalances(s: Registries, addr: int, node: E2Node, id: nat)
    requires Balanced(s, id)
    ensures Balanced(After(s, Arrive(addr, node)), id)
  {
    SetupAdded(s, Setup(addr, node, Arrived), id);
  }

  lemma ShutdownBalances(s: Registries, k: nat, id: nat)
    requires Balanced(s, id) && s.loop.Idle? && k < |s.pairs|
    ensures Balanced(After(s, Shutdown(k)), id)
  {
    PairRemoved(s, k, id);
  }

  lemma EraseBalances(s: Registries, id: nat)
    requires Balanced(s, id) && s.loop.AddressRemoved? && HasId(s.connected, s.loop.id)
    ensures Balanced(After(s, EraseListed), id)
  {
    EraseUnlists(s.connected, s.loop.id, id);
  }

  lemma StepBalances(s: Registries, a: Step, id: nat)
    requires Balanced(s, id)
    ensures Balanced(After(s, a), id)
  {
    if After(s, a) != s {
      match a {
        case Arrive(addr, node) => ArriveBalances(s, addr, node, id);
        case Register(i) => RegisterBalances(s, i, id);
        case EnterIApp(i) => EnterBalances(s, i, id);
        case Push(i) => PushBalances(s, i, id);
        case Shutdown(k) => ShutdownBalances(s, k, id);
        case EraseListed => EraseBalances(s, id);
        case LeaveIApp =>
      }
    }
  }

  ghost predicate AllBalanced(s: Registries)
  {
    forall id :: Balanced(s, id)
  }

  lemma ReachableBalanced(s: Registries)
    requires Reachable(Start, After, s)
    ensures AllBalanced(s)
  {
    forall s, a | AllBalanced(s) ensures AllBalanced(After(s, a)) {
      forall id ensures Balanced(After(s, a), id) {
        StepBalances(s, a, id);
      }
    }
    ReachableKeeps(Start, After, AllBalanced, s);
  }

  // What follows for every run, with any repetitions

  /** Outside shutdowns every node has one address for its entry in the list and one more for each setup of
      it that is not finished; list and iApp hold it once at most. So the registries agree exactly when no
      registered setup is unfinished. */
  lemma AgreeIffNoneUnfinished(s: Registries)
    requires Reachable(Start, After, s) && s.loop.Idle?
    ensures forall id :: Addresses(s, id) == Listed(s.connected, id) + Unfinished(s, id) && Listed(s.connected, id) <= 1
    ensures (forall id :: Addresses(s, id) == Listed(s.connected, id) == One(id in s.iApp))
            <==> forall i :: 0 <= i < |s.setups| ==> s.setups[i].phase.Arrived?
  {
    ReachableBalanced(s);
    forall id
      ensures Addresses(s, id) == Listed(s.connected, id) + Unfinished(s, id) && Listed(s.connected, id) <= 1
      ensures Unfinished(s, id) == 0 ==> One(id in s.iApp) == Listed(s.connected, id)
    {
      assert Balanced(s, id);
      CountNone(s.setups, (t: Setup) => t.node.id == id && !t.phase.Arrived?);
      CountNone(s.setups, (t: Setup) => t.node.id == id && t.phase.InIApp?);
    }
    forall i | 0 <= i < |s.setups| && !s.setups[i].phase.Arrived? ensures Unfinished(s, s.setups[i].node.id) > 0 {
      var id := s.setups[i].node.id;
      CountNone(s.setups, (t: Setup) => t.node.id == id && !t.phase.Arrived?);
    }
    if forall i :: 0 <= i < |s.setups| ==> s.setups[i].phase.Arrived? {
      forall id ensures Unfinished(s, id) == 0 {
        CountNone(s.setups, (t: Setup) => t.node.id == id && !t.phase.Arrived?);
      }
    }
  }

  /** The iApp's assertion stops a setup exactly when the node is in the list, is about to be pushed there by
      another setup, or is not yet removed after a shutdown. */
  lemma RefusedIffKnown(s: Registries, i: nat)
    requires Reachable(Start, After, s) && At(s, i, Mapped)
    ensures var id := s.setups[i].node.id;
            After(s, EnterIApp(i)) == s <==>
              HasId(s.connected, id) || BeforePush(s, id) > 0 || (s.loop.Erased? && s.loop.id == id)
  {
    ReachableBalanced(s);
    var id := s.setups[i].node.id;
    assert Balanced(s, id);
    ListedIffHasId(s.connected, id);
    if id !in s.iApp {
      assert After(s, EnterIApp(i)).setups[i] != s.setups[i];
    }
  }

  /** A setup repeated by a connected node leaves that node with two addresses, and list and iApp as they
      are, and goes no further. */
  lemma RepeatedSetup(s: Registries, addr: int, node: E2Node)
    requires Reachable(Start, After, s) && s.loop.Idle? && s.setups == [] && HasId(s.connected, node.id)
    ensures var t := After(After(s, Arrive(addr, node)), Register(0));
            && Addresses(t, node.id) == 2 && Listed(t.connected, node.id) == 1
            && t.connected == s.connected && t.iApp == s.iApp && After(t, EnterIApp(0)) == t
  {
    var s1 := After(s, Arrive(addr, node));
    var t := After(s1, Register(0));
    Then(s, Arrive(addr, node));
    Then(s1, Register(0));
    AgreeIffNoneUnfinished(t);
    ListedIffHasId(t.connected, node.id);
    assert Unfinished(t, node.id) == 1 by {
      OneUnfinished(t, node.id);
    }
    RefusedIffKnown(t, 0);
  }

  // Shutdowns of a node with several addresses

  /** What the shutdown of one of the addresses of a node comes to: the right tree finds the node, and the
      left tree, asked for that node, meets one of its addresses, which is asserted to be the same. */
  predicate Meets(s: Registries, k: nat, met: nat)
  {
    k < |s.pairs| && met < |s.pairs| && s.pairs[met].1 == s.pairs[k].1
  }

  predicate MetPasses(s: Registries, k: nat, met: nat)
    requires Meets(s, k, met)
  {
    s.pairs[met].0 == s.pairs[k].0
  }

  ghost predicate OneAddress(s: Registries, id: nat, addr: int)
  {
    forall m :: 0 <= m < |s.pairs| && s.pairs[m].1 == id ==> s.pairs[m].0 == addr
  }

  /** Whatever the tree meets, the shutdown passes exactly when all pairs of the node have this address. */
  lemma ShutdownPassesIffOneAddress(s: Registries, k: nat)
    requires k < |s.pairs|
    ensures (forall met :: Meets(s, k, met) ==> MetPasses(s, k, met)) <==> OneAddress(s, s.pairs[k].1, s.pairs[k].0)
  {
    forall m | 0 <= m < |s.pairs| && s.pairs[m].1 == s.pairs[k].1 ensures Meets(s, k, m) {
    }
  }

  /** A node that sets up again from another address, before the first connection is shut down, has two. The
      tree meets the older one, so the shutdown of the newer fails. */
  lemma SecondAddressFails(a: int, b: int, node: E2Node)
    requires a != b
    ensures exists s :: && Reachable(Start, After, s) && s.loop.Idle?
                        && s.pairs == [(a, node.id), (b, node.id)] && Meets(s, 1, 0) && !MetPasses(s, 1, 0)
  {
    var s := Registries([], [], {}, [], Idle);
    assert Run(After, s, []) == s;
    Then(s, Arrive(a, node));
    s := After(s, Arrive(a, node));
    Then(s, Register(0));
    s := After(s, Register(0));
    assert s.pairs == [(a, node.id)];
    Then(s, Arrive(b, node));
    s := After(s, Arrive(b, node));
    Then(s, Register(1));
    s := After(s, Register(1));
    assert s.pairs == [(a, node.id), (b, node.id)];
  }

  lemma Then(s: Registries, a: Step)
    requires Reachable(Start, After, s)
    ensures Reachable(Start, After, After(s, a))
  {
    assert Run(After, s, [a]) == Run(After, After(s, a), []);
    ReachableThen(Start, After, s, [a]);
  }

  lemma OneUnfinished(s: Registries, id: nat)
    requires |s.setups| == 1 && s.setups[0].node.id == id && !s.setups[0].phase.Arrived?
    ensures Unfinished(s, id) == 1
  {
    CountAppend([], s.setups[0], (t: Setup) => t.node.id == id && !t.phase.Arrived?);
    assert s.setups == [] + [s.setups[0]];
  }

  // What is registered

  /** The setup of an unknown node, from the message to the list: the node itself is listed, with its
      functions. */
  lemma SetupRegisters(s: Registries, addr: int, node: E2Node)
    requires Reachable(Start, After, s) && s.loop.Idle? && s.setups == [] && node.id !in s.iApp
    ensures var t := After(After(After(After(s, Arrive(addr, node)), Register(0)), EnterIApp(0)), Push(0));
            && t.connected == s.connected + [node] && t.pairs == s.pairs + [(addr, node.id)]
            && t.iApp == s.iApp + {node.id} && t.setups == [] && t.loop == s.loop
  {
  }

  ghost predicate Named(acts: seq<Step>, addr: int, node: E2Node)
  {
    exists k :: 0 <= k < |acts| && acts[k] == Arrive(addr, node)
  }

  /** The node is in the list or a setup of it is under way. */
  ghost predicate Known(s: Registries, node: E2Node)
  {
    node in s.connected || exists i :: 0 <= i < |s.setups| && s.setups[i].node == node
  }

  lemma KnownBefore(s: Registries, a: Step, node: E2Node)
    requires Known(After(s, a), node)
    ensures Known(s, node) || (a.Arrive? && a.node == node)
  {
    var t := After(s, a);
    if node in t.connected {
      if a.EraseListed? && t != s {
        EraseOnlyRemoves(s.connected, s.loop.id);
      }
    } else {
      var i :| 0 <= i < |t.setups| && t.setups[i].node == node;
      if a.Push? && t != s {
        assert t.setups[i] == s.setups[if i < a.i then i else i + 1];
      } else if i < |s.setups| {
        assert t.setups[i].node == s.setups[i].node;
      }
    }
  }

  /** With any repetitions, each listed node is one that a setup of the run has named, functions and all. */
  lemma {:induction false} OnlyNamedNodes(s: Registries, acts: seq<Step>, node: E2Node)
    requires Known(Run(After, s, acts), node) && !Known(s, node)
    ensures exists addr :: Named(acts, addr, node)
    decreases acts
  {
    var s1 := After(s, acts[0]);
    if Known(s1, node) {
      KnownBefore(s, acts[0], node);
      assert Named(acts, acts[0].addr, node);
    } else {
      OnlyNamedNodes(s1, acts[1..], node);
      var addr :| Named(acts[1..], addr, node);
      var k :| 0 <= k < |acts| - 1 && acts[1..][k] == Arrive(addr, node);
      assert acts[k + 1] == Arrive(addr, node);
      assert Named(acts, addr, node);
    }
  }
}

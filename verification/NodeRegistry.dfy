/** The E2 Nodes a near-RT RIC knows: the two-way map between node identifiers and socket addresses, the
    sequence of connected nodes and the iApp's copy. Setup requests are handled by parallel tasks, shutdown
    notifications by the event loop. */
module NodeRegistry {
  import opened Maps

  /** A connected node and the RAN functions accepted from it. */
  datatype E2Node = E2Node(id: nat, funcs: seq<nat>)

  predicate HasId(nodes: seq<E2Node>, id: nat)
  {
    exists i :: 0 <= i < |nodes| && nodes[i].id == id
  }

  ghost predicate DistinctIds(nodes: seq<E2Node>)
  {
    forall i, j :: 0 <= i < j < |nodes| ==> nodes[i].id != nodes[j].id
  }

  /** Removes the first node with the identifier. */
  function Erase(nodes: seq<E2Node>, id: nat): seq<E2Node>
  {
    if nodes == [] then []
    else if nodes[0].id == id then nodes[1..]
    else [nodes[0]] + Erase(nodes[1..], id)
  }

  lemma WithoutAt(nodes: seq<E2Node>, i: nat)
    requires 0 < i < |nodes|
    ensures nodes[..i] + nodes[i + 1..] == [nodes[0]] + (nodes[1..][..i - 1] + nodes[1..][i..])
  {
    assert nodes[..i] == [nodes[0]] + nodes[1..][..i - 1];
    assert nodes[i + 1..] == nodes[1..][i..];
  }

  lemma {:induction false} EraseAt(nodes: seq<E2Node>, id: nat, i: nat)
    requires i < |nodes| && nodes[i].id == id
    requires forall j :: 0 <= j < i ==> nodes[j].id != id
    ensures Erase(nodes, id) == nodes[..i] + nodes[i + 1..]
  {
    if i == 0 {
      assert nodes[..0] + nodes[1..] == nodes[1..];
    } else {
      EraseAt(nodes[1..], id, i - 1);
      WithoutAt(nodes, i);
    }
  }

  lemma HeadOrTail(nodes: seq<E2Node>, n: E2Node)
    requires nodes != []
    ensures n in nodes <==> n == nodes[0] || n in nodes[1..]
  {
    assert nodes == [nodes[0]] + nodes[1..];
  }

  lemma {:induction false} EraseMembers(nodes: seq<E2Node>, id: nat)
    requires DistinctIds(nodes)
    ensures forall n :: n in Erase(nodes, id) <==> n in nodes && n.id != id
  {
    if nodes != [] {
      EraseMembers(nodes[1..], id);
      forall n ensures n in Erase(nodes, id) <==> n in nodes && n.id != id {
        HeadOrTail(nodes, n);
        if nodes[0].id != id {
          HeadOrTail(Erase(nodes, id), n);
        }
      }
    }
  }

  lemma {:induction false} EraseOnlyRemoves(nodes: seq<E2Node>, id: nat)
    ensures forall n :: n in Erase(nodes, id) ==> n in nodes
  {
    if nodes != [] && nodes[0].id != id {
      EraseOnlyRemoves(nodes[1..], id);
      forall n | n in Erase(nodes, id) ensures n in nodes {
        HeadOrTail(nodes, n);
        HeadOrTail(Erase(nodes, id), n);
      }
    }
  }

  lemma {:induction false} EraseKeepsDistinct(nodes: seq<E2Node>, id: nat)
    requires DistinctIds(nodes)
    ensures DistinctIds(Erase(nodes, id))
  {
    if nodes != [] && nodes[0].id != id {
      var rest := Erase(nodes[1..], id);
      EraseKeepsDistinct(nodes[1..], id);
      EraseMembers(nodes[1..], id);
      forall j | 0 <= j < |rest| ensures rest[j].id != nodes[0].id {
        assert rest[j] in rest;
      }
    }
  }

  /** Where identifiers are distinct, erasing one removes exactly that node. */
  lemma {:induction false} EraseRemovesExactly(nodes: seq<E2Node>, id: nat)
    requires DistinctIds(nodes) && HasId(nodes, id)
    ensures DistinctIds(Erase(nodes, id))
    ensures forall n :: n in Erase(nodes, id) <==> n in nodes && n.id != id
    ensures forall other :: HasId(Erase(nodes, id), other) <==> HasId(nodes, other) && other != id
  {
    EraseMembers(nodes, id);
    EraseKeepsDistinct(nodes, id);
    MembersGiveIds(nodes, Erase(nodes, id), id);
  }

  lemma MembersGiveIds(nodes: seq<E2Node>, rest: seq<E2Node>, id: nat)
    requires forall n :: n in rest <==> n in nodes && n.id != id
    ensures forall other :: HasId(rest, other) <==> HasId(nodes, other) && other != id
  {
    forall other | HasId(nodes, other) && other != id ensures HasId(rest, other) {
      var j :| 0 <= j < |nodes| && nodes[j].id == other;
      assert nodes[j] in rest;
    }
    forall other | HasId(rest, other) ensures HasId(nodes, other) && other != id {
      var j :| 0 <= j < |rest| && rest[j].id == other;
      assert rest[j] in nodes;
    }
  }

  lemma PushIds(nodes: seq<E2Node>, node: E2Node, id: nat)
    ensures HasId(nodes + [node], id) <==> HasId(nodes, id) || node.id == id
  {
    var p := nodes + [node];
    assert p[|nodes|] == node;
    if HasId(nodes, id) {
      var i :| 0 <= i < |nodes| && nodes[i].id == id;
      assert p[i].id == id;
    }
  }

  class Nodes {
    var addresses: map<int, nat>   // socket address to node identifier
    var connected: seq<E2Node>
    var iApp: set<nat>

    constructor ()
      ensures Valid() && addresses == map[] && connected == [] && iApp == {}
    {
      addresses, connected, iApp := map[], [], {};
    }

    /** No setup or shutdown is in progress. */
    ghost predicate Valid()
      reads this
    {
      && Injective(addresses) && DistinctIds(connected)
      && (forall id :: HasId(connected, id) <==> id in addresses.Values)
      && iApp == addresses.Values
    }

    /** Neither the identifier nor the address may be registered, which only debug builds check. */
    method RegisterAddress(id: nat, addr: int)
      requires Injective(addresses) && addr !in addresses && id !in addresses.Values
      modifies `addresses
      ensures Injective(addresses) && addresses == old(addresses)[addr := id]
      ensures addresses.Values == old(addresses).Values + {id}
    {
      InsertInjective(addresses, addr, id);
      addresses := addresses[addr := id];
    }

    method RemoveAddress(addr: int) returns (id: nat)
      requires Injective(addresses) && addr in addresses
      modifies `addresses
      ensures Injective(addresses) && addresses == old(addresses) - {addr} && id == old(addresses)[addr]
      ensures addresses.Values == old(addresses).Values - {id}
    {
      ExtractInjective(addresses, addr);
      id := addresses[addr];
      addresses := addresses - {addr};
    }

    method RemoveId(id: nat) returns (addr: int)
      requires Injective(addresses) && id in addresses.Values
      modifies `addresses
      ensures addr in old(addresses) && old(addresses)[addr] == id
      ensures Injective(addresses) && addresses == old(addresses) - {addr}
      ensures addresses.Values == old(addresses).Values - {id}
    {
      ghost var _ := KeyWithValue(addresses, id);
      addr :| addr in addresses && addresses[addr] == id;
      ExtractInjective(addresses, addr);
      addresses := addresses - {addr};
    }

    method FindAddress(id: nat) returns (addr: int)
      requires Injective(addresses) && id in addresses.Values
      ensures forall a :: a in addresses && addresses[a] == id <==> a == addr
    {
      ghost var _ := KeyWithValue(addresses, id);
      addr :| addr in addresses && addresses[addr] == id;
    }

    /** One task: the address first, then the handler's two registrations. */
    method SetupRequest(id: nat, funcs: seq<nat>, addr: int)
      requires Valid() && addr !in addresses && id !in addresses.Values
      modifies this
      ensures Valid() && addresses == old(addresses)[addr := id]
      ensures connected == old(connected) + [E2Node(id, funcs)]
    {
      RegisterAddress(id, addr);
      iApp := iApp + {id};
      connected := connected + [E2Node(id, funcs)];
      assert connected[|connected| - 1].id == id;
      forall other | HasId(old(connected), other) ensures HasId(connected, other) {
        var j :| 0 <= j < |old(connected)| && old(connected)[j].id == other;
        assert connected[j].id == other;
      }
      assert forall j :: 0 <= j < |old(connected)| ==> HasId(old(connected), old(connected)[j].id);
    }

    /** Shutdown of one address removes its node, and nothing else, everywhere. */
    method Shutdown(addr: int) returns (id: nat)
      requires Valid() && addr in addresses
      modifies this
      ensures Valid() && id == old(addresses)[addr] && addresses == old(addresses) - {addr}
      ensures connected == Erase(old(connected), id)
      ensures forall n :: n in connected <==> n in old(connected) && n.id != id
      ensures iApp == old(iApp) - {id}
    {
      assert addresses[addr] in addresses.Values;
      id := RemoveAddress(addr);
      EraseRemovesExactly(connected, id);
      var i := 0;
      while connected[i].id != id
        invariant 0 <= i < |connected|
        invariant forall j :: 0 <= j < i ==> connected[j].id != id
        decreases |connected| - i
      {
        assert HasId(connected, id);
        i := i + 1;
      }
      EraseAt(connected, id, i);
      connected := connected[..i] + connected[i + 1..];
      iApp := iApp - {id};
    }
  }
}

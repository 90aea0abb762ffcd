/** The E2 Nodes an xApp knows: filled by the first setup response, replaced by every node update. */
module XappNodes {
  import opened NodeRegistry

  /** The nodes of a message by identifier. Where one is listed twice the first counts. */
  function ByIdentifier(nodes: seq<E2Node>): map<nat, seq<nat>>
  {
    if nodes == [] then map[]
    else
      var before, last := ByIdentifier(nodes[..|nodes| - 1]), nodes[|nodes| - 1];
      if last.id in before then before else before[last.id := last.funcs]
  }

  lemma {:induction false} FirstListingCounts(nodes: seq<E2Node>, id: nat)
    ensures id in ByIdentifier(nodes) <==> HasId(nodes, id)
    ensures id in ByIdentifier(nodes) ==>
              exists i :: && 0 <= i < |nodes| && nodes[i] == E2Node(id, ByIdentifier(nodes)[id])
                          && forall j :: 0 <= j < i ==> nodes[j].id != id
  {
    if nodes != [] {
      var n := |nodes| - 1;
      var before := nodes[..n];
      FirstListingCounts(before, id);
      assert HasId(nodes, id) <==> HasId(before, id) || nodes[n].id == id by {
        PushIds(before, nodes[n], id);
        assert before + [nodes[n]] == nodes;
      }
      if id in ByIdentifier(before) {
        var i :| && 0 <= i < n && before[i] == E2Node(id, ByIdentifier(before)[id])
                 && forall j :: 0 <= j < i ==> before[j].id != id;
        assert nodes[i] == before[i] && forall j :: 0 <= j < i ==> nodes[j] == before[j];
      } else if nodes[n].id == id {
        forall j | 0 <= j < n ensures nodes[j].id != id {
          assert nodes[j] == before[j];
        }
      }
    }
  }

  ghost predicate AllNew(known: map<nat, seq<nat>>, listed: seq<E2Node>)
  {
    DistinctIds(listed) && forall i :: 0 <= i < |listed| ==> listed[i].funcs != [] && listed[i].id !in known
  }

  lemma AllNewStep(known: map<nat, seq<nat>>, listed: seq<E2Node>, i: nat)
    requires i < |listed| && AllNew(known, listed[..i])
    ensures AllNew(known, listed[..i + 1]) <==>
              && listed[i].funcs != [] && listed[i].id !in known && !HasId(listed[..i], listed[i].id)
    ensures AllNew(known, listed) ==> AllNew(known, listed[..i + 1])
  {
    var before, upTo := listed[..i], listed[..i + 1];
    assert forall j :: 0 <= j < i ==> upTo[j] == before[j];
  }

  class Xapp {
    var xappId: nat
    var connected: bool
    var nodes: map<nat, seq<nat>>

    constructor ()
      ensures !connected && nodes == map[]
    {
      xappId, connected, nodes := 0, false, map[];
    }

    /** Adding a known node is an error. */
    method AddNode(n: E2Node)
      requires n.funcs != [] && n.id !in nodes
      modifies `nodes
      ensures nodes == old(nodes)[n.id := n.funcs]
    {
      nodes := nodes[n.id := n.funcs];
    }

    /** Only the first response counts. It adds its nodes to those that updates have brought; `ok` is
        whether none of them is known already, listed twice or without functions, which is asserted. */
    method SetupResponse(xappId: nat, listed: seq<E2Node>) returns (ok: bool)
      modifies this
      ensures ok <==> old(connected) || AllNew(old(nodes), listed)
      ensures old(connected) ==> connected && nodes == old(nodes) && this.xappId == old(this.xappId)
      ensures ok && !old(connected) ==>
                connected && nodes == old(nodes) + ByIdentifier(listed) && this.xappId == xappId
    {
      if connected {
        return true;
      }
      this.xappId := xappId;
      for i := 0 to |listed|
        invariant !connected && this.xappId == xappId
        invariant AllNew(old(nodes), listed[..i])
        invariant nodes == old(nodes) + ByIdentifier(listed[..i])
      {
        FirstListingCounts(listed[..i], listed[i].id);
        AllNewStep(old(nodes), listed, i);
        if listed[i].funcs == [] || listed[i].id in nodes {
          return false;
        }
        assert listed[..i + 1][..i] == listed[..i];
        AddNode(listed[i]);
      }
      assert listed[..|listed|] == listed;
      connected := true;
      ok := true;
    }

    /** Removes every node, then adds those of the message that are not there yet. */
    method UpdateNodes(xappId: nat, listed: seq<E2Node>)
      requires forall i :: 0 <= i < |listed| ==> listed[i].funcs != []
      modifies this
      ensures nodes == ByIdentifier(listed) && this.xappId == xappId && connected == old(connected)
    {
      this.xappId := xappId;
      var current := nodes.Keys;
      while current != {}
        invariant nodes.Keys == current
        invariant this.xappId == xappId && connected == old(connected)
        decreases current
      {
        var id :| id in current;
        nodes := nodes - {id};
        current := current - {id};
      }
      for i := 0 to |listed|
        invariant nodes == ByIdentifier(listed[..i])
        invariant this.xappId == xappId && connected == old(connected)
      {
        assert listed[..i + 1][..i] == listed[..i];
        if listed[i].id !in nodes {
          AddNode(listed[i]);
        }
      }
      assert listed[..|listed|] == listed;
    }
  }
}

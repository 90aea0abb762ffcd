/** Every atomic step of the system keeps each part of the invariant. */
module E2SystemInvariants {
  import opened AgentProcedures
  import opened E2ap
  import opened E2System
  import opened Ledger
  import opened Maps
  import opened PendingEvents
  import opened RicProcedures

  // The ledger of requests and answers in transit

  lemma SetToMultiset<T>(s: set<T>, x: T)
    requires x !in s
    ensures multiset(s + {x}) == multiset(s) + multiset{x}
  {
  }

  lemma Move(a: Keys, b: Keys, c: Keys, k: Keys)
    ensures a + (b + k) + c == (a + k) + b + c
    ensures a + b + (c + k) == a + (b + k) + c
    ensures a + b + (c + k) == (a + b + c) + k
    ensures (a + k) + b + c == (a + b + c) + k
  {
  }

  /** What a change of one agent and its channels does to the ledger. */
  lemma NodeUpdate(nodes: seq<Node>, n: nat, node: Node, k: Keys)
    requires n < |nodes|
    ensures NodeKeys(node) == NodeKeys(nodes[n]) + k ==>
              Sum(nodes[n := node], NodeKeys) == Sum(nodes, NodeKeys) + k
    ensures NodeKeys(nodes[n]) == NodeKeys(node) + k ==>
              Sum(nodes, NodeKeys) == Sum(nodes[n := node], NodeKeys) + k
  {
    SumUpdate(nodes, n, node, NodeKeys);
    Cancel(Sum(nodes[n := node], NodeKeys), Sum(nodes, NodeKeys), NodeKeys(nodes[n]), NodeKeys(node), k);
  }

  lemma Cancel(a: Keys, b: Keys, x: Keys, y: Keys, k: Keys)
    requires a + x == b + y
    ensures y == x + k ==> a == b + k
    ensures x == y + k ==> b == a + k
  {
    if y == x + k {
      assert a + x == (b + k) + x;
      assert a == (a + x) - x;
      assert b + k == ((b + k) + x) - x;
    }
    if x == y + k {
      assert b + y == (a + k) + y;
      assert b == (b + y) - y;
      assert a + k == ((a + k) + y) - y;
    }
  }

  lemma CallUpdate(calls: seq<Call>, t: nat, c: Call)
    requires t < |calls|
    ensures CallKeys(calls[t]) == multiset{} ==>
              Sum(calls[t := c], CallKeys) == Sum(calls, CallKeys) + CallKeys(c)
    ensures CallKeys(c) == multiset{} ==>
              Sum(calls, CallKeys) == Sum(calls[t := c], CallKeys) + CallKeys(calls[t])
  {
    SumUpdate(calls, t, c, CallKeys);
    Cancel(Sum(calls[t := c], CallKeys), Sum(calls, CallKeys), CallKeys(calls[t]), CallKeys(c), CallKeys(c));
    Cancel(Sum(calls[t := c], CallKeys), Sum(calls, CallKeys), CallKeys(calls[t]), CallKeys(c), CallKeys(calls[t]));
  }

  /** Steps of a call before its pending event exists. */
  lemma LedgerClaim(s: Sys, t: nat, c: Call, s': Sys)
    requires LedgerInv(s) && t < |s.calls| && !s.calls[t].Unsent? && !c.Unsent?
    requires s'.ric.pending == s.ric.pending
    requires s'.calls == s.calls[t := c] && s'.nodes == s.nodes && s'.tasks == s.tasks
    ensures LedgerInv(s')
  {
    CallUpdate(s.calls, t, c);
  }

  lemma LedgerInsert(s: Sys, t: nat, c: Call, fd: int, s': Sys)
    requires LedgerInv(s) && t < |s.calls| && !s.calls[t].Unsent?
    requires c.Unsent? && fd !in s.ric.pending && c.req.Key() !in s.ric.pending.Values
    requires s'.ric.pending == s.ric.pending[fd := c.req.Key()]
    requires s'.calls == s.calls[t := c] && s'.nodes == s.nodes && s'.tasks == s.tasks
    ensures LedgerInv(s')
  {
    var k := multiset{c.req.Key()};
    CallUpdate(s.calls, t, c);
    Move(Sum(s.calls, CallKeys), Sum(s.nodes, NodeKeys), Sum(s.tasks, ReplyKeys), k);
    InsertInjective(s.ric.pending, fd, c.req.Key());
    SetToMultiset(s.ric.pending.Values, c.req.Key());
  }

  lemma LedgerSend(s: Sys, t: nat)
    requires LedgerInv(s) && t < |s.calls| && s.calls[t].Unsent? && s.calls[t].node < |s.nodes|
    ensures LedgerInv(DoSend(s, t))
  {
    var c := s.calls[t];
    var n := s.nodes[c.node];
    CallUpdate(s.calls, t, Idle);
    SumAppend(n.down, Queued(c.req, c.req.id in n.want), QueuedKeys);
    Move(Sum(n.down, QueuedKeys), Sum(n.up, ReplyKeys), multiset{}, CallKeys(c));
    assert NodeKeys(WithSent(n, c.req)) == NodeKeys(n) + CallKeys(c);
    NodeUpdate(s.nodes, c.node, WithSent(n, c.req), CallKeys(c));
    Move(Sum(s.calls[t := Idle], CallKeys), Sum(s.nodes, NodeKeys), Sum(s.tasks, ReplyKeys), CallKeys(c));
  }

  lemma LedgerAgentReceive(s: Sys, n: nat, isPeriodic: bool, fd: int)
    requires LedgerInv(s) && n < |s.nodes| && s.nodes[n].down != []
    ensures LedgerInv(DoAgentReceive(s, n, isPeriodic, fd))
  {
    var node := s.nodes[n];
    var node' := WithReceived(node, isPeriodic, fd);
    var req := node.down[0].req;
    SumPop(node.down, QueuedKeys);
    SumAppend(node.up, req.Answer(), ReplyKeys);
    AnswerKeepsKey(req);
    Move(Sum(node'.down, QueuedKeys), Sum(node.up, ReplyKeys), multiset{}, multiset{req.Key()});
    assert NodeKeys(node') == NodeKeys(node) + multiset{};
    NodeUpdate(s.nodes, n, node', multiset{});
  }

  lemma LedgerAgentIndicate(s: Sys, n: nat, id: GenId)
    requires LedgerInv(s) && n < |s.nodes|
    ensures LedgerInv(DoAgentIndicate(s, n, id))
  {
    var node := s.nodes[n];
    SumAppend(node.up, Indication(id), ReplyKeys);
    NodeUpdate(s.nodes, n, DoAgentIndicate(s, n, id).nodes[n], multiset{});
  }

  lemma LedgerRicReceive(s: Sys, n: nat)
    requires LedgerInv(s) && n < |s.nodes| && s.nodes[n].up != []
    ensures LedgerInv(DoRicReceive(s, n))
  {
    var node := s.nodes[n];
    var node' := node.(up := node.up[1..]);
    var k := ReplyKeys(node.up[0]);
    SumPop(node.up, ReplyKeys);
    SumAppend(s.tasks, node.up[0], ReplyKeys);
    assert NodeKeys(node) == NodeKeys(node') + k;
    NodeUpdate(s.nodes, n, node', k);
    Move(Sum(s.calls, CallKeys), Sum(s.nodes[n := node'], NodeKeys), Sum(s.tasks, ReplyKeys), k);
  }

  lemma LedgerHandle(s: Sys, i: nat, fd: int)
    requires LedgerInv(s) && i < |s.tasks|
    requires !s.tasks[i].Indication? ==> fd in s.ric.pending && s.ric.pending[fd] == s.tasks[i].Key()
    ensures LedgerInv(DoHandle(s, i, fd))
  {
    var rest := s.tasks[..i] + s.tasks[i + 1..];
    var k := ReplyKeys(s.tasks[i]);
    SumRemove(s.tasks, i, ReplyKeys);
    Move(Sum(s.calls, CallKeys), Sum(s.nodes, NodeKeys), Sum(rest, ReplyKeys), k);
    if !s.tasks[i].Indication? {
      var key := s.tasks[i].Key();
      var v := s.ric.pending.Values;
      ExtractInjective(s.ric.pending, fd);
      assert v == (v - {key}) + {key};
      SetToMultiset(v - {key}, key);
      assert InTransit(DoHandle(s, i, fd)) == InTransit(s) - k;
    }
  }

  lemma PendingIsLive(s: Sys, ev: Event)
    requires ev in s.ric.pending.Values && ev.kind != SubscriptionDeleteRequest
    ensures LivePending(s, ev.id.req)
  {
    var fd := KeyWithValue(s.ric.pending, ev);
  }

  lemma LedgerStep(s: Sys, a: Action)
    requires LedgerInv(s) && FdInv(s) && PairInv(s) && Enabled(s, a)
    ensures LedgerInv(Apply(s, a))
  {
    match a {
      case Allocate(t, node, template) =>
        var s' := DoAllocate(s, t, node, template);
        LedgerClaim(s, t, s'.calls[t], s');
      case CreateTimer(t, fd) =>
        var s' := DoCreateTimer(s, t, fd);
        LedgerClaim(s, t, s'.calls[t], s');
      case Insert(t) =>
        assert s.calls[t].fd in TimedFds(s.calls);
        LedgerInsert(s, t, Unsent(s.calls[t].req, s.calls[t].node), s.calls[t].fd, DoInsert(s, t));
      case Send(t) => LedgerSend(s, t);
      case StartDelete(t, node, id, fd) =>
        if SubscriptionDeleteReq(id).Key() !in s.ric.pending.Values {
          LedgerInsert(s, t, Unsent(SubscriptionDeleteReq(id), node), fd, DoStartDelete(s, t, node, id, fd));
        }
      case AgentReceive(n, isPeriodic, fd) => LedgerAgentReceive(s, n, isPeriodic, fd);
      case AgentIndicate(n, id) => LedgerAgentIndicate(s, n, id);
      case RicReceive(n) => LedgerRicReceive(s, n);
      case Handle(i, fd) => LedgerHandle(s, i, fd);
      case Close(fd) =>
    }
  }

  // Timers

  lemma TimedFdsUpdate(calls: seq<Call>, t: nat, c: Call)
    requires t < |calls|
    requires forall u :: 0 <= u < |calls| && u != t && calls[u].Timed? && calls[t].Timed? ==>
                           calls[u].fd != calls[t].fd
    ensures TimedFds(calls[t := c]) == TimedFds(calls) - (if calls[t].Timed? then {calls[t].fd} else {})
                                       + (if c.Timed? then {c.fd} else {})
  {
    var after := calls[t := c];
    assert c.Timed? ==> after[t].Timed? && after[t].fd == c.fd;
    forall fd | fd in TimedFds(calls) && !(calls[t].Timed? && calls[t].fd == fd)
      ensures fd in TimedFds(after)
    {
      var u :| 0 <= u < |calls| && calls[u].Timed? && calls[u].fd == fd;
      assert after[u] == calls[u];
    }
    forall fd | fd in TimedFds(after)
      ensures (c.Timed? && c.fd == fd) || (fd in TimedFds(calls) && !(calls[t].Timed? && calls[t].fd == fd))
    {
      var u :| 0 <= u < |after| && after[u].Timed? && after[u].fd == fd;
      if u != t {
        assert calls[u] == after[u];
      }
    }
  }

  lemma FdCreateTimer(s: Sys, t: nat, fd: int)
    requires FdInv(s) && t < |s.calls| && s.calls[t].Reserved? && fd !in s.ric.epoll
    ensures FdInv(DoCreateTimer(s, t, fd))
  {
    TimedFdsUpdate(s.calls, t, DoCreateTimer(s, t, fd).calls[t]);
    assert forall u :: 0 <= u < |s.calls| && s.calls[u].Timed? ==> s.calls[u].fd in TimedFds(s.calls);
  }

  lemma FdInsert(s: Sys, t: nat)
    requires FdInv(s) && t < |s.calls| && s.calls[t].Timed?
    ensures FdInv(DoInsert(s, t))
  {
    TimedFdsUpdate(s.calls, t, DoInsert(s, t).calls[t]);
    assert s.calls[t].fd in TimedFds(s.calls);
  }

  /** Allocating, sending and starting a delete make no call `Timed` and end no `Timed` one. */
  lemma FdUntimed(s: Sys, a: Action)
    requires FdInv(s) && Enabled(s, a) && (a.Allocate? || a.Send? || a.StartDelete?)
    ensures FdInv(Apply(s, a))
  {
    TimedFdsUpdate(s.calls, a.t, Apply(s, a).calls[a.t]);
  }

  lemma FdStep(s: Sys, a: Action)
    requires FdInv(s) && Enabled(s, a)
    ensures FdInv(Apply(s, a))
  {
    match a {
      case CreateTimer(t, fd) => FdCreateTimer(s, t, fd);
      case Insert(t) => FdInsert(s, t);
      case Allocate(_, _, _) => FdUntimed(s, a);
      case Send(_) => FdUntimed(s, a);
      case StartDelete(_, _, _, _) => FdUntimed(s, a);
      case _ =>
    }
  }

  // Subscriptions

  lemma {:induction false} ReplayPop(ids: set<GenId>, ms: seq<Queued>)
    requires ms != []
    ensures Replay(ids, ms) == Replay(Effect(ids, ms[0].req), ms[1..])
  {
    if |ms| == 1 {
      assert ms[..0] == [] && ms[1..] == [];
    } else {
      var n := |ms| - 1;
      ReplayPop(ids, ms[..n]);
      assert ms[..n][1..] == ms[1..][..n - 1];
    }
  }

  lemma NodeSend(n: Node, req: Request)
    requires NodeInv(n) && (req.SubscriptionReq? ==> req.id !in n.want)
    ensures NodeInv(WithSent(n, req))
  {
    var n' := WithSent(n, req);
    var down, ids := n'.down, Ids(n.agent);
    assert down[..|n.down|] == n.down;
    assert Replay(ids, down) == Effect(Replay(ids, n.down), req);
    forall j | 0 <= j < |down|
      ensures down[j].subscribed <==> down[j].req.id in Replay(ids, down[..j])
      ensures down[j].req.SubscriptionReq? ==> !down[j].subscribed
    {
      if j < |n.down| {
        assert down[j] == n.down[j] && down[..j] == n.down[..j];
      }
    }
  }

  lemma AgentStepEffect(ag: AgentState, req: Request, isPeriodic: bool, fd: int)
    requires FdsAgree(ag) && IdsUnique(ag)
    requires req.SubscriptionReq? ==> req.id !in Ids(ag)
    requires req.SubscriptionReq? && isPeriodic ==> fd > 0 && fd !in ag.epoll
    requires req.SubscriptionDeleteReq? && req.id !in ag.aperiodic && req.id in ag.periodic.Values ==>
               fd in ag.periodic && ag.periodic[fd] == req.id
    ensures var ag' := AgentStep(ag, req, isPeriodic, fd);
            FdsAgree(ag') && IdsUnique(ag') && Ids(ag') == Effect(Ids(ag), req)
  {
    match req {
      case SubscriptionReq(id) =>
        if isPeriodic {
          SubscribeAddsId(ag, id, fd);
        }
      case SubscriptionDeleteReq(id) => StopRemovesId(ag, id, fd);
      case ControlReq(_) =>
    }
  }

  lemma NodeReceive(n: Node, isPeriodic: bool, fd: int)
    requires NodeInv(n) && n.down != []
    requires var req, ag := n.down[0].req, n.agent;
             && (req.SubscriptionReq? && isPeriodic ==> fd > 0 && fd !in ag.epoll)
             && (req.SubscriptionDeleteReq? && req.id !in ag.aperiodic && req.id in ag.periodic.Values ==>
                   fd in ag.periodic && ag.periodic[fd] == req.id)
    ensures NodeInv(WithReceived(n, isPeriodic, fd))
  {
    var n' := WithReceived(n, isPeriodic, fd);
    var ids := Ids(n.agent);
    assert n.down[..0] == [];
    assert n.down[0].subscribed <==> n.down[0].req.id in Replay(ids, n.down[..0]);
    AgentStepEffect(n.agent, n.down[0].req, isPeriodic, fd);
    ReplayPop(ids, n.down);
    forall j | 0 <= j < |n'.down|
      ensures Replay(Ids(n'.agent), n'.down[..j]) == Replay(ids, n.down[..j + 1])
    {
      ReplayPop(ids, n.down[..j + 1]);
      assert n.down[..j + 1][1..] == n'.down[..j];
    }
  }

  lemma NodesStep(s: Sys, a: Action)
    requires NodesInv(s) && PairInv(s) && Enabled(s, a)
    ensures NodesInv(Apply(s, a))
  {
    var s' := Apply(s, a);
    match a {
      case Send(t) =>
        var c := s.calls[t];
        NodeSend(s.nodes[c.node], c.req);
      case AgentReceive(n, isPeriodic, fd) => NodeReceive(s.nodes[n], isPeriodic, fd);
      case AgentIndicate(n, _) => assert NodeInv(s'.nodes[n]);
      case RicReceive(n) => assert NodeInv(s'.nodes[n]);
      case _ => assert s'.nodes == s.nodes;
    }
  }

  // Identifiers

  /** The next identifier is not in use exactly when no live one returns with it. */
  lemma NewIdIsNotLive(s: Sys)
    requires BornInv(s)
    ensures !Live(s, ToUint16(s.ric.reqId)) <==> NoneReturns(s)
  {
    forall r | Live(s, r) && r in s.born
      ensures (s.next - s.born[r]) % ID_SPACE == 0 <==> r == ToUint16(s.ric.reqId)
    {
      ReqIdsCollide(s.next, s.born[r]);
    }
  }

  ghost predicate Asks(c: Call, r: nat)
  {
    c.Requesting() && c.req.id.req == r
  }

  /** No identifier comes into use but by allocation. */
  lemma BornFrame(s: Sys, s': Sys)
    requires BornInv(s)
    requires s'.ric.reqId == s.ric.reqId && s'.next == s.next && s'.born == s.born
    requires forall r :: Live(s', r) ==> Live(s, r)
    ensures BornInv(s')
  {
  }

  lemma CallIsLive(s: Sys, t: nat)
    requires t < |s.calls| && s.calls[t].Requesting()
    ensures Live(s, s.calls[t].req.id.req)
  {
    assert LiveCall(s, s.calls[t].req.id.req);
  }

  lemma BornAllocate(s: Sys, t: nat, node: nat, template: Request)
    requires BornInv(s) && t < |s.calls| && template.id.req < ID_SPACE
    ensures BornInv(DoAllocate(s, t, node, template))
  {
    var s' := DoAllocate(s, t, node, template);
    var r' := ToUint16(s.ric.reqId);
    forall r | Live(s', r) ensures r in s'.born {
      if LiveCall(s', r) {
        var u :| 0 <= u < |s'.calls| && s'.calls[u].Requesting() && s'.calls[u].req.id.req == r;
        if u != t {
          CallIsLive(s, u);
        }
      } else {
        assert Live(s, r) by {
          LivesOn(s, s', r);
        }
      }
    }
  }

  lemma LivesOn(s: Sys, s': Sys, r: nat)
    requires s'.ric.pending == s.ric.pending && s'.nodes == s.nodes
    ensures LivePending(s', r) ==> LivePending(s, r)
    ensures LiveSubscription(s', r) ==> LiveSubscription(s, r)
  {
  }

  /** A step of call `t`, and of what is pending and subscribed, that only moves its own identifier on. */
  lemma BornMove(s: Sys, s': Sys, t: nat)
    requires BornInv(s) && t < |s.calls| && |s'.calls| == |s.calls| && |s'.nodes| == |s.nodes|
    requires s'.ric.reqId == s.ric.reqId && s'.next == s.next && s'.born == s.born
    requires forall u :: 0 <= u < |s.calls| && u != t ==> s'.calls[u] == s.calls[u]
    requires s'.calls[t].Requesting() ==> s.calls[t].Requesting() && s'.calls[t].req == s.calls[t].req
    requires forall fd :: fd in s'.ric.pending ==>
               || (fd in s.ric.pending && s'.ric.pending[fd] == s.ric.pending[fd])
               || s'.ric.pending[fd].kind == SubscriptionDeleteRequest
               || Asks(s.calls[t], s'.ric.pending[fd].id.req)
    requires forall n, id :: 0 <= n < |s.nodes| && id in s'.nodes[n].want ==>
               id in s.nodes[n].want || Asks(s.calls[t], id.req)
    ensures BornInv(s')
  {
    forall r | Live(s', r) ensures Live(s, r) {
      if s.calls[t].Requesting() {
        CallIsLive(s, t);
      }
      if LivePending(s', r) {
        var fd :| && fd in s'.ric.pending && s'.ric.pending[fd].kind != SubscriptionDeleteRequest
                  && s'.ric.pending[fd].id.req == r;
        assert fd in s.ric.pending && s'.ric.pending[fd] == s.ric.pending[fd] ==> LivePending(s, r);
      } else if LiveCall(s', r) {
        var u :| 0 <= u < |s'.calls| && s'.calls[u].Requesting() && s'.calls[u].req.id.req == r;
        CallIsLive(s, u);
      } else {
        var n, id :| 0 <= n < |s'.nodes| && id in s'.nodes[n].want && id.req == r;
        assert id in s.nodes[n].want ==> LiveSubscription(s, r);
      }
    }
    BornFrame(s, s');
  }

  /** A step that leaves the calls and the subscriptions alone and makes nothing pending. */
  lemma BornShrink(s: Sys, s': Sys)
    requires BornInv(s) && s'.calls == s.calls && |s'.nodes| == |s.nodes|
    requires s'.ric.reqId == s.ric.reqId && s'.next == s.next && s'.born == s.born
    requires forall fd :: fd in s'.ric.pending ==> fd in s.ric.pending && s'.ric.pending[fd] == s.ric.pending[fd]
    requires forall n :: 0 <= n < |s.nodes| ==> s'.nodes[n].want == s.nodes[n].want
    ensures BornInv(s')
  {
    forall r | Live(s', r) ensures Live(s, r) {
      if LiveCall(s', r) {
        assert LiveCall(s, r);
      } else if LivePending(s', r) {
        assert LivePending(s, r);
      } else {
        assert LiveSubscription(s, r);
      }
    }
    BornFrame(s, s');
  }

  lemma BornStep(s: Sys, a: Action)
    requires BornInv(s) && PairInv(s) && Enabled(s, a)
    ensures BornInv(Apply(s, a))
  {
    var s' := Apply(s, a);
    match a {
      case Allocate(t, node, template) => BornAllocate(s, t, node, template);
      case CreateTimer(t, _) => BornMove(s, s', t);
      case Insert(t) => BornMove(s, s', t);
      case Send(t) => BornMove(s, s', t);
      case StartDelete(t, node, id, fd) => BornMove(s, s', t);
      case _ => BornShrink(s, s');
    }
  }

  // Pairs

  lemma PairAllocate(s: Sys, t: nat, node: nat, template: Request)
    requires PairInv(s) && Enabled(s, Allocate(t, node, template))
    ensures PairInv(DoAllocate(s, t, node, template))
  {
    var key := Numbered(s, template).Key();
    assert forall u :: 0 <= u < |s.calls| && s.calls[u].Requesting() && s.calls[u].req.Key() == key ==>
                         PairInUse(s, key);
  }

  lemma PairInsert(s: Sys, t: nat)
    requires PairInv(s) && FdInv(s) && t < |s.calls| && s.calls[t].Timed?
    ensures PairInv(DoInsert(s, t))
  {
    assert s.calls[t].fd in TimedFds(s.calls);
    InsertInjective(s.ric.pending, s.calls[t].fd, s.calls[t].req.Key());
  }

  lemma PairStartDelete(s: Sys, t: nat, node: nat, id: GenId, fd: int)
    requires PairInv(s) && FdInv(s) && t < |s.calls| && s.calls[t].Idle? && node < |s.nodes| && fd !in s.ric.epoll
    ensures PairInv(DoStartDelete(s, t, node, id, fd))
  {
    InsertInjective(s.ric.pending, fd, SubscriptionDeleteReq(id).Key());
  }

  lemma PairSend(s: Sys, t: nat)
    requires PairInv(s) && t < |s.calls| && s.calls[t].Unsent? && s.calls[t].node < |s.nodes|
    ensures PairInv(DoSend(s, t))
  {
  }

  lemma PairStep(s: Sys, a: Action)
    requires PairInv(s) && FdInv(s) && Enabled(s, a)
    ensures PairInv(Apply(s, a))
  {
    match a {
      case Allocate(t, node, template) => PairAllocate(s, t, node, template);
      case Insert(t) => PairInsert(s, t);
      case Send(t) => PairSend(s, t);
      case StartDelete(t, node, id, fd) => PairStartDelete(s, t, node, id, fd);
      case CreateTimer(t, _) => assert Apply(s, a).calls[t].req == s.calls[t].req;
      case Handle(_, fd) =>
        ValuesShrink(s.ric.pending, fd);
        PairShrink(s, Apply(s, a));
      case _ => PairShrink(s, Apply(s, a));
    }
  }

  lemma PairShrink(s: Sys, s': Sys)
    requires PairInv(s) && s'.calls == s.calls && s'.ric.pending.Values <= s.ric.pending.Values
    requires |s'.nodes| == |s.nodes| && forall n :: 0 <= n < |s.nodes| ==> s'.nodes[n].want == s.nodes[n].want
    ensures PairInv(s')
  {
  }

  /** Every step keeps the whole invariant. */
  lemma Step(s: Sys, a: Action)
    requires Inv(s) && Enabled(s, a)
    ensures Inv(Apply(s, a))
  {
    LedgerStep(s, a);
    FdStep(s, a);
    BornStep(s, a);
    PairStep(s, a);
    NodesStep(s, a);
  }
}

/** What holds in every state that any interleaving of the system can reach. */
module E2SystemSafety {
  import opened AgentProcedures
  import opened E2ap
  import opened E2System
  import opened E2SystemInvariants
  import opened Ledger
  import opened Maps
  import opened PendingEvents
  import opened RicProcedures
  import opened Runs

  ghost predicate Init(s: Sys)
  {
    && s.ric == RicState(s.ric.sctp, FIRST_REQ_ID, map[], {s.ric.sctp})
    && (forall t :: 0 <= t < |s.calls| ==> s.calls[t].Idle?)
    && (forall n :: 0 <= n < |s.nodes| ==> InitNode(s.nodes[n]))
    && s.tasks == [] && s.closing == {} && s.next == 0 && s.born == map[]
  }

  ghost predicate InitNode(n: Node)
  {
    && n.down == [] && n.up == [] && n.want == {}
    && FdsAgree(n.agent) && n.agent.periodic == map[] && n.agent.aperiodic == multiset{}
  }

  ghost predicate InAnyRun(s: Sys)
  {
    Reachable(Init, Next, s)
  }

  lemma InitInv(s: Sys)
    requires Init(s)
    ensures Inv(s)
  {
    InitLedger(s);
    InitIds(s);
    InitFds(s);
    InitNodes(s);
  }

  lemma InitFds(s: Sys)
    requires Init(s)
    ensures FdInv(s)
  {
    assert TimedFds(s.calls) == {};
  }

  lemma InitNodes(s: Sys)
    requires Init(s)
    ensures NodesInv(s)
  {
    forall n | 0 <= n < |s.nodes| ensures NodeInv(s.nodes[n]) {
      assert Ids(s.nodes[n].agent) == {};
    }
  }

  lemma InitIds(s: Sys)
    requires Init(s)
    ensures BornInv(s) && PairInv(s)
  {
    assert forall r :: !Live(s, r);
  }

  lemma InitLedger(s: Sys)
    requires Init(s)
    ensures InTransit(s) == multiset{} && LedgerInv(s)
  {
    SumOfNothing(s.calls, CallKeys);
    SumOfNothing(s.nodes, NodeKeys);
  }

  lemma NextInv(s: Sys, a: Action)
    requires Inv(s)
    ensures Inv(Next(s, a))
  {
    if Enabled(s, a) {
      Step(s, a);
    }
  }

  lemma ReachableInv(s: Sys)
    requires InAnyRun(s)
    ensures Inv(s)
  {
    forall s0 | Init(s0) ensures Inv(s0) { InitInv(s0); }
    forall s1, a | Inv(s1) ensures Inv(Next(s1, a)) { NextInv(s1, a); }
    ReachableKeeps(Init, Next, Inv, s);
  }

  /** A (kind, identifier) pair is pending exactly when one request or answer with it is in transit, and
      never are there two. */
  lemma PendingIffOneInTransit(s: Sys, key: Event)
    requires InAnyRun(s)
    ensures key in s.ric.pending.Values <==> InTransit(s)[key] == 1
    ensures InTransit(s)[key] <= 1
  {
    ReachableInv(s);
  }

  lemma TaskIsInTransit(s: Sys, i: nat)
    requires LedgerInv(s) && i < |s.tasks| && !s.tasks[i].Indication?
    ensures s.tasks[i].Key() in InTransit(s) && s.tasks[i].Key() in s.ric.pending.Values
  {
    SumContains(s.tasks, i, ReplyKeys);
    assert s.tasks[i].Key() in ReplyKeys(s.tasks[i]);
  }

  /** An answer that the RIC has received finds its pending event, under one timer only. */
  lemma AnswerFindsPendingEvent(s: Sys, i: nat) returns (fd: int)
    requires InAnyRun(s) && i < |s.tasks| && !s.tasks[i].Indication?
    ensures Enabled(s, Handle(i, fd)) && s.ric.pending[fd] == s.tasks[i].Key()
    ensures forall f :: f in s.ric.pending && s.ric.pending[f] == s.tasks[i].Key() ==> f == fd
  {
    ReachableInv(s);
    TaskIsInTransit(s, i);
    fd := KeyWithValue(s.ric.pending, s.tasks[i].Key());
  }

  /** Two unhandled answers never compete for one pending event. */
  lemma AnswersAreDistinct(s: Sys, i: nat, j: nat)
    requires InAnyRun(s) && i < |s.tasks| && j < |s.tasks| && i != j
    requires !s.tasks[i].Indication? && !s.tasks[j].Indication?
    ensures s.tasks[i].Key() != s.tasks[j].Key()
  {
    ReachableInv(s);
    SumContainsTwo(s.tasks, i, j, ReplyKeys);
    assert InTransit(s)[s.tasks[i].Key()] <= 1;
  }

  ghost predicate Inserts(s: Sys, a: Action, key: Event)
  {
    || (a.Insert? && a.t < |s.calls| && s.calls[a.t].Timed? && s.calls[a.t].req.Key() == key)
    || (a.StartDelete? && SubscriptionDeleteReq(a.id).Key() == key)
  }

  ghost predicate Handles(s: Sys, a: Action, key: Event)
  {
    Enabled(s, a) && a.Handle? && a.i < |s.tasks| && !s.tasks[a.i].Indication? && s.tasks[a.i].Key() == key
  }

  ghost predicate Settled(s: Sys, key: Event)
  {
    Inv(s) && key !in s.ric.pending.Values
  }

  /** What becomes pending is inserted by the step. */
  lemma PendingIsInserted(s: Sys, a: Action, key: Event)
    requires Enabled(s, a) && key in Apply(s, a).ric.pending.Values
    ensures key in s.ric.pending.Values || Inserts(s, a, key)
  {
    var s' := Apply(s, a);
    var fd := KeyWithValue(s'.ric.pending, key);
    if fd in s.ric.pending && s.ric.pending[fd] == key {
      assert key in s.ric.pending.Values;
    }
  }

  lemma SettledIsNotHandled(s: Sys, a: Action, key: Event)
    requires Settled(s, key)
    ensures !Handles(s, a, key)
  {
    if Enabled(s, a) && a.Handle? && a.fd in s.ric.pending {
      assert s.ric.pending[a.fd] in s.ric.pending.Values;
    }
  }

  lemma SettledStep(s: Sys, a: Action, key: Event)
    requires Settled(s, key) && !Inserts(s, a, key)
    ensures Settled(Next(s, a), key)
  {
    NextInv(s, a);
    if Enabled(s, a) && key in Apply(s, a).ric.pending.Values {
      PendingIsInserted(s, a, key);
    }
  }

  /** Once the answer for a key is handled, no answer for it is handled again until the key is inserted
      again, however the run goes on. */
  lemma NotHandledTwice(s: Sys, i: nat, fd: int, acts: seq<Action>)
    requires InAnyRun(s) && Enabled(s, Handle(i, fd)) && !s.tasks[i].Indication?
    requires Never(Next, (s1, a) => Inserts(s1, a, s.tasks[i].Key()), Apply(s, Handle(i, fd)), acts)
    ensures Never(Next, (s1, a) => Handles(s1, a, s.tasks[i].Key()), Apply(s, Handle(i, fd)), acts)
  {
    var key := s.tasks[i].Key();
    ReachableInv(s);
    HandlingRemovesKey(s, i, fd);
    Step(s, Handle(i, fd));
    forall s1, a | Settled(s1, key)
      ensures !Handles(s1, a, key) && (!Inserts(s1, a, key) ==> Settled(Next(s1, a), key))
    {
      SettledIsNotHandled(s1, a, key);
      if !Inserts(s1, a, key) {
        SettledStep(s1, a, key);
      }
    }
    NeverWithout(Next, s1 => Settled(s1, key), (s1, a) => Inserts(s1, a, key), (s1, a) => Handles(s1, a, key),
                 Apply(s, Handle(i, fd)), acts);
  }

  lemma HandlingRemovesKey(s: Sys, i: nat, fd: int)
    requires InAnyRun(s) && Enabled(s, Handle(i, fd)) && !s.tasks[i].Indication?
    ensures s.tasks[i].Key() !in Apply(s, Handle(i, fd)).ric.pending.Values
    ensures InTransit(Apply(s, Handle(i, fd)))[s.tasks[i].Key()] == 0
  {
    ReachableInv(s);
    ExtractInjective(s.ric.pending, fd);
    Step(s, Handle(i, fd));
  }

  /** The descriptors the RIC waits on: the socket and the pending timers, plus timers of procedures that
      are between registering and inserting, or between extracting and closing. A ready descriptor is
      classified exactly when it is none of the latter. */
  lemma ReadyFdIsClassified(s: Sys, fd: int)
    requires InAnyRun(s) && fd in s.ric.epoll
    ensures fd == s.ric.sctp || fd in s.ric.pending <==> fd !in s.closing && fd !in TimedFds(s.calls)
  {
    ReachableInv(s);
  }

  /** When no procedure is halfway, the registered timers are the left keys of a two-way map. */
  lemma TimersArePendingEvents(s: Sys)
    requires InAnyRun(s) && s.closing == {}
    requires forall t :: 0 <= t < |s.calls| ==> !s.calls[t].Timed?
    ensures TimersAgree(s.ric) && Injective(s.ric.pending)
  {
    ReachableInv(s);
    assert TimedFds(s.calls) == {};
  }

  // Identifiers that come round

  /** A new identifier is used by no request, pending event or subscription exactly when none in use was
      handed out a multiple of 65536 allocations ago. */
  lemma AllocatedIdIsFresh(s: Sys, t: nat, node: nat, template: Request)
    requires InAnyRun(s) && t < |s.calls| && !template.SubscriptionDeleteReq? && template.id.req < ID_SPACE
    ensures !Live(s, DoAllocate(s, t, node, template).calls[t].req.id.req) <==> NoneReturns(s)
  {
    ReachableInv(s);
    NewIdIsNotLive(s);
    AllocatedNumber(s, t, node, template);
  }

  lemma AllocatedNumber(s: Sys, t: nat, node: nat, template: Request)
    requires t < |s.calls| && template.id.req < ID_SPACE
    ensures DoAllocate(s, t, node, template).calls[t].req.id.req == ToUint16(s.ric.reqId)
  {
  }

  /** In particular while everything in use is less than 65536 allocations old. */
  lemma YoungIdsDoNotReturn(s: Sys)
    requires InAnyRun(s)
    requires forall r :: Live(s, r) && r in s.born ==> s.next - s.born[r] < ID_SPACE
    ensures NoneReturns(s)
  {
    ReachableInv(s);
  }

  lemma PairIsLive(s: Sys, key: Event)
    requires PairInUse(s, key) && key.kind != SubscriptionDeleteRequest
    ensures Live(s, key.id.req)
  {
    if key in s.ric.pending.Values {
      PendingIsLive(s, key);
    } else {
      var t :| 0 <= t < |s.calls| && s.calls[t].Requesting() && s.calls[t].req.Key() == key;
      CallIsLive(s, t);
    }
  }

  /** All that an identifier says but its number. */
  predicate SameBut(a: GenId, b: GenId)
  {
    a.func == b.func && a.inst == b.inst
  }

  /** The next number makes `id` of the template exactly when `id` agrees with it in all else and was handed
      out a multiple of 65536 allocations ago. */
  lemma NumberReturnsIff(s: Sys, template: Request, id: GenId)
    requires InAnyRun(s) && template.id.req < ID_SPACE && Live(s, id.req)
    ensures id.req in s.born
    ensures Numbered(s, template).id == id <==> SameBut(template.id, id) && (s.next - s.born[id.req]) % ID_SPACE == 0
  {
    ReachableInv(s);
    ReqIdsCollide(s.next, s.born[id.req]);
    NumberedSays(s, template);
  }

  lemma NumberedSays(s: Sys, template: Request)
    requires template.id.req < ID_SPACE
    ensures Numbered(s, template).id == GenId(ToUint16(s.ric.reqId), template.id.inst, template.id.func)
  {
  }

  /** No pair of this kind in use returns with the next number. */
  ghost predicate NoPairReturns(s: Sys, template: Request)
  {
    forall key :: PairInUse(s, key) && key.kind == template.Key().kind && SameBut(key.id, template.id) &&
                  key.id.req in s.born ==>
                    (s.next - s.born[key.id.req]) % ID_SPACE != 0
  }

  ghost predicate NoSubscriptionReturns(s: Sys, template: Request, node: nat)
    requires node < |s.nodes|
  {
    forall id :: id in s.nodes[node].want && SameBut(id, template.id) && id.req in s.born ==>
                   (s.next - s.born[id.req]) % ID_SPACE != 0
  }

  /** A new pair is unused exactly when no pair in use that differs in the number only, and for a
      subscription none held by the node, was handed out a multiple of 65536 allocations ago. What other
      kinds, functions or nodes have in use does not matter. */
  lemma PairIsUnusedIff(s: Sys, node: nat, template: Request)
    requires InAnyRun(s) && node < |s.nodes| && !template.SubscriptionDeleteReq? && template.id.req < ID_SPACE
    ensures !PairInUse(s, Numbered(s, template).Key()) <==> NoPairReturns(s, template)
    ensures Numbered(s, template).id !in s.nodes[node].want <==> NoSubscriptionReturns(s, template, node)
  {
    var new' := Numbered(s, template);
    forall key | PairInUse(s, key) && key.kind == template.Key().kind
      ensures key.id.req in s.born
      ensures key == new'.Key() <==> SameBut(key.id, template.id) && (s.next - s.born[key.id.req]) % ID_SPACE == 0
    {
      PairIsLive(s, key);
      NumberReturnsIff(s, template, key.id);
    }
    forall id | id in s.nodes[node].want
      ensures id.req in s.born
      ensures id == new'.id <==> SameBut(id, template.id) && (s.next - s.born[id.req]) % ID_SPACE == 0
    {
      assert LiveSubscription(s, id.req);
      NumberReturnsIff(s, template, id);
    }
  }

  /** A pair that is used already is inserted a second time: the pending events and what is in transit are
      in step afterwards exactly when it was not pending. */
  lemma InsertingKeepsStepIffUnused(s: Sys, t: nat, node: nat, template: Request, fd: int)
    requires InAnyRun(s) && t < |s.calls| && s.calls[t].Idle? && fd !in s.ric.epoll
    ensures LedgerInv(DoInsert(DoCreateTimer(DoAllocate(s, t, node, template), t, fd), t)) <==>
              Numbered(s, template).Key() !in s.ric.pending.Values
  {
    ReachableInv(s);
    InsertInjective(s.ric.pending, fd, Numbered(s, template).Key());
    if Numbered(s, template).Key() !in s.ric.pending.Values {
      InsertUnused(s, t, node, template, fd);
    }
  }

  lemma InsertUnused(s: Sys, t: nat, node: nat, template: Request, fd: int)
    requires LedgerInv(s) && t < |s.calls| && s.calls[t].Idle? && fd !in s.ric.pending
    requires Numbered(s, template).Key() !in s.ric.pending.Values
    ensures LedgerInv(DoInsert(DoCreateTimer(DoAllocate(s, t, node, template), t, fd), t))
  {
    var s1 := DoAllocate(s, t, node, template);
    var s2 := DoCreateTimer(s1, t, fd);
    LedgerClaim(s, t, s1.calls[t], s1);
    LedgerClaim(s1, t, s2.calls[t], s2);
    LedgerInsert(s2, t, Unsent(Numbered(s, template), node), fd, DoInsert(s2, t));
  }

  /** A delete meets its subscription at the agent exactly when the identifier was subscribed at sending;
      then it removes the entry and, for a periodic one, the timer, and nothing else. */
  lemma DeleteFindsSubscription(s: Sys, n: nat, isPeriodic: bool, fd: int)
    requires InAnyRun(s) && Enabled(s, AgentReceive(n, isPeriodic, fd))
    requires s.nodes[n].down[0].req.SubscriptionDeleteReq?
    ensures var ag, q := s.nodes[n].agent, s.nodes[n].down[0];
            var ag' := Apply(s, AgentReceive(n, isPeriodic, fd)).nodes[n].agent;
            && (q.subscribed <==> q.req.id in Ids(ag))
            && Ids(ag') == Ids(ag) - {q.req.id}
            && (q.req.id in ag.periodic.Values ==>
                  && fd in ag.periodic && ag.periodic[fd] == q.req.id
                  && ag'.periodic == ag.periodic - {fd} && ag'.epoll == ag.epoll - {fd} && fd in ag.epoll)
            && (q.req.id !in ag.periodic.Values ==> ag'.periodic == ag.periodic && ag'.epoll == ag.epoll)
            && ag'.aperiodic == ag.aperiodic - multiset{q.req.id}
  {
    ReachableInv(s);
    var node := s.nodes[n];
    assert node.down[..0] == [];
    assert node.down[0].subscribed <==> node.down[0].req.id in Replay(Ids(node.agent), node.down[..0]);
    AgentStepEffect(node.agent, node.down[0].req, isPeriodic, fd);
  }

  /** A subscription never meets its identifier at the agent. */
  lemma SubscriptionIsNew(s: Sys, n: nat)
    requires InAnyRun(s) && n < |s.nodes| && s.nodes[n].down != [] && s.nodes[n].down[0].req.SubscriptionReq?
    ensures s.nodes[n].down[0].req.id !in Ids(s.nodes[n].agent)
  {
    ReachableInv(s);
    var node := s.nodes[n];
    assert node.down[..0] == [];
    assert node.down[0].subscribed <==> node.down[0].req.id in Replay(Ids(node.agent), node.down[..0]);
  }

  /** With no request on the way to it, an agent holds exactly the identifiers subscribed to it and not
      deleted, one entry each. */
  lemma QuietAgentHoldsSubscriptions(s: Sys, n: nat)
    requires InAnyRun(s) && n < |s.nodes| && s.nodes[n].down == []
    ensures Ids(s.nodes[n].agent) == s.nodes[n].want
    ensures Injective(s.nodes[n].agent.periodic) && FdsAgree(s.nodes[n].agent)
  {
    ReachableInv(s);
  }

  /** An uninterrupted call of a forwarding procedure does what its method promises. */
  lemma UninterruptedCall(s: Sys, t: nat, node: nat, template: Request, fd: int)
    requires InAnyRun(s) && Enabled(s, Allocate(t, node, template))
    ensures var id := WithReqId(template.id, ToUint16(s.ric.reqId));
            var s' := DoSend(DoInsert(DoCreateTimer(DoAllocate(s, t, node, template), t, fd), t), t);
            && s'.ric == InsertPending(AddTimer(TakeReqId(s.ric), fd), fd, template.(id := id).Key())
            && s'.nodes[node].down == s.nodes[node].down + [Queued(template.(id := id), id in s.nodes[node].want)]
            && s'.calls == s.calls
            && (template.SubscriptionReq? ==> id !in s.nodes[node].want)
  {
  }
}

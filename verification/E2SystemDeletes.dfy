/** A delete ends its subscription: at the node it was asked for, for good, and always in some run. */
module E2SystemDeletes {
  import opened AgentProcedures
  import opened E2ap
  import opened E2System
  import opened E2SystemSafety
  import opened E2SystemTraces
  import opened Maps
  import opened PendingEvents
  import opened Runs

  /** Nothing is queued for the node that would leave the identifier subscribed. */
  ghost predicate Deleted(s: Sys, node: nat, id: GenId)
  {
    Inv(s) && node < |s.nodes| && id !in s.nodes[node].want
  }

  ghost predicate NotHeld(s: Sys, node: nat, id: GenId)
  {
    node < |s.nodes| && id !in Ids(s.nodes[node].agent)
  }

  /** After a delete is sent its identifier is deleted at the node it was asked for, and still held, and still
      to be held, wherever else it was. */
  lemma SendingDeletes(s: Sys, t: nat, node: nat, id: GenId, fd: int)
    requires InAnyRun(s) && Enabled(s, StartDelete(t, node, id, fd))
    requires Event(SubscriptionDeleteRequest, id) !in s.ric.pending.Values
    ensures var sent := Run(Next, s, [StartDelete(t, node, id, fd), Send(t)]);
            && Deleted(sent, node, id)
            && sent.nodes == s.nodes[node := s.nodes[node].(
                 down := s.nodes[node].down + [Queued(SubscriptionDeleteReq(id), id in s.nodes[node].want)],
                 want := s.nodes[node].want - {id})]
  {
    TwoSteps(s, StartDelete(t, node, id, fd), Send(t));
    DeleteIsQueued(s, t, node, id, fd);
    ReachableInv(s);
    NextInv(s, StartDelete(t, node, id, fd));
    NextInv(Next(s, StartDelete(t, node, id, fd)), Send(t));
  }

  lemma TwoSteps(s: Sys, a: Action, b: Action)
    ensures Run(Next, s, [a, b]) == Next(Next(s, a), b)
  {
    assert Run(Next, s, [a, b]) == Run(Next, Next(s, a), [b]) == Run(Next, Next(Next(s, a), b), []);
  }

  lemma DeleteIsQueued(s: Sys, t: nat, node: nat, id: GenId, fd: int)
    requires Enabled(s, StartDelete(t, node, id, fd))
    requires Event(SubscriptionDeleteRequest, id) !in s.ric.pending.Values
    ensures Next(Next(s, StartDelete(t, node, id, fd)), Send(t)).nodes
         == s.nodes[node := s.nodes[node].(
              down := s.nodes[node].down + [Queued(SubscriptionDeleteReq(id), id in s.nodes[node].want)],
              want := s.nodes[node].want - {id})]
  {
    var s1 := Next(s, StartDelete(t, node, id, fd));
    assert Run(Next, s1, []) == s1;
    DeleteGoesToItsNode(s, t, node, id, fd, []);
  }

  /** The agent that receives the delete does not hold the identifier any more. */
  lemma ReceivingEnds(s: Sys, n: nat, isPeriodic: bool, fd: int)
    requires InAnyRun(s) && Enabled(s, AgentReceive(n, isPeriodic, fd))
    requires s.nodes[n].down[0].req.SubscriptionDeleteReq?
    ensures NotHeld(Next(s, AgentReceive(n, isPeriodic, fd)), n, s.nodes[n].down[0].req.id)
  {
    DeleteFindsSubscription(s, n, isPeriodic, fd);
  }

  ghost predicate Subscribes(s: Sys, a: Action, node: nat, id: GenId)
  {
    Enabled(s, a) && a.Send? && s.calls[a.t].req == SubscriptionReq(id) && s.calls[a.t].node == node
  }

  lemma WantGrowsBySubscribing(s: Sys, a: Action, node: nat, id: GenId)
    requires node < |s.nodes| && id !in s.nodes[node].want && !Subscribes(s, a, node, id)
    ensures node < |Next(s, a).nodes| && id !in Next(s, a).nodes[node].want
  {
  }

  lemma DeletedStep(s: Sys, a: Action, node: nat, id: GenId)
    requires Deleted(s, node, id) && !Subscribes(s, a, node, id)
    ensures Deleted(Next(s, a), node, id)
  {
    NextInv(s, a);
    WantGrowsBySubscribing(s, a, node, id);
  }

  /** Without another subscription for it the identifier stays deleted in every run, and is not held whenever
      the agent has received all that was queued. */
  lemma {:induction false} StaysDeleted(s: Sys, node: nat, id: GenId, acts: seq<Action>)
    requires Deleted(s, node, id) && Never(Next, (s1, a) => Subscribes(s1, a, node, id), s, acts)
    ensures Deleted(Run(Next, s, acts), node, id)
    ensures Run(Next, s, acts).nodes[node].down == [] ==> NotHeld(Run(Next, s, acts), node, id)
    decreases acts
  {
    if acts != [] {
      DeletedStep(s, acts[0], node, id);
      StaysDeleted(Next(s, acts[0]), node, id, acts[1..]);
    }
  }

  lemma ReceiveOne(s: Sys, n: nat, id: GenId) returns (a: Action)
    requires Deleted(s, n, id) && s.nodes[n].down != []
    ensures Deleted(Next(s, a), n, id) && |Next(s, a).nodes[n].down| == |s.nodes[n].down| - 1
  {
    var m, ag, fd := s.nodes[n].down[0].req, s.nodes[n].agent, 0;
    if m.SubscriptionDeleteReq? && m.id !in ag.aperiodic && m.id in ag.periodic.Values {
      fd := KeyWithValue(ag.periodic, m.id);
    }
    a := AgentReceive(n, false, fd);
    ReceivingShortens(s, n, fd);
    DeletedStep(s, a, n, id);
  }

  lemma ReceivingShortens(s: Sys, n: nat, fd: int)
    requires Enabled(s, AgentReceive(n, false, fd))
    ensures var after := Next(s, AgentReceive(n, false, fd));
            n < |after.nodes| && |after.nodes[n].down| == |s.nodes[n].down| - 1
  {
  }

  lemma {:induction false} DeletedCanEnd(s: Sys, n: nat, id: GenId)
    requires Deleted(s, n, id)
    ensures Possible(Next, s1 => NotHeld(s1, n, id), s)
    decreases |s.nodes[n].down|
  {
    if s.nodes[n].down == [] {
      PossibleNow(Next, s1 => NotHeld(s1, n, id), s);
    } else {
      var a := ReceiveOne(s, n, id);
      DeletedCanEnd(Next(s, a), n, id);
      PossibleAfter(Next, s1 => NotHeld(s1, n, id), s, a);
    }
  }

  /** In every reachable state an idle caller can delete any identifier whose delete is not pending, and some
      run then frees the agent of it. */
  lemma SubscriptionCanBeDeleted(s: Sys, t: nat, node: nat, id: GenId, fd: int)
    requires InAnyRun(s) && t < |s.calls| && s.calls[t].Idle? && node < |s.nodes| && fd !in s.ric.epoll
    requires Event(SubscriptionDeleteRequest, id) !in s.ric.pending.Values
    ensures Possible(Next, s1 => NotHeld(s1, node, id), s)
  {
    var s1 := Next(s, StartDelete(t, node, id, fd));
    var s2 := Next(s1, Send(t));
    SendingDeletes(s, t, node, id, fd);
    TwoSteps(s, StartDelete(t, node, id, fd), Send(t));
    DeletedCanEnd(s2, node, id);
    PossibleAfter(Next, s1 => NotHeld(s1, node, id), s1, Send(t));
    PossibleAfter(Next, s1 => NotHeld(s1, node, id), s, StartDelete(t, node, id, fd));
  }
}

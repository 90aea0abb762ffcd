/** When a pending event can still be cleared although some agents have stopped, as an agent does whose
    delete meets another aperiodic entry. */
module E2SystemProgress {
  import opened E2ap
  import opened E2System
  import opened E2SystemInvariants
  import opened E2SystemSafety
  import opened Ledger
  import opened Maps
  import opened PendingEvents
  import opened Runs

  /** The system without further steps of the stopped agents. */
  ghost function Halting(stopped: set<nat>): (Sys, Action) -> Sys
  {
    (s: Sys, a: Action) => if (a.AgentReceive? || a.AgentIndicate?) && a.n in stopped then s else Next(s, a)
  }

  ghost function Cleared(key: Event): Sys -> bool
  {
    (s: Sys) => key !in s.ric.pending.Values
  }

  ghost predicate CanClear(s: Sys, stopped: set<nat>, key: Event)
  {
    Possible(Halting(stopped), Cleared(key), s)
  }

  /** A request with the key is queued for the agent or about to be sent to it. */
  ghost predicate OnTheWayTo(s: Sys, n: nat, key: Event)
  {
    || (n < |s.nodes| && exists j :: 0 <= j < |s.nodes[n].down| && s.nodes[n].down[j].req.Key() == key)
    || exists t :: && 0 <= t < |s.calls| && s.calls[t].Unsent? && s.calls[t].node == n
                   && s.calls[t].req.Key() == key
  }

  ghost predicate Stuck(s: Sys, stopped: set<nat>, key: Event)
  {
    exists n :: n in stopped && OnTheWayTo(s, n, key)
  }

  // Stuck for good

  lemma CallStays(s: Sys, a: Action, t: nat)
    requires Enabled(s, a) && t < |s.calls| && s.calls[t].Unsent? && a != Send(t)
    ensures t < |Apply(s, a).calls| && Apply(s, a).calls[t] == s.calls[t]
  {
  }

  lemma QueueStays(s: Sys, a: Action, n: nat)
    requires Enabled(s, a) && n < |s.nodes| && !(a.AgentReceive? && a.n == n)
    ensures n < |Apply(s, a).nodes| && s.nodes[n].down <= Apply(s, a).nodes[n].down
  {
  }

  lemma SentIsQueued(s: Sys, t: nat)
    requires Enabled(s, Send(t))
    ensures OnTheWayTo(Apply(s, Send(t)), s.calls[t].node, s.calls[t].req.Key())
  {
    var c := s.calls[t];
    var down := Apply(s, Send(t)).nodes[c.node].down;
    assert down[|down| - 1].req == c.req;
  }

  lemma StaysOnTheWay(s: Sys, a: Action, n: nat, key: Event)
    requires Enabled(s, a) && OnTheWayTo(s, n, key) && !(a.AgentReceive? && a.n == n)
    ensures OnTheWayTo(Apply(s, a), n, key)
  {
    var s' := Apply(s, a);
    if n < |s.nodes| && exists j :: 0 <= j < |s.nodes[n].down| && s.nodes[n].down[j].req.Key() == key {
      var j :| 0 <= j < |s.nodes[n].down| && s.nodes[n].down[j].req.Key() == key;
      QueueStays(s, a, n);
      assert s'.nodes[n].down[j] == s.nodes[n].down[j];
    } else {
      var t :| && 0 <= t < |s.calls| && s.calls[t].Unsent? && s.calls[t].node == n
               && s.calls[t].req.Key() == key;
      if a == Send(t) {
        SentIsQueued(s, t);
      } else {
        CallStays(s, a, t);
      }
    }
  }

  lemma OnTheWayIsPending(s: Sys, n: nat, key: Event)
    requires LedgerInv(s) && OnTheWayTo(s, n, key)
    ensures key in s.ric.pending.Values
  {
    if n < |s.nodes| && exists j :: 0 <= j < |s.nodes[n].down| && s.nodes[n].down[j].req.Key() == key {
      var j :| 0 <= j < |s.nodes[n].down| && s.nodes[n].down[j].req.Key() == key;
      SumContains(s.nodes[n].down, j, QueuedKeys);
      assert key in QueuedKeys(s.nodes[n].down[j]);
      SumContains(s.nodes, n, NodeKeys);
      assert key in NodeKeys(s.nodes[n]);
    } else {
      var t :| && 0 <= t < |s.calls| && s.calls[t].Unsent? && s.calls[t].node == n
               && s.calls[t].req.Key() == key;
      SumContains(s.calls, t, CallKeys);
      assert key in CallKeys(s.calls[t]);
    }
    assert key in InTransit(s);
  }

  lemma StuckForGood(s: Sys, stopped: set<nat>, n: nat, key: Event)
    requires Inv(s) && n in stopped && OnTheWayTo(s, n, key)
    ensures !CanClear(s, stopped, key)
  {
    var trap := (s1: Sys) => Inv(s1) && OnTheWayTo(s1, n, key);
    forall s1, a | trap(s1) ensures trap(Halting(stopped)(s1, a)) {
      NextInv(s1, a);
      if Enabled(s1, a) && !(a.AgentReceive? && a.n in stopped) {
        StaysOnTheWay(s1, a, n, key);
      }
    }
    forall s1 | trap(s1) ensures !Cleared(key)(s1) {
      OnTheWayIsPending(s1, n, key);
    }
    ImpossibleWithin(Halting(stopped), Cleared(key), trap, s);
  }

  // On to the handler

  lemma ClearsAfter(s: Sys, a: Action, stopped: set<nat>, key: Event)
    requires Enabled(s, a) && !((a.AgentReceive? || a.AgentIndicate?) && a.n in stopped)
    requires CanClear(Apply(s, a), stopped, key)
    ensures CanClear(s, stopped, key)
  {
    PossibleAfter(Halting(stopped), Cleared(key), s, a);
  }

  lemma ClearsFromTasks(s: Sys, stopped: set<nat>, i: nat, key: Event)
    requires LedgerInv(s) && i < |s.tasks| && !s.tasks[i].Indication? && s.tasks[i].Key() == key
    ensures CanClear(s, stopped, key)
  {
    TaskIsInTransit(s, i);
    var fd := KeyWithValue(s.ric.pending, key);
    ExtractInjective(s.ric.pending, fd);
    PossibleNow(Halting(stopped), Cleared(key), Apply(s, Handle(i, fd)));
    ClearsAfter(s, Handle(i, fd), stopped, key);
  }

  lemma RicReceives(s: Sys, n: nat) returns (s': Sys)
    requires LedgerInv(s) && n < |s.nodes| && s.nodes[n].up != []
    ensures s' == Apply(s, RicReceive(n)) && LedgerInv(s') && |s'.nodes| == |s.nodes|
    ensures s'.nodes[n].up == s.nodes[n].up[1..] && s'.tasks == s.tasks + [s.nodes[n].up[0]]
  {
    s' := DoRicReceive(s, n);
    LedgerRicReceive(s, n);
  }

  lemma {:induction false} ClearsFromUp(s: Sys, stopped: set<nat>, n: nat, j: nat, key: Event)
    requires LedgerInv(s) && n < |s.nodes| && j < |s.nodes[n].up|
    requires !s.nodes[n].up[j].Indication? && s.nodes[n].up[j].Key() == key
    ensures CanClear(s, stopped, key)
    decreases j
  {
    var s' := RicReceives(s, n);
    if j == 0 {
      ClearsFromTasks(s', stopped, |s.tasks|, key);
    } else {
      ClearsFromUp(s', stopped, n, j - 1, key);
    }
    ClearsAfter(s, RicReceive(n), stopped, key);
  }

  /** An agent that has not stopped can take the first request of its queue. */
  lemma AgentReceives(s: Sys, stopped: set<nat>, n: nat, key: Event) returns (s': Sys)
    requires LedgerInv(s) && n < |s.nodes| && n !in stopped && s.nodes[n].down != []
    ensures CanClear(s', stopped, key) ==> CanClear(s, stopped, key)
    ensures LedgerInv(s') && |s'.nodes| == |s.nodes| && s'.nodes[n].down == s.nodes[n].down[1..]
    ensures s'.nodes[n].up == s.nodes[n].up + [s.nodes[n].down[0].req.Answer()]
  {
    var m, ag, fd := s.nodes[n].down[0].req, s.nodes[n].agent, 0;
    if m.SubscriptionDeleteReq? && m.id !in ag.aperiodic && m.id in ag.periodic.Values {
      fd := KeyWithValue(ag.periodic, m.id);
    }
    s' := DoAgentReceive(s, n, false, fd);
    LedgerAgentReceive(s, n, false, fd);
    if CanClear(s', stopped, key) {
      ClearsAfter(s, AgentReceive(n, false, fd), stopped, key);
    }
  }

  lemma {:induction false} ClearsFromDown(s: Sys, stopped: set<nat>, n: nat, j: nat, key: Event)
    requires LedgerInv(s) && n < |s.nodes| && n !in stopped
    requires j < |s.nodes[n].down| && s.nodes[n].down[j].req.Key() == key
    ensures CanClear(s, stopped, key)
    decreases j
  {
    var s' := AgentReceives(s, stopped, n, key);
    if j == 0 {
      AnswerKeepsKey(s.nodes[n].down[0].req);
      ClearsFromUp(s', stopped, n, |s.nodes[n].up|, key);
    } else {
      ClearsFromDown(s', stopped, n, j - 1, key);
    }
  }

  lemma ClearsFromCall(s: Sys, stopped: set<nat>, t: nat)
    requires LedgerInv(s) && PairInv(s)
    requires t < |s.calls| && s.calls[t].Unsent? && s.calls[t].node !in stopped
    ensures CanClear(s, stopped, s.calls[t].req.Key())
  {
    var c, s' := s.calls[t], DoSend(s, t);
    LedgerSend(s, t);
    ClearsFromDown(s', stopped, c.node, |s.nodes[c.node].down|, c.req.Key());
    ClearsAfter(s, Send(t), stopped, c.req.Key());
  }

  lemma ClearsFromNode(s: Sys, stopped: set<nat>, n: nat, key: Event)
    requires Inv(s) && n < |s.nodes| && key in NodeKeys(s.nodes[n]) && !Stuck(s, stopped, key)
    ensures CanClear(s, stopped, key)
  {
    if key in Sum(s.nodes[n].down, QueuedKeys) {
      var j := SumWitness(s.nodes[n].down, QueuedKeys, key);
      assert OnTheWayTo(s, n, key);
      ClearsFromDown(s, stopped, n, j, key);
    } else {
      var j := SumWitness(s.nodes[n].up, ReplyKeys, key);
      ClearsFromUp(s, stopped, n, j, key);
    }
  }

  /** However many agents have stopped, a pending event can be cleared exactly when its request is not queued
      for one of them or about to be sent to one. */
  lemma ClearsIffNotStuck(s: Sys, stopped: set<nat>, key: Event)
    requires InAnyRun(s) && key in s.ric.pending.Values
    ensures CanClear(s, stopped, key) <==> !Stuck(s, stopped, key)
  {
    ReachableInv(s);
    if Stuck(s, stopped, key) {
      var n :| n in stopped && OnTheWayTo(s, n, key);
      StuckForGood(s, stopped, n, key);
    } else {
      assert key in InTransit(s);
      if key in Sum(s.calls, CallKeys) {
        var t := SumWitness(s.calls, CallKeys, key);
        assert OnTheWayTo(s, s.calls[t].node, key);
        ClearsFromCall(s, stopped, t);
      } else if key in Sum(s.nodes, NodeKeys) {
        var n := SumWitness(s.nodes, NodeKeys, key);
        ClearsFromNode(s, stopped, n, key);
      } else {
        var i := SumWitness(s.tasks, ReplyKeys, key);
        ClearsFromTasks(s, stopped, i, key);
      }
    }
  }
}

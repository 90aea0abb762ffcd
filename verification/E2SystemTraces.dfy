/** What was sent and received in a run: each channel delivers every message once and in order, every
    received message is handled once, and a call sends the request it was made for to the node it was made
    for. */
module E2SystemTraces {
  import opened E2ap
  import opened E2System
  import opened PendingEvents
  import opened RicProcedures
  import opened Runs

  // One step

  ghost function RequestsSent(s: Sys, a: Action, n: nat): seq<Request>
  {
    if Enabled(s, a) && a.Send? && s.calls[a.t].node == n then [s.calls[a.t].req] else []
  }

  ghost function RequestsReceived(s: Sys, a: Action, n: nat): seq<Request>
  {
    if Enabled(s, a) && a.AgentReceive? && a.n == n then [s.nodes[n].down[0].req] else []
  }

  /** Answers and indications. */
  ghost function RepliesSent(s: Sys, a: Action, n: nat): seq<Reply>
  {
    if !Enabled(s, a) then []
    else if a.AgentReceive? && a.n == n then
      match s.nodes[n].down[0].req
      case SubscriptionReq(id) => [SubscriptionResp(id)]
      case SubscriptionDeleteReq(id) => [SubscriptionDeleteResp(id)]
      case ControlReq(id) => [ControlAck(id)]
    else if a.AgentIndicate? && a.n == n then [Indication(a.id)]
    else []
  }

  ghost function RepliesReceived(s: Sys, a: Action, n: nat): seq<Reply>
  {
    if Enabled(s, a) && a.RicReceive? && a.n == n then [s.nodes[n].up[0]] else []
  }

  ghost function TasksAdded(s: Sys, a: Action): multiset<Reply>
  {
    if Enabled(s, a) && a.RicReceive? then multiset{s.nodes[a.n].up[0]} else multiset{}
  }

  ghost function TasksHandled(s: Sys, a: Action): multiset<Reply>
  {
    if Enabled(s, a) && a.Handle? then multiset{s.tasks[a.i]} else multiset{}
  }

  // A run

  ghost function Bag<T>(f: (Sys, Action) -> multiset<T>, s: Sys, acts: seq<Action>): multiset<T>
    decreases acts
  {
    if acts == [] then multiset{} else f(s, acts[0]) + Bag(f, Next(s, acts[0]), acts[1..])
  }

  ghost function Requests(q: seq<Queued>): (r: seq<Request>)
    ensures |r| == |q| && forall i :: 0 <= i < |q| ==> r[i] == q[i].req
  {
    seq(|q|, i requires 0 <= i < |q| => q[i].req)
  }

  ghost function QueuedFor(s: Sys, n: nat): seq<Request>
  {
    if n < |s.nodes| then Requests(s.nodes[n].down) else []
  }

  ghost function QueuedFrom(s: Sys, n: nat): seq<Reply>
  {
    if n < |s.nodes| then s.nodes[n].up else []
  }

  lemma DownStep(s: Sys, a: Action, n: nat)
    ensures QueuedFor(s, n) + RequestsSent(s, a, n) == RequestsReceived(s, a, n) + QueuedFor(Next(s, a), n)
  {
    if RequestsSent(s, a, n) != [] {
      var c := s.calls[a.t];
      assert Next(s, a).nodes[n].down == s.nodes[n].down + [Queued(c.req, c.req.id in s.nodes[n].want)];
    } else if RequestsReceived(s, a, n) != [] {
      assert s.nodes[n].down == [s.nodes[n].down[0]] + Next(s, a).nodes[n].down;
    } else {
      DownStays(s, a, n);
    }
  }

  lemma DownStays(s: Sys, a: Action, n: nat)
    requires RequestsSent(s, a, n) == [] && RequestsReceived(s, a, n) == []
    ensures |Next(s, a).nodes| == |s.nodes| && (n < |s.nodes| ==> Next(s, a).nodes[n].down == s.nodes[n].down)
  {
  }

  lemma UpStep(s: Sys, a: Action, n: nat)
    ensures QueuedFrom(s, n) + RepliesSent(s, a, n) == RepliesReceived(s, a, n) + QueuedFrom(Next(s, a), n)
  {
    var after := Next(s, a);
    if RepliesSent(s, a, n) != [] {
      assert after.nodes[n].up == s.nodes[n].up + RepliesSent(s, a, n);
    } else if RepliesReceived(s, a, n) != [] {
      assert s.nodes[n].up == [s.nodes[n].up[0]] + after.nodes[n].up;
    } else {
      assert n < |s.nodes| ==> after.nodes[n].up == s.nodes[n].up;
    }
  }

  lemma TaskStep(s: Sys, a: Action)
    ensures multiset(s.tasks) + TasksAdded(s, a) == TasksHandled(s, a) + multiset(Next(s, a).tasks)
  {
    if Enabled(s, a) && a.Handle? {
      assert s.tasks == s.tasks[..a.i] + [s.tasks[a.i]] + s.tasks[a.i + 1..];
    }
  }

  /** The requests sent to a node, after those queued for it at first, are the ones that its agent received
      and then the ones still queued, in this order. */
  lemma RequestsArriveInOrder(s: Sys, acts: seq<Action>, n: nat)
    ensures QueuedFor(s, n) + Trace(Next, (s1, a) => RequestsSent(s1, a, n), s, acts)
         == Trace(Next, (s1, a) => RequestsReceived(s1, a, n), s, acts) + QueuedFor(Run(Next, s, acts), n)
  {
    var queue, put, got :=
      s1 => QueuedFor(s1, n), (s1, a) => RequestsSent(s1, a, n), (s1, a) => RequestsReceived(s1, a, n);
    forall s1, a ensures queue(s1) + put(s1, a) == got(s1, a) + queue(Next(s1, a)) {
      DownStep(s1, a, n);
    }
    QueueKeepsOrder(Next, queue, put, got, s, acts);
  }

  /** The answers and indications that an agent sent arrive at the RIC in this order. */
  lemma RepliesArriveInOrder(s: Sys, acts: seq<Action>, n: nat)
    ensures QueuedFrom(s, n) + Trace(Next, (s1, a) => RepliesSent(s1, a, n), s, acts)
         == Trace(Next, (s1, a) => RepliesReceived(s1, a, n), s, acts) + QueuedFrom(Run(Next, s, acts), n)
  {
    var queue, put, got :=
      s1 => QueuedFrom(s1, n), (s1, a) => RepliesSent(s1, a, n), (s1, a) => RepliesReceived(s1, a, n);
    forall s1, a ensures queue(s1) + put(s1, a) == got(s1, a) + queue(Next(s1, a)) {
      UpStep(s1, a, n);
    }
    QueueKeepsOrder(Next, queue, put, got, s, acts);
  }

  /** Every received message is handled once or still a task. */
  lemma {:induction false} TasksAreConserved(s: Sys, acts: seq<Action>)
    ensures multiset(s.tasks) + Bag(TasksAdded, s, acts)
            == Bag(TasksHandled, s, acts) + multiset(Run(Next, s, acts).tasks)
    decreases acts
  {
    if acts != [] {
      TaskStep(s, acts[0]);
      var s1 := Next(s, acts[0]);
      TasksAreConserved(s1, acts[1..]);
      Regroup(multiset(s.tasks), TasksAdded(s, acts[0]), TasksHandled(s, acts[0]), multiset(s1.tasks),
              Bag(TasksAdded, s1, acts[1..]), Bag(TasksHandled, s1, acts[1..]),
              multiset(Run(Next, s1, acts[1..]).tasks));
    }
  }

  lemma Regroup<T>(m: multiset<T>, out: multiset<T>, in': multiset<T>, m1: multiset<T>, outs: multiset<T>,
                   ins: multiset<T>, m2: multiset<T>)
    requires m + out == in' + m1 && m1 + outs == ins + m2
    ensures m + (out + outs) == (in' + ins) + m2
  {
    assert m + (out + outs) == (m + out) + outs == (in' + m1) + outs == in' + (m1 + outs);
    assert in' + (ins + m2) == (in' + ins) + m2;
  }

  // Calls

  /** Until it sends, a call keeps its request and its node. */
  lemma CallKeepsRequest(s: Sys, a: Action, t: nat)
    requires t < |s.calls| && !s.calls[t].Idle? && !(a.Send? && a.t == t)
    ensures var after := Next(s, a);
            t < |after.calls| && !after.calls[t].Idle? && after.calls[t].req == s.calls[t].req
            && after.calls[t].node == s.calls[t].node
  {
  }

  ghost predicate SendsFor(s: Sys, a: Action, t: nat)
  {
    a.Send? && a.t == t
  }

  lemma {:induction false} CallKeepsRequestInRun(s: Sys, acts: seq<Action>, t: nat)
    requires t < |s.calls| && !s.calls[t].Idle? && Never(Next, (s1, a) => SendsFor(s1, a, t), s, acts)
    ensures var after := Run(Next, s, acts);
            t < |after.calls| && !after.calls[t].Idle? && after.calls[t].req == s.calls[t].req
            && after.calls[t].node == s.calls[t].node
    decreases acts
  {
    if acts != [] {
      CallKeepsRequest(s, acts[0], t);
      CallKeepsRequestInRun(Next(s, acts[0]), acts[1..], t);
    }
  }

  /** However the run goes on after a call has begun for a node, its step of sending puts the request with the
      number it took behind all others for that node, and nothing anywhere else. */
  lemma RequestGoesToItsNode(s: Sys, t: nat, node: nat, template: Request, acts: seq<Action>)
    requires Enabled(s, Allocate(t, node, template))
    requires Never(Next, (s1, a) => SendsFor(s1, a, t), Next(s, Allocate(t, node, template)), acts)
    requires Enabled(Run(Next, Next(s, Allocate(t, node, template)), acts), Send(t))
    ensures SentTo(Run(Next, Next(s, Allocate(t, node, template)), acts), t, node,
                   template.(id := WithReqId(template.id, ToUint16(s.ric.reqId))))
  {
    CallKeepsRequestInRun(Next(s, Allocate(t, node, template)), acts, t);
  }

  /** The same for a delete, whose identifier is the caller's. */
  lemma DeleteGoesToItsNode(s: Sys, t: nat, node: nat, id: GenId, fd: int, acts: seq<Action>)
    requires Enabled(s, StartDelete(t, node, id, fd))
    requires Event(SubscriptionDeleteRequest, id) !in s.ric.pending.Values
    requires Never(Next, (s1, a) => SendsFor(s1, a, t), Next(s, StartDelete(t, node, id, fd)), acts)
    requires Enabled(Run(Next, Next(s, StartDelete(t, node, id, fd)), acts), Send(t))
    ensures SentTo(Run(Next, Next(s, StartDelete(t, node, id, fd)), acts), t, node, SubscriptionDeleteReq(id))
  {
    CallKeepsRequestInRun(Next(s, StartDelete(t, node, id, fd)), acts, t);
  }

  /** What `Send(t)` does: one message more for one node, and what that node is to hold changes by it. */
  ghost predicate SentTo(s: Sys, t: nat, node: nat, req: Request)
  {
    && node < |s.nodes| && t < |s.calls|
    && var n := s.nodes[node];
       var want := match req
                   case SubscriptionReq(id) => n.want + {id}
                   case SubscriptionDeleteReq(id) => n.want - {id}
                   case ControlReq(_) => n.want;
       && Next(s, Send(t)).nodes == s.nodes[node := Node(n.down + [Queued(req, req.id in n.want)], n.up, n.agent, want)]
       && Next(s, Send(t)).calls == s.calls[t := Idle]
       && Next(s, Send(t)).ric == s.ric && Next(s, Send(t)).tasks == s.tasks
  }

  // What the agent stores

  /** A subscription is stored under a new timer or, if the service model reports without one, under none. */
  lemma SubscriptionIsStored(s: Sys, n: nat, isPeriodic: bool, fd: int)
    requires Enabled(s, AgentReceive(n, isPeriodic, fd)) && s.nodes[n].down[0].req.SubscriptionReq?
    ensures var ag, id := s.nodes[n].agent, s.nodes[n].down[0].req.id;
            var after := Next(s, AgentReceive(n, isPeriodic, fd)).nodes[n].agent;
            if isPeriodic
            then after == ag.(periodic := ag.periodic[fd := id], epoll := ag.epoll + {fd}) && fd !in ag.epoll
            else after == ag.(aperiodic := ag.aperiodic + multiset{id})
  {
  }
}

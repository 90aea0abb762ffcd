/** A run in which an identifier comes round while its subscription is held: one node, one caller, one
    subscription, and then control requests, each of them answered before the next. */
module E2SystemRounds {
  import opened AgentProcedures
  import opened E2ap
  import opened E2System
  import opened E2SystemInvariants
  import opened E2SystemSafety
  import opened PendingEvents
  import opened RicProcedures
  import opened Runs

  lemma Then(s: Sys, a: Action) returns (s': Sys)
    requires InAnyRun(s) && Enabled(s, a)
    ensures InAnyRun(s') && s' == Apply(s, a)
  {
    s' := Next(s, a);
    ReachableThen(Init, Next, s, [a]);
    assert Run(Next, s, [a]) == Run(Next, s', []);
  }

  /** The node has subscriptions, and nothing is under way. */
  ghost predicate Between(s: Sys, held: set<GenId>)
  {
    && s.calls == [Idle] && |s.nodes| == 1
    && s.nodes[0] == Node([], [], s.nodes[0].agent, held)
    && s.ric == RicState(s.ric.sctp, s.ric.reqId, map[], {s.ric.sctp})
    && s.tasks == [] && s.closing == {}
  }

  /** The request is on its way. */
  ghost predicate Underway(s: Sys, held: set<GenId>, req: Request, timer: int)
  {
    && s.calls == [Idle] && |s.nodes| == 1
    && s.nodes[0] == Node(s.nodes[0].down, [], s.nodes[0].agent, held)
    && |s.nodes[0].down| == 1 && s.nodes[0].down[0].req == req
    && timer != s.ric.sctp
    && s.ric == RicState(s.ric.sctp, s.ric.reqId, map[timer := req.Key()], {s.ric.sctp, timer})
    && s.tasks == [] && s.closing == {}
  }

  lemma RoundOut(s: Sys, held: set<GenId>, template: Request) returns (s': Sys, timer: int)
    requires InAnyRun(s) && Between(s, held)
    requires !template.SubscriptionDeleteReq? && template.id.req < ID_SPACE
    requires template.SubscriptionReq? ==> Numbered(s, template).id !in held
    ensures InAnyRun(s') && Underway(s', Effect(held, Numbered(s, template)), Numbered(s, template), timer)
    ensures s'.next == s.next + 1
  {
    timer := s.ric.sctp + 1;
    s' := Then(s, Allocate(0, 0, template));
    s' := Then(s', CreateTimer(0, timer));
    s' := Then(s', E2System.Insert(0));
    s' := Then(s', Send(0));
  }

  lemma RoundBack(s: Sys, held: set<GenId>, req: Request, timer: int) returns (s': Sys)
    requires InAnyRun(s) && Underway(s, held, req, timer) && !req.SubscriptionDeleteReq?
    ensures InAnyRun(s') && Between(s', held) && s'.next == s.next
  {
    s' := Then(s, AgentReceive(0, false, 0));
    s' := Then(s', RicReceive(0));
    s' := Then(s', Handle(0, timer));
    s' := Then(s', Close(timer));
  }

  lemma {:induction false} ControlRounds(s: Sys, held: set<GenId>, n: nat) returns (s': Sys)
    requires InAnyRun(s) && Between(s, held)
    ensures InAnyRun(s') && Between(s', held) && s'.next == s.next + n
    decreases n
  {
    s' := s;
    if n > 0 {
      s' := ControlRounds(s, held, n - 1);
      var template := ControlReq(GenId(0, 0, 0));
      var out, timer := RoundOut(s', held, template);
      s' := RoundBack(out, held, Numbered(s', template), timer);
    }
  }

  const PLAIN := GenId(0, 0, 0)
  const FIRST := GenId(FIRST_REQ_ID, 0, 0)

  lemma OneSubscription() returns (s: Sys)
    ensures InAnyRun(s) && Between(s, {FIRST}) && s.next == 1
  {
    var agent := AgentState(1, 2, {1, 2}, map[], map[], multiset{}, 0);
    s := Sys(RicState(3, FIRST_REQ_ID, map[], {3}), [Idle], [Node([], [], agent, {})], [], {}, 0, map[]);
    assert Init(s) && Run(Next, s, []) == s;
    var template := SubscriptionReq(PLAIN);
    assert Numbered(s, template).id == FIRST;
    var out, timer := RoundOut(s, {}, template);
    s := RoundBack(out, {FIRST}, Numbered(s, template), timer);
  }

  lemma NumberAfterTurn(reqId: int, n: nat)
    requires reqId == Counter(n) && n % ID_SPACE == 0
    ensures ToUint16(reqId) == FIRST_REQ_ID
  {
    ReqIdAtClosedForm(n);
    Congruent(FIRST_REQ_ID + n, FIRST_REQ_ID);
  }

  lemma FirstReturns(s: Sys)
    requires BornInv(s) && Between(s, {FIRST}) && ToUint16(s.ric.reqId) == FIRST.req
    ensures !NoneReturns(s)
  {
    assert FIRST in s.nodes[0].want;
    assert LiveSubscription(s, FIRST.req);
    NewIdIsNotLive(s);
  }

  lemma SubscriptionMeetsHeld(s: Sys)
    requires Between(s, {FIRST}) && ToUint16(s.ric.reqId) == FIRST.req
    ensures !Enabled(s, Allocate(0, 0, SubscriptionReq(PLAIN)))
  {
    assert Numbered(s, SubscriptionReq(PLAIN)).id == FIRST;
  }

  lemma ControlDoesNot(s: Sys)
    requires Between(s, {FIRST})
    ensures Enabled(s, Allocate(0, 0, ControlReq(PLAIN)))
  {
    assert !PairInUse(s, Numbered(s, ControlReq(PLAIN)).Key());
  }

  /** The identifier of a subscription that is held comes round: the next subscription would meet it, and the
      next control request, whose pair is another one, is none the worse for it. */
  lemma HeldIdentifierComesRound() returns (s: Sys)
    ensures InAnyRun(s) && Between(s, {FIRST}) && !NoneReturns(s)
    ensures !Enabled(s, Allocate(0, 0, SubscriptionReq(PLAIN))) && Enabled(s, Allocate(0, 0, ControlReq(PLAIN)))
  {
    s := OneSubscription();
    s := ControlRounds(s, {FIRST}, ID_SPACE - 1);
    ReachableInv(s);
    NumberAfterTurn(s.ric.reqId, s.next);
    FirstReturns(s);
    SubscriptionMeetsHeld(s);
    ControlDoesNot(s);
  }
}

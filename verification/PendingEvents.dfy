/** Pending events and request identifiers, with the orders that the red-black trees of the three
    parties are built on. A comparator answers 1 for "before", -1 for "after" and 0 for "same key". */
module PendingEvents {

  datatype Kind =
    | SetupRequest
    | ControlRequestAgent
    | SubscriptionRequest
    | SubscriptionDeleteRequest
    | ControlRequest
    | E42SetupRequest
    | E42SubscriptionRequest
    | XappSubscriptionDeleteRequest
    | E42SubscriptionDeleteRequest
    | E42ControlRequest

  /** The value of the C enumerator. */
  function Ordinal(k: Kind): (n: nat)
  {
    match k
    case SetupRequest => 0
    case ControlRequestAgent => 1
    case SubscriptionRequest => 2
    case SubscriptionDeleteRequest => 3
    case ControlRequest => 4
    case E42SetupRequest => 5
    case E42SubscriptionRequest => 6
    case XappSubscriptionDeleteRequest => 7
    case E42SubscriptionDeleteRequest => 8
    case E42ControlRequest => 9
  }

  datatype GenId = GenId(req: nat, inst: nat, func: nat)

  datatype Event = Event(kind: Kind, id: GenId)

  function CmpInt(a: int, b: int): (c: int)
  {
    if a < b then 1 else if a == b then 0 else -1
  }

  /** Compares kinds only; the xApp and the agent key their pending events with it. */
  function CmpPendingEvent(a: Kind, b: Kind): (c: int)
  {
    CmpInt(Ordinal(a), Ordinal(b))
  }

  /** RAN function first, then instance, then request. */
  function CmpGenId(a: GenId, b: GenId): (c: int)
  {
    if a.func < b.func then 1
    else if a.func > b.func then -1
    else if a.inst < b.inst then 1
    else if a.inst > b.inst then -1
    else if a.req < b.req then 1
    else if a.req > b.req then -1
    else 0
  }

  /** Kind first, then identifier; the RIC keys its pending events with it. */
  function CmpPendingEventRic(a: Event, b: Event): (c: int)
  {
    var c := CmpPendingEvent(a.kind, b.kind);
    if c != 0 then c else CmpGenId(a.id, b.id)
  }

  ghost predicate IsTotalOrder<T(!new)>(cmp: (T, T) -> int)
  {
    && (forall a, b :: cmp(a, b) == 0 <==> a == b)
    && (forall a, b :: cmp(a, b) == -cmp(b, a))
    && (forall a, b, c :: cmp(a, b) == 1 && cmp(b, c) == 1 ==> cmp(a, c) == 1)
  }

  /** A tree built on the RIC comparator separates exactly the distinct (kind, identifier) pairs, so a
      lookup in it is a lookup by equality. */
  lemma RicComparatorIsTotalOrder()
    ensures IsTotalOrder(CmpPendingEventRic)
    ensures IsTotalOrder(CmpGenId)
  {
    forall a: Kind, b: Kind ensures Ordinal(a) == Ordinal(b) <==> a == b {
    }
  }

  /** Whether (a0, a1, a2, a3) comes first in lexicographic order. */
  predicate Before(a0: nat, a1: nat, a2: nat, a3: nat, b0: nat, b1: nat, b2: nat, b3: nat)
  {
    a0 < b0 || (a0 == b0 && (a1 < b1 || (a1 == b1 && (a2 < b2 || (a2 == b2 && a3 < b3)))))
  }

  /** The order is by kind, RAN function, instance and request, in this precedence. */
  lemma RicComparatorIsLexicographic(a: Event, b: Event)
    ensures CmpPendingEventRic(a, b) == 1 <==>
              Before(Ordinal(a.kind), a.id.func, a.id.inst, a.id.req, Ordinal(b.kind), b.id.func, b.id.inst, b.id.req)
    ensures Ordinal(SetupRequest) < Ordinal(ControlRequestAgent) < Ordinal(SubscriptionRequest)
          < Ordinal(SubscriptionDeleteRequest) < Ordinal(ControlRequest) < Ordinal(E42SetupRequest)
          < Ordinal(E42SubscriptionRequest) < Ordinal(XappSubscriptionDeleteRequest)
          < Ordinal(E42SubscriptionDeleteRequest) < Ordinal(E42ControlRequest)
  {
  }

  /** The kind-only comparator, used on whole xApp events, identifies two events exactly when their
      kinds agree; so it is not an order on events. */
  lemma KindComparatorIgnoresId(a: Event, b: Event)
    ensures CmpPendingEvent(a.kind, b.kind) == 0 <==> a.kind == b.kind
    ensures exists c: Event, d: Event :: c != d && CmpPendingEvent(c.kind, d.kind) == 0
  {
    var c := Event(SetupRequest, GenId(0, 0, 0));
    var d := Event(SetupRequest, GenId(1, 0, 0));
    assert c != d && CmpPendingEvent(c.kind, d.kind) == 0;
  }
}

/** The E2AP messages of the RIC Subscription, Subscription Delete, Control and Indication procedures. */
module E2ap {
  import opened PendingEvents

  datatype Request =
    | SubscriptionReq(id: GenId)
    | SubscriptionDeleteReq(id: GenId)
    | ControlReq(id: GenId)
  {
    /** The pending event that the RIC keeps while the request is unanswered. */
    function Key(): Event
    {
      match this
      case SubscriptionReq(id) => Event(SubscriptionRequest, id)
      case SubscriptionDeleteReq(id) => Event(SubscriptionDeleteRequest, id)
      case ControlReq(id) => Event(ControlRequest, id)
    }

    /** What the agent answers. */
    function Answer(): Reply
    {
      match this
      case SubscriptionReq(id) => SubscriptionResp(id)
      case SubscriptionDeleteReq(id) => SubscriptionDeleteResp(id)
      case ControlReq(id) => ControlAck(id)
    }
  }

  datatype Reply =
    | SubscriptionResp(id: GenId)
    | SubscriptionDeleteResp(id: GenId)
    | ControlAck(id: GenId)
    | Indication(id: GenId)
  {
    /** The pending event that an answer looks up. */
    function Key(): Event
      requires !Indication?
    {
      match this
      case SubscriptionResp(id) => Event(SubscriptionRequest, id)
      case SubscriptionDeleteResp(id) => Event(SubscriptionDeleteRequest, id)
      case ControlAck(id) => Event(ControlRequest, id)
    }
  }

  /** An answer looks up the pending event of the request it answers. */
  lemma AnswerKeepsKey(m: Request)
    ensures !m.Answer().Indication? && m.Answer().Key() == m.Key()
  {
  }

  /** Request, answer and pending event of each of the three procedures. */
  lemma Procedures(id: GenId)
    ensures SubscriptionReq(id).Answer() == SubscriptionResp(id)
    ensures SubscriptionDeleteReq(id).Answer() == SubscriptionDeleteResp(id)
    ensures ControlReq(id).Answer() == ControlAck(id)
    ensures SubscriptionReq(id).Key() == SubscriptionResp(id).Key() == Event(SubscriptionRequest, id)
    ensures SubscriptionDeleteReq(id).Key() == SubscriptionDeleteResp(id).Key() == Event(SubscriptionDeleteRequest, id)
    ensures ControlReq(id).Key() == ControlAck(id).Key() == Event(ControlRequest, id)
  {
  }
}

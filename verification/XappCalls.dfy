/** What each synchronous call of the xApp puts into the pending events, the timers, the channel and the
    registry of active procedures. */
module XappCalls {
  import opened PendingEvents
  import opened XappRuns
  import opened XappSafety

  lemma InsertThenSend(s: Xapp, op: Op, id: GenId, fd: int)
    requires s.ui == TimerMade(op, id, fd) && op != Remove && s.outbox == []
    ensures var ev := Event(KindOf(op), id);
            Next(Next(s, Insert), Send) == s.(pending := s.pending[fd := ev], outbox := [ev], ui := Calling(op, id))
  {
    assert Next(s, Insert).outbox + [Event(KindOf(op), id)] == [Event(KindOf(op), id)];
  }

  lemma NewCall(s: Xapp, a: Action, op: Op, func: nat, fd: int)
    requires s.ui.Ready? && s.outbox == [] && s.keyId < 65536 && fd !in s.epoll && op != Remove
    requires a == if op == Report then StartReport(func) else StartControl(func)
    ensures var id := GenId(s.keyId, 0, func);
            var ev := Event(KindOf(op), id);
            Next(Next(Next(Next(s, a), MakeTimer(fd)), Insert), Send)
            == s.(reg := s.reg[s.keyId := GenId(0, 0, func)], keyId := s.keyId + 1, epoll := s.epoll + {fd},
                  pending := s.pending[fd := ev], outbox := [ev], ui := Calling(op, id))
  {
    var begun := Next(s, a);
    assert begun == StartNew(s, op, func);
    InsertThenSend(Next(begun, MakeTimer(fd)), op, GenId(s.keyId, 0, func), fd);
  }

  /** A report makes a subscription request of a new identifier, pending under its timer before it is sent. */
  lemma ReportSubscribes(s: Xapp, func: nat, fd: int)
    requires Occurs(s) && s.ui.Ready? && s.keyId < 65536 && fd !in s.epoll
    ensures var begun := Next(Next(Next(s, StartReport(func)), MakeTimer(fd)), Insert);
            var sent := Next(begun, Send);
            var ev := Event(E42SubscriptionRequest, GenId(s.keyId, 0, func));
            && begun.outbox == [] && begun.pending == s.pending[fd := ev]
            && sent.outbox == [ev] && sent.pending == s.pending[fd := ev] && sent.epoll == s.epoll + {fd}
            && sent.reg == s.reg[s.keyId := GenId(0, 0, func)] && s.keyId !in s.reg && sent.keyId == s.keyId + 1
  {
    OccursInv(s);
    NewCall(s, StartReport(func), Report, func, fd);
  }

  /** A control call makes a control request in the same way. */
  lemma ControlControls(s: Xapp, func: nat, fd: int)
    requires Occurs(s) && s.ui.Ready? && s.keyId < 65536 && fd !in s.epoll
    ensures var begun := Next(Next(Next(s, StartControl(func)), MakeTimer(fd)), Insert);
            var sent := Next(begun, Send);
            var ev := Event(E42ControlRequest, GenId(s.keyId, 0, func));
            && begun.outbox == [] && begun.pending == s.pending[fd := ev]
            && sent.outbox == [ev] && sent.pending == s.pending[fd := ev] && sent.epoll == s.epoll + {fd}
            && sent.reg == s.reg[s.keyId := GenId(0, 0, func)] && s.keyId !in s.reg && sent.keyId == s.keyId + 1
  {
    OccursInv(s);
    NewCall(s, StartControl(func), Control, func, fd);
  }

  /** A remove call makes a delete request of the stored identifier, sent before it is pending. */
  lemma RemoveDeletes(s: Xapp, r: nat, fd: int)
    requires Occurs(s) && s.ui.Ready? && r in s.reg && fd !in s.epoll
    ensures var sent := Next(Next(s, StartRemove(r)), Send);
            var added := Next(Next(sent, MakeTimer(fd)), Insert);
            var ev := Event(E42SubscriptionDeleteRequest, GenId(r, s.reg[r].inst, s.reg[r].func));
            && sent.outbox == [ev] && sent.pending == s.pending
            && added.outbox == [ev] && added.pending == s.pending[fd := ev] && added.epoll == s.epoll + {fd}
            && added.reg == s.reg[r := ev.id] && added.keyId == s.keyId
  {
    assert s.outbox == [] by {
      OccursInv(s);
    }
    var ev := Event(E42SubscriptionDeleteRequest, s.reg[r].(req := r));
    var begun := Next(s, StartRemove(r));
    assert begun.ui == Begun(Remove, ev.id) && begun.outbox + [ev] == [ev];
  }

  /** When it returns, a report stays active, and a control or remove call leaves the registry without its
      procedure; nothing else changes. */
  lemma ReturnLeaves(s: Xapp)
    requires Occurs(s) && s.ui.Woken?
    ensures var t, r := Next(s, Return), s.ui.id.req;
            && t == s.(ui := Ready, reg := t.reg, subscribed := t.subscribed)
            && r in s.reg
            && t.reg == (if s.ui.op.Report? then s.reg else s.reg - {r})
            && t.subscribed == (match s.ui.op
                                case Report => s.subscribed + {r}
                                case Control => s.subscribed
                                case Remove => s.subscribed - {r})
  {
    OccursInv(s);
  }

  /** The first setup response clears the setup request and its timer, and connects; later ones change
      nothing. */
  lemma FirstSetupResponseConnects(s: Xapp, fd: int)
    requires Occurs(s) && s.loop.Idle? && s.setupsIn > 0
    ensures s.connected <==> forall f :: f in s.pending ==> s.pending[f].kind != E42SetupRequest
    ensures s.connected ==> Next(s, SetupResponse(fd)) == s.(setupsIn := s.setupsIn - 1)
    ensures !s.connected && fd in s.pending && s.pending[fd].kind == E42SetupRequest ==>
              Next(s, SetupResponse(fd)) == s.(setupsIn := s.setupsIn - 1, pending := s.pending - {fd},
                                               epoll := s.epoll - {fd}, connected := true)
  {
    OccursInv(s);
  }

  /** Until then its timer sends the request again, and never afterwards. */
  lemma SetupTimeoutRepeats(s: Xapp)
    requires Occurs(s) && s.loop.Idle?
    ensures Next(s, SetupTimeout) == if s.connected then s else s.(setupsOut := s.setupsOut + 1)
  {
  }
}

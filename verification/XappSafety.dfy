/** What holds in every run of the xApp: answers find what they answer, one event of a kind is pending at
    most, and a blocked call returns only because of its own answer. The two orders in which the code
    can go wrong, removing before the entry is there and signalling before the wait, are characterised. */
module XappSafety {
  import opened Maps
  import opened PendingEvents
  import opened Runs
  import opened XappProcedures
  import opened XappRuns

  ghost predicate Occurs(s: Xapp)
  {
    Reachable(Init, Next, s) && !s.ui.Aborted?
  }

  lemma OccursInv(s: Xapp)
    requires Occurs(s)
    ensures Inv(s)
  {
    forall s | Init(s) ensures Inv(s) {
      InitInv(s);
    }
    forall s, a | Inv(s) ensures Inv(Next(s, a)) {
      NextInv(s, a);
    }
    ReachableKeeps(Init, Next, Inv, s);
  }

  /** The identifier completed by the lookup is the one the pending event was made with. */
  lemma AnswerFindsActiveProcedure(s: Xapp)
    requires Occurs(s) && s.loop.Idle? && s.inbox != []
    ensures s.inbox[0].req in s.reg && s.inbox[1..] == []
    ensures !s.ui.Ready? && Next(s, Match).loop == Matched(Asked(s.ui))
  {
    OccursInv(s);
  }

  /** Between calls the active procedures are exactly the reports that returned and were not removed. */
  lemma ActiveProceduresAreReports(s: Xapp)
    requires Occurs(s) && s.ui.Ready?
    ensures s.reg.Keys == s.subscribed && forall r :: r in s.reg ==> r < s.keyId
  {
    OccursInv(s);
  }

  ghost predicate HasKind(pending: map<int, Event>, kind: Kind)
  {
    exists fd :: fd in pending && pending[fd].kind == kind
  }

  /** A remove call has sent its request and not yet inserted its pending event. */
  predicate RemoveWindow(ui: Ui)
  {
    ui.SentFirst? || (ui.TimerMade? && ui.op == Remove)
  }

  /** The handler's extraction succeeds unless a remove call is still between sending and inserting, and
      what the kind-only comparator extracts is then the event of the answer. */
  lemma AnswerFindsPendingEvent(s: Xapp)
    requires Occurs(s) && s.loop.Matched?
    ensures HasKind(s.pending, s.loop.ev.kind) <==> !RemoveWindow(s.ui)
    ensures forall fd :: fd in s.pending && s.pending[fd].kind == s.loop.ev.kind ==> s.pending[fd] == s.loop.ev
  {
    OccursInv(s);
    if Asked(s.ui) in s.pending.Values {
      var fd := KeyWithValue(s.pending, Asked(s.ui));
    }
    forall fd | fd in s.pending && s.pending[fd].kind == s.loop.ev.kind
      ensures s.pending[fd] == s.loop.ev && s.pending[fd] in s.pending.Values
    {
    }
  }

  predicate MatchedTooEarly(s: Xapp)
  {
    !s.ui.Aborted? && s.loop.Matched? && RemoveWindow(s.ui)
  }

  /** Every remove call has a run in which its answer overtakes its pending event. */
  lemma RemoveCanBeOvertaken(s: Xapp, r: nat)
    requires Occurs(s) && s.ui.Ready? && r in s.reg
    ensures Possible(Next, MatchedTooEarly, s)
  {
    OccursInv(s);
    var s1 := Next(s, StartRemove(r));
    var s2 := Next(s1, Send);
    var s3 := Next(s2, IappAnswer(0));
    PossibleNow(Next, MatchedTooEarly, Next(s3, Match));
    PossibleAfter(Next, MatchedTooEarly, s3, Match);
    PossibleAfter(Next, MatchedTooEarly, s2, IappAnswer(0));
    PossibleAfter(Next, MatchedTooEarly, s1, Send);
    PossibleAfter(Next, MatchedTooEarly, s, StartRemove(r));
  }

  lemma NoKindPendingTwice(s: Xapp)
    requires Occurs(s)
    ensures OnePerKind(s.pending)
  {
    OccursInv(s);
  }

  /** The event loop has no timer without a pending event, except one being made or being closed. */
  lemma TimersArePendingEvents(s: Xapp)
    requires Occurs(s) && !s.ui.TimerMade? && !s.loop.Extracted?
    ensures s.epoll == {s.sctp} + s.pending.Keys && s.sctp !in s.pending
  {
    OccursInv(s);
  }

  // The monitor

  /** A call that returns was acknowledged, its pending event and timer are gone and nothing of it is left
      in any queue. */
  lemma WokenMeansAnswered(s: Xapp)
    requires Occurs(s) && s.ui.Woken?
    ensures s.ack && Next(s, Return).ui.Ready?
    ensures forall fd :: fd in s.pending ==> s.pending[fd].kind == E42SetupRequest
    ensures Quiet(s) && s.epoll == {s.sctp} + s.pending.Keys
  {
    OccursInv(s);
    forall fd | fd in s.pending ensures s.pending[fd].kind == E42SetupRequest {
      assert s.pending[fd] in s.pending.Values;
    }
  }

  ghost predicate Waiting(s: Xapp)
  {
    s.ui.Aborted? || (s.ui.Blocked? && !s.flag)
  }

  predicate Signals(s: Xapp, a: Action)
  {
    a.Signal? && s.loop.Closed?
  }

  predicate Wakes(s: Xapp, a: Action)
  {
    s.ui.Blocked? && Next(s, a).ui.Woken?
  }

  lemma WaitingStep(s: Xapp, a: Action)
    requires Waiting(s)
    ensures !Wakes(s, a)
    ensures !Signals(s, a) ==> Waiting(Next(s, a))
  {
  }

  /** However often the wait wakes up, it ends normally only after a signal that ran since the reset. */
  lemma NoWakeWithoutSignal(s: Xapp, acts: seq<Action>)
    requires Waiting(s) && Never(Next, Signals, s, acts)
    ensures Never(Next, Wakes, s, acts)
  {
    forall s, a | Waiting(s) ensures !Wakes(s, a) && (!Signals(s, a) ==> Waiting(Next(s, a))) {
      WaitingStep(s, a);
    }
    NeverWithout(Next, Waiting, Signals, Wakes, s, acts);
  }

  predicate IsWoken(s: Xapp)
  {
    s.ui.Woken?
  }

  /** The answer is still to be signalled, or was since the flags were reset. */
  ghost predicate AnswerAhead(s: Xapp)
    requires s.ui.Blocked?
  {
    s.flag || Asked(s.ui) in s.pending.Values || Handling(s)
  }

  /** The wait is over but for the deadline: the signal came before the reset. */
  ghost predicate SignalLost(s: Xapp)
  {
    s.ui.Aborted? || (s.ui.Blocked? && !s.flag && Quiet(s) && Asked(s.ui) !in s.pending.Values)
  }

  lemma SignalLostForGood(s: Xapp)
    requires SignalLost(s)
    ensures !Possible(Next, IsWoken, s)
  {
    forall s: Xapp, a | SignalLost(s) ensures SignalLost(Next(s, a)) {
      if !s.ui.Aborted? && a.SetupResponse? {
        ValuesShrink(s.pending, a.fd);
      }
    }
    ImpossibleWithin(Next, IsWoken, SignalLost, s);
  }

  lemma WakeAfterSignal(s: Xapp)
    requires s.ui.Blocked? && (s.flag || s.loop.Closed?)
    ensures Possible(Next, IsWoken, s)
    decreases !s.flag
  {
    if s.flag {
      PossibleNow(Next, IsWoken, Next(s, Wake));
      PossibleAfter(Next, IsWoken, s, Wake);
    } else {
      WakeAfterSignal(Next(s, Signal));
      PossibleAfter(Next, IsWoken, s, Signal);
    }
  }

  lemma WakeAfterExtraction(s: Xapp)
    requires s.ui.Blocked? && s.loop.Extracted?
    ensures Possible(Next, IsWoken, s)
  {
    WakeAfterSignal(Next(s, CloseTimer));
    PossibleAfter(Next, IsWoken, s, CloseTimer);
  }

  lemma WakeAfterMatch(s: Xapp)
    requires s.ui.Blocked? && s.loop.Matched? && s.loop.ev in s.pending.Values
    ensures Possible(Next, IsWoken, s)
  {
    var fd := KeyWithValue(s.pending, s.loop.ev);
    WakeAfterExtraction(Next(s, Extract(fd)));
    PossibleAfter(Next, IsWoken, s, Extract(fd));
  }

  lemma WakeAfterAnswer(s: Xapp)
    requires Inv(s) && s.ui.Blocked? && s.inbox != [] && s.loop.Idle? && Asked(s.ui) in s.pending.Values
    ensures Possible(Next, IsWoken, s)
  {
    WakeAfterMatch(Next(s, Match));
    PossibleAfter(Next, IsWoken, s, Match);
  }

  /** A blocked call can still return exactly when its answer is ahead of it or was signalled since the
      flags were reset. */
  lemma CanReturnIffAnswerAhead(s: Xapp)
    requires Occurs(s) && s.ui.Blocked?
    ensures Possible(Next, IsWoken, s) <==> AnswerAhead(s)
  {
    OccursInv(s);
    if !AnswerAhead(s) {
      SignalLostForGood(s);
    } else if s.flag || s.loop.Closed? {
      WakeAfterSignal(s);
    } else if s.loop.Extracted? {
      WakeAfterExtraction(s);
    } else if s.loop.Matched? {
      WakeAfterMatch(s);
    } else if s.inbox != [] {
      WakeAfterAnswer(s);
    } else {
      var t := Next(s, IappAnswer(0));
      NextInv(s, IappAnswer(0));
      WakeAfterAnswer(t);
      PossibleAfter(Next, IsWoken, s, IappAnswer(0));
    }
  }

  /** So a call that is about to wait is lost exactly when the event loop has already signalled it. */
  lemma WaitIsLostIffSignalledBefore(s: Xapp)
    requires Occurs(s) && s.ui.Calling?
    ensures Possible(Next, IsWoken, Next(s, ResetFlags)) <==> Asked(s.ui) in s.pending.Values || Handling(s)
  {
    assert Run(Next, s, [ResetFlags]) == Next(s, ResetFlags);
    ReachableThen(Init, Next, s, [ResetFlags]);
    CanReturnIffAnswerAhead(Next(s, ResetFlags));
  }

  ghost predicate BlockedForever(s: Xapp)
  {
    s.ui.Blocked? && !Possible(Next, IsWoken, s)
  }

  lemma LostOnceExtracted(s: Xapp)
    requires s.ui.Calling? && Handling(s) && Asked(s.ui) !in s.pending.Values
    ensures Possible(Next, BlockedForever, s)
    decreases s.loop.Extracted?
  {
    if s.loop.Extracted? {
      LostOnceExtracted(Next(s, CloseTimer));
      PossibleAfter(Next, BlockedForever, s, CloseTimer);
    } else {
      LostOnceSignalled(Next(s, Signal));
      PossibleAfter(Next, BlockedForever, s, Signal);
    }
  }

  lemma LostOnceSignalled(s: Xapp)
    requires s.ui.Calling? && Quiet(s) && Asked(s.ui) !in s.pending.Values
    ensures Possible(Next, BlockedForever, s)
  {
    SignalLostForGood(Next(s, ResetFlags));
    PossibleNow(Next, BlockedForever, Next(s, ResetFlags));
    PossibleAfter(Next, BlockedForever, s, ResetFlags);
  }

  lemma LostOnceMatched(s: Xapp)
    requires Inv(s) && s.ui.Calling? && s.loop.Matched? && Asked(s.ui) in s.pending.Values
    ensures Possible(Next, BlockedForever, s)
  {
    var fd := KeyWithValue(s.pending, Asked(s.ui));
    ValuesOfRest(s, fd);
    LostOnceExtracted(Next(s, Extract(fd)));
    PossibleAfter(Next, BlockedForever, s, Extract(fd));
  }

  /** Every call that is about to wait has a run in which its signal comes first and it never returns. */
  lemma SignalCanBeLost(s: Xapp)
    requires Inv(s) && s.ui.Calling?
    ensures Possible(Next, BlockedForever, s)
    decreases |s.outbox|, |s.inbox|
  {
    if Asked(s.ui) !in s.pending.Values {
      if Handling(s) {
        LostOnceExtracted(s);
      } else {
        LostOnceSignalled(s);
      }
    } else if s.loop.Matched? {
      LostOnceMatched(s);
    } else if s.inbox != [] {
      NextInv(s, Match);
      LostOnceMatched(Next(s, Match));
      PossibleAfter(Next, BlockedForever, s, Match);
    } else {
      NextInv(s, IappAnswer(0));
      SignalCanBeLost(Next(s, IappAnswer(0)));
      PossibleAfter(Next, BlockedForever, s, IappAnswer(0));
    }
  }

  lemma ReportBegunCanBeLost(s: Xapp, fd: int)
    requires Inv(s) && s.ui.Begun? && s.ui.op != Remove && fd !in s.epoll
    ensures Possible(Next, BlockedForever, s)
  {
    NextInv(s, MakeTimer(fd));
    var s1 := Next(s, MakeTimer(fd));
    NextInv(s1, Insert);
    var s2 := Next(s1, Insert);
    NextInv(s2, Send);
    SignalCanBeLost(Next(s2, Send));
    PossibleAfter(Next, BlockedForever, s2, Send);
    PossibleAfter(Next, BlockedForever, s1, Insert);
    PossibleAfter(Next, BlockedForever, s, MakeTimer(fd));
  }

  /** And every report can be made into such a call. */
  lemma EveryReportCanBeLost(s: Xapp, func: nat, fd: int)
    requires Occurs(s) && s.ui.Ready? && s.keyId < MAX_REQ_ID && fd !in s.epoll
    ensures Possible(Next, BlockedForever, s)
  {
    OccursInv(s);
    NextInv(s, StartReport(func));
    ReportBegunCanBeLost(Next(s, StartReport(func)), fd);
    PossibleAfter(Next, BlockedForever, s, StartReport(func));
  }
}

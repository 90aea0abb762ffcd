/** The request identifiers that the RIC hands out, on the wake-up pipe of an agent. */
module WakeupNumbers {
  import opened RicProcedures
  import opened WakeupPipe

  /** The identifiers of the first `n` allocations. */
  ghost predicate HandedOut(n: nat, id: nat)
  {
    exists m: nat :: m < n && ReqIdAt(m) == id
  }

  lemma HandedOutInRange(n: nat, id: nat)
    requires n <= 8979 && HandedOut(n, id)
    ensures 1000 <= id <= 9999
  {
    var m: nat :| m < n && ReqIdAt(m) == id;
    FourDigitAllocations(m);
  }

  lemma FiveDigitsAt(n: nat, m: nat) returns (id: nat)
    requires m == 8979 < n
    ensures HandedOut(n, id) && id > 9999
  {
    id := ReqIdAt(m);
    ReqIdAtClosedForm(m);
  }

  /** Aperiodic subscriptions with the identifiers of the first `n` allocations work exactly while there are no
      more than 8979: with the next one, 10000, the pipe and the queue get out of step in some run. */
  lemma WorksForFirst8979(n: nat)
    ensures (forall s :: InAnyRun((id: nat) => HandedOut(n, id), s) ==> Good(s)) <==> n <= 8979
  {
    var allowed := (id: nat) => HandedOut(n, id);
    WorksIffFourDigits(allowed);
    if n <= 8979 {
      forall id: nat | HandedOut(n, id) ensures 1000 <= id <= 9999 {
        HandedOutInRange(n, id);
      }
    } else {
      var id := FiveDigitsAt(n, 8979);
      assert allowed(id);
    }
  }
}

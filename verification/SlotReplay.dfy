/** The replay of a slot: PRBs are granted to the rows of the slot in descending order of their predicted
    priority, until the budget is used up. */
module SlotReplay {

  const MAX_PRBS: real := 51.0

  function Min(x: real, y: real): real
  {
    if x <= y then x else y
  }

  ghost function Sum(x: seq<real>): real
  {
    if x == [] then 0.0 else x[0] + Sum(x[1..])
  }

  ghost function Dot(x: seq<real>, y: seq<real>): real
    requires |x| == |y|
  {
    if x == [] then 0.0 else x[0] * y[0] + Dot(x[1..], y[1..])
  }

  ghost predicate Nonnegative(x: seq<real>)
  {
    forall k :: 0 <= k < |x| ==> 0.0 <= x[k]
  }

  ghost predicate AtMost(x: seq<real>, y: seq<real>)
  {
    |x| == |y| && forall k :: 0 <= k < |x| ==> x[k] <= y[k]
  }

  ghost predicate Descending(x: seq<real>)
  {
    forall j, k :: 0 <= j < k < |x| ==> x[k] <= x[j]
  }

  /** No row gets less than nothing or more than it needs, nor all together more than the budget. */
  ghost predicate Feasible(x: seq<real>, need: seq<real>, budget: real)
  {
    Nonnegative(x) && AtMost(x, need) && Sum(x) <= budget
  }

  /** What the loop grants, in order: the rest of the rows get nothing once the budget is gone. */
  ghost function Grants(need: seq<real>, remaining: real): (g: seq<real>)
    ensures |g| == |need|
  {
    if need == [] then []
    else
      var grant := if remaining <= 0.0 then 0.0 else Min(need[0], remaining);
      [grant] + Grants(need[1..], remaining - grant)
  }

  lemma {:induction false} GrantsAreFeasible(need: seq<real>, budget: real)
    requires Nonnegative(need) && 0.0 <= budget
    ensures Feasible(Grants(need, budget), need, budget)
    ensures Sum(Grants(need, budget)) == Min(budget, Sum(need))
  {
    if need != [] {
      var g := Grants(need, budget);
      GrantsAreFeasible(need[1..], budget - g[0]);
      assert g[1..] == Grants(need[1..], budget - g[0]);
      forall k | 0 <= k < |g| ensures 0.0 <= g[k] <= need[k] {
        if k > 0 {
          assert g[k] == g[1..][k - 1] && need[k] == need[1..][k - 1];
        }
      }
      SumNonnegative(need[1..]);
    }
  }

  lemma {:induction false} SumNonnegative(x: seq<real>)
    requires Nonnegative(x)
    ensures 0.0 <= Sum(x)
  {
    if x != [] {
      SumNonnegative(x[1..]);
    }
  }

  lemma Carry(score: real, best: real, x: real, g: real, carry: real, rest: real, restX: real, restG: real)
    requires score <= best && 0.0 <= carry && rest == carry + g - x && restX <= restG + score * rest
    ensures score * x + restX <= score * g + restG + best * carry
  {
    assert score * rest == score * carry + score * g - score * x;
    assert score * carry <= best * carry;
  }

  lemma {:induction false} CarryOn(score: seq<real>, best: real, x: seq<real>, g: seq<real>, carry: real, rest: real)
    requires |score| == |x| == |g| > 0 && score[0] <= best && 0.0 <= carry && rest == carry + g[0] - x[0]
    requires Dot(score[1..], x[1..]) <= Dot(score[1..], g[1..]) + score[0] * rest
    ensures Dot(score, x) <= Dot(score, g) + best * carry
  {
    Carry(score[0], best, x[0], g[0], carry, rest, Dot(score[1..], x[1..]), Dot(score[1..], g[1..]));
  }

  /** What `x` may spend beyond `budget` carries over to the rest of the rows. */
  lemma {:induction false} TailFits(x: seq<real>, need: seq<real>, budget: real, carry: real)
    returns (g: real, rest: real)
    requires need != [] && Nonnegative(need) && 0.0 <= budget && 0.0 <= carry && Feasible(x, need, budget + carry)
    ensures Grants(need, budget) == [g] + Grants(need[1..], budget - g)
    ensures 0.0 <= rest == carry + g - x[0] && g <= budget
    ensures Nonnegative(need[1..]) && Feasible(x[1..], need[1..], (budget - g) + rest)
  {
    g := Grants(need, budget)[0];
    rest := carry + g - x[0];
    SumNonnegative(x[1..]);
  }

  lemma NonnegativeProduct(x: real, y: real)
    requires 0.0 <= x && 0.0 <= y
    ensures 0.0 <= x * y
  {
  }

  predicate HeadAtMost(score: seq<real>, best: real)
  {
    score != [] ==> score[0] <= best
  }

  /** With `carry` more to spend an allocation gains at most that much of the best score. */
  lemma {:induction false} GreedyWithin(score: seq<real>, need: seq<real>, budget: real, x: seq<real>, carry: real,
                                       best: real)
    requires |score| == |need| && Descending(score) && Nonnegative(score) && HeadAtMost(score, best)
    requires Nonnegative(need) && 0.0 <= budget && 0.0 <= carry && 0.0 <= best
    requires Feasible(x, need, budget + carry)
    ensures Dot(score, x) <= Dot(score, Grants(need, budget)) + best * carry
    decreases |need|
  {
    if need == [] {
      NonnegativeProduct(best, carry);
    } else {
      var g, rest := TailFits(x, need, budget, carry);
      assert Descending(score[1..]) && Nonnegative(score[1..]) && HeadAtMost(score[1..], score[0]);
      GreedyWithin(score[1..], need[1..], budget - g, x[1..], rest, score[0]);
      assert Grants(need, budget)[1..] == Grants(need[1..], budget - g);
      CarryOn(score, best, x, Grants(need, budget), carry, rest);
    }
  }

  /** No feasible allocation scores more than granting in descending order. */
  lemma GreedyIsOptimal(score: seq<real>, need: seq<real>, budget: real, x: seq<real>)
    requires |score| == |need| && Descending(score) && Nonnegative(score)
    requires Nonnegative(need) && 0.0 <= budget && Feasible(x, need, budget)
    ensures Dot(score, x) <= Dot(score, Grants(need, budget))
  {
    GreedyWithin(score, need, budget, x, 0.0, if score == [] then 0.0 else score[0]);
  }

  // Scores of either sign

  ghost function Raised(score: seq<real>, raise: real): (r: seq<real>)
    ensures |r| == |score| && forall k :: 0 <= k < |r| ==> r[k] == score[k] + raise
  {
    seq(|score|, k requires 0 <= k < |score| => score[k] + raise)
  }

  lemma Distribute(score: real, raise: real, x: real, rest: real)
    ensures (score + raise) * x + raise * rest == score * x + raise * (x + rest)
  {
  }

  lemma {:induction false} DotRaised(score: seq<real>, raise: real, x: seq<real>)
    requires |score| == |x|
    ensures Dot(Raised(score, raise), x) == Dot(score, x) + raise * Sum(x)
  {
    if x != [] {
      DotRaised(score[1..], raise, x[1..]);
      assert Raised(score, raise)[1..] == Raised(score[1..], raise);
      Distribute(score[0], raise, x[0], Sum(x[1..]));
    }
  }

  lemma {:induction false} RaiseCancels(score: seq<real>, raise: real, x: seq<real>, y: seq<real>)
    requires |score| == |x| == |y| && Sum(x) == Sum(y)
    requires Dot(Raised(score, raise), x) <= Dot(Raised(score, raise), y)
    ensures Dot(score, x) <= Dot(score, y)
  {
    var extra := raise * Sum(y);
    DotRaised(score, raise, x);
    DotRaised(score, raise, y);
    assert raise * Sum(x) == extra;
  }

  /** Whatever the signs, nothing that grants as much in total scores more. */
  lemma GreedyIsOptimalForTotal(score: seq<real>, need: seq<real>, budget: real, x: seq<real>)
    requires |score| == |need| && Descending(score) && Nonnegative(need) && 0.0 <= budget
    requires Feasible(x, need, budget) && Sum(x) == Sum(Grants(need, budget))
    ensures Dot(score, x) <= Dot(score, Grants(need, budget))
  {
    var g := Grants(need, budget);
    var raise := if score == [] || score[|score| - 1] >= 0.0 then 0.0 else -score[|score| - 1];
    GreedyIsOptimal(Raised(score, raise), need, budget, x);
    RaiseCancels(score, raise, x, g);
  }

  ghost predicate GrantedNonnegative(score: seq<real>, g: seq<real>)
  {
    |score| == |g| && forall k :: 0 <= k < |g| && g[k] > 0.0 ==> 0.0 <= score[k]
  }

  ghost function Clipped(score: seq<real>): (c: seq<real>)
    ensures |c| == |score| && forall k :: 0 <= k < |c| ==> c[k] == if score[k] < 0.0 then 0.0 else score[k]
  {
    seq(|score|, k requires 0 <= k < |score| => if score[k] < 0.0 then 0.0 else score[k])
  }

  lemma ClippedProduct(score: real, c: real, x: real)
    requires 0.0 <= x && c == if score < 0.0 then 0.0 else score
    ensures score * x <= c * x && (x == 0.0 || 0.0 <= score ==> score * x == c * x)
  {
  }

  lemma {:induction false} DotClipped(score: seq<real>, x: seq<real>)
    requires |score| == |x| && Nonnegative(x)
    ensures Dot(score, x) <= Dot(Clipped(score), x)
    ensures GrantedNonnegative(score, x) ==> Dot(score, x) == Dot(Clipped(score), x)
  {
    if x != [] {
      var c := Clipped(score);
      DotClipped(score[1..], x[1..]);
      assert c[1..] == Clipped(score[1..]);
      ClippedProduct(score[0], c[0], x[0]);
      assert GrantedNonnegative(score, x) ==> GrantedNonnegative(score[1..], x[1..]);
    }
  }

  lemma {:induction false} WithoutOne(score: seq<real>, x: seq<real>, k: nat)
    requires |score| == |x| && k < |x|
    ensures Sum(x[k := 0.0]) == Sum(x) - x[k]
    ensures Dot(score, x[k := 0.0]) == Dot(score, x) - score[k] * x[k]
  {
    var y := x[k := 0.0];
    if k == 0 {
      assert y[1..] == x[1..];
    } else {
      WithoutOne(score[1..], x[1..], k - 1);
      assert y[1..] == x[1..][k - 1 := 0.0];
    }
  }

  lemma NegativeProduct(x: real, y: real)
    requires x < 0.0 && 0.0 < y
    ensures x * y < 0.0
  {
  }

  lemma NegativeGrantLoses(score: seq<real>, need: seq<real>, budget: real, k: nat) returns (x: seq<real>)
    requires |score| == |need| && Nonnegative(need) && 0.0 <= budget && k < |need|
    requires score[k] < 0.0 < Grants(need, budget)[k]
    ensures Feasible(x, need, budget) && Dot(score, Grants(need, budget)) < Dot(score, x)
  {
    var g := Grants(need, budget);
    x := g[k := 0.0];
    GrantsAreFeasible(need, budget);
    WithoutOne(score, g, k);
    NegativeProduct(score[k], g[k]);
  }

  ghost predicate Unbeaten(score: seq<real>, need: seq<real>, budget: real)
    requires |score| == |need|
  {
    forall x :: Feasible(x, need, budget) ==> Dot(score, x) <= Dot(score, Grants(need, budget))
  }

  /** Granting in descending order is optimal exactly when no row of negative score gets a grant. */
  lemma GreedyIsOptimalIff(score: seq<real>, need: seq<real>, budget: real)
    requires |score| == |need| && Descending(score) && Nonnegative(need) && 0.0 <= budget
    ensures Unbeaten(score, need, budget) <==> GrantedNonnegative(score, Grants(need, budget))
  {
    var g := Grants(need, budget);
    if GrantedNonnegative(score, g) {
      GrantsAreFeasible(need, budget);
      DotClipped(score, g);
      forall x | Feasible(x, need, budget) ensures Dot(score, x) <= Dot(score, g) {
        DotClipped(score, x);
        GreedyIsOptimal(Clipped(score), need, budget, x);
      }
    } else {
      var k :| 0 <= k < |g| && g[k] > 0.0 && score[k] < 0.0;
      var x := NegativeGrantLoses(score, need, budget, k);
      assert !Unbeaten(score, need, budget);
    }
  }

  // Rows of a data frame

  ghost predicate Rows(order: seq<nat>, n: nat)
  {
    && (forall k :: 0 <= k < |order| ==> order[k] < n)
    && (forall j, k :: 0 <= j < k < |order| ==> order[j] != order[k])
  }

  /** A column, in the order of the slot. */
  ghost function At(x: seq<real>, order: seq<nat>): (y: seq<real>)
    requires forall k :: 0 <= k < |order| ==> order[k] < |x|
    ensures |y| == |order| && forall k :: 0 <= k < |order| ==> y[k] == x[order[k]]
  {
    seq(|order|, k requires 0 <= k < |order| => x[order[k]])
  }

  /** The column with new values for the rows of a slot. */
  ghost function Place(x: seq<real>, order: seq<nat>, g: seq<real>): (y: seq<real>)
    requires |order| == |g| && forall k :: 0 <= k < |order| ==> order[k] < |x|
    ensures |y| == |x|
    decreases order
  {
    if order == [] then x else Place(x[order[0] := g[0]], order[1..], g[1..])
  }

  lemma {:induction false} PlaceElsewhere(x: seq<real>, order: seq<nat>, g: seq<real>, i: nat)
    requires |order| == |g| && i < |x| && forall k :: 0 <= k < |order| ==> order[k] < |x| && order[k] != i
    ensures Place(x, order, g)[i] == x[i]
    decreases order
  {
    if order != [] {
      PlaceElsewhere(x[order[0] := g[0]], order[1..], g[1..], i);
    }
  }

  lemma {:induction false} PlaceAt(x: seq<real>, order: seq<nat>, g: seq<real>)
    requires |order| == |g| && Rows(order, |x|)
    ensures At(Place(x, order, g), order) == g
    decreases order
  {
    if order != [] {
      var x' := x[order[0] := g[0]];
      PlaceElsewhere(x', order[1..], g[1..], order[0]);
      PlaceAt(x', order[1..], g[1..]);
      var y := Place(x, order, g);
      forall k | 0 <= k < |order| ensures y[order[k]] == g[k] {
        if k > 0 {
          assert At(y, order[1..])[k - 1] == g[1..][k - 1];
        }
      }
    }
  }

  lemma {:induction false} NothingLeft(x: seq<real>, order: seq<nat>, need: seq<real>, remaining: real)
    requires remaining <= 0.0 && |order| == |need|
    requires forall k :: 0 <= k < |order| ==> order[k] < |x| && x[order[k]] == 0.0
    ensures Place(x, order, Grants(need, remaining)) == x
  {
    if need != [] {
      assert x[order[0] := 0.0] == x;
      assert Grants(need, remaining)[1..] == Grants(need[1..], remaining);
      NothingLeft(x, order[1..], need[1..], remaining);
    }
  }

  lemma PlaceOne(x: seq<real>, order: seq<nat>, need: seq<real>, k: nat, remaining: real)
    requires k < |order| == |need| && 0.0 < remaining && forall j :: 0 <= j < |order| ==> order[j] < |x|
    ensures var grant := Min(need[k], remaining);
            Place(x, order[k..], Grants(need[k..], remaining))
            == Place(x[order[k] := grant], order[k + 1..], Grants(need[k + 1..], remaining - grant))
  {
    var g := Grants(need[k..], remaining);
    assert need[k..][1..] == need[k + 1..] && order[k..][1..] == order[k + 1..];
    assert g[1..] == Grants(need[k + 1..], remaining - Min(need[k], remaining));
  }

  ghost predicate FlagsAgree(prbs: seq<real>, scheduled: seq<bool>)
  {
    |prbs| == |scheduled| && forall i :: 0 <= i < |prbs| ==> (scheduled[i] <==> prbs[i] > 0.0)
  }

  /** One slot, whose rows have no grant yet. */
  method ReplaySlot(order: seq<nat>, need: seq<real>, prbs: array<real>, scheduled: array<bool>)
    requires |need| == prbs.Length && Rows(order, |need|) && FlagsAgree(prbs[..], scheduled[..])
    requires forall k :: 0 <= k < |order| ==> prbs[order[k]] == 0.0
    modifies prbs, scheduled
    ensures prbs[..] == Place(old(prbs[..]), order, Grants(At(need, order), MAX_PRBS))
    ensures FlagsAgree(prbs[..], scheduled[..])
  {
    ghost var wanted := At(need, order);
    var remaining := MAX_PRBS;
    var k := 0;
    assert wanted[0..] == wanted && order[0..] == order;
    while k < |order|
      invariant 0 <= k <= |order|
      invariant Place(prbs[..], order[k..], Grants(wanted[k..], remaining))
             == Place(old(prbs[..]), order, Grants(wanted, MAX_PRBS))
      invariant forall j :: k <= j < |order| ==> prbs[order[j]] == 0.0
      invariant FlagsAgree(prbs[..], scheduled[..])
    {
      var i := order[k];
      if remaining <= 0.0 {
        NothingLeft(prbs[..], order[k..], wanted[k..], remaining);
        return;
      }
      var grant := Min(need[i], remaining);
      ghost var was := prbs[..];
      PlaceOne(was, order, wanted, k, remaining);
      prbs[i] := grant;
      if grant > 0.0 {
        scheduled[i] := true;
      }
      assert prbs[..] == was[i := grant];
      remaining := remaining - grant;
      k := k + 1;
    }
  }

  /** The rows of a slot get 51 PRBs or all that they need, whichever is less. */
  lemma SlotTotal(need: seq<real>, order: seq<nat>)
    requires Nonnegative(need) && Rows(order, |need|)
    ensures var g := Grants(At(need, order), MAX_PRBS);
            Sum(g) == if Sum(At(need, order)) <= 51.0 then Sum(At(need, order)) else 51.0
  {
    GrantsAreFeasible(At(need, order), MAX_PRBS);
  }

  ghost predicate Untouched(prbs: seq<real>, order: seq<nat>)
  {
    forall k :: 0 <= k < |order| ==> order[k] < |prbs| && prbs[order[k]] == 0.0
  }

  /** All slots, which share no row: every slot gets its own budget. */
  method ReplaySlots(slots: seq<seq<nat>>, need: seq<real>, prbs: array<real>, scheduled: array<bool>)
    requires |need| == prbs.Length && FlagsAgree(prbs[..], scheduled[..])
    requires forall s :: 0 <= s < |slots| ==> Rows(slots[s], |need|) && Untouched(prbs[..], slots[s])
    requires forall s, t :: 0 <= s < t < |slots| ==> DisjointRows(slots[s], slots[t])
    modifies prbs, scheduled
    ensures forall s :: 0 <= s < |slots| ==>
              Rows(slots[s], |need|) && At(prbs[..], slots[s]) == Grants(At(need, slots[s]), MAX_PRBS)
    ensures Nonnegative(need) ==> forall s :: 0 <= s < |slots| ==>
              && Rows(slots[s], |need|)
              && Sum(At(prbs[..], slots[s])) ==
                 if Sum(At(need, slots[s])) <= 51.0 then Sum(At(need, slots[s])) else 51.0
    ensures FlagsAgree(prbs[..], scheduled[..])
  {
    for s := 0 to |slots|
      invariant FlagsAgree(prbs[..], scheduled[..])
      invariant forall t :: s <= t < |slots| ==> Untouched(prbs[..], slots[t])
      invariant forall t :: 0 <= t < s ==> At(prbs[..], slots[t]) == Grants(At(need, slots[t]), MAX_PRBS)
    {
      ghost var was := prbs[..];
      assert Untouched(was, slots[s]);
      ReplaySlot(slots[s], need, prbs, scheduled);
      PlaceAt(was, slots[s], Grants(At(need, slots[s]), MAX_PRBS));
      forall t | 0 <= t < |slots| && t != s ensures At(prbs[..], slots[t]) == At(was, slots[t]) {
        assert DisjointRows(slots[s], slots[t]);
        PlaceOutside(was, slots[s], Grants(At(need, slots[s]), MAX_PRBS), slots[t]);
      }
      forall t | s < t < |slots| ensures Untouched(prbs[..], slots[t]) {
        assert Untouched(was, slots[t]);
        StillUntouched(was, prbs[..], slots[t]);
      }
    }
    if Nonnegative(need) {
      forall s | 0 <= s < |slots| ensures Sum(At(prbs[..], slots[s])) ==
          if Sum(At(need, slots[s])) <= 51.0 then Sum(At(need, slots[s])) else 51.0
      {
        SlotTotal(need, slots[s]);
      }
    }
  }

  ghost predicate DisjointRows(a: seq<nat>, b: seq<nat>)
  {
    forall j, k :: 0 <= j < |a| && 0 <= k < |b| ==> a[j] != b[k]
  }

  lemma StillUntouched(was: seq<real>, prbs: seq<real>, order: seq<nat>)
    requires |was| == |prbs| && Untouched(was, order) && At(was, order) == At(prbs, order)
    ensures Untouched(prbs, order)
  {
    assert forall k :: 0 <= k < |order| ==> prbs[order[k]] == At(prbs, order)[k];
  }

  lemma PlaceOutside(x: seq<real>, order: seq<nat>, g: seq<real>, other: seq<nat>)
    requires |order| == |g| && Rows(order, |x|) && Rows(other, |x|) && DisjointRows(order, other)
    ensures At(Place(x, order, g), other) == At(x, other)
  {
    forall k | 0 <= k < |other| ensures Place(x, order, g)[other[k]] == x[other[k]] {
      PlaceElsewhere(x, order, g, other[k]);
    }
  }

  // Rows of equal score may come in either order

  lemma {:induction false} SumOut(y: seq<real>, j: nat)
    requires j < |y|
    ensures Sum(y) == y[j] + Sum(y[..j] + y[j + 1..])
    decreases y
  {
    if j == 0 {
      assert y[..0] + y[1..] == y[1..];
    } else {
      SumOut(y[1..], j - 1);
      var rest := y[..j] + y[j + 1..];
      assert rest[0] == y[0] && rest[1..] == y[1..][..j - 1] + y[1..][j..];
    }
  }

  lemma RowOut(x: seq<real>, order: seq<nat>, j: nat)
    requires j < |order| && forall k :: 0 <= k < |order| ==> order[k] < |x|
    ensures Sum(At(x, order)) == x[order[j]] + Sum(At(x, order[..j] + order[j + 1..]))
  {
    var y := At(x, order);
    SumOut(y, j);
    assert At(x, order[..j] + order[j + 1..]) == y[..j] + y[j + 1..];
  }

  lemma TakeOut(a: seq<nat>, b: seq<nat>) returns (j: nat)
    requires a != [] && multiset(a) == multiset(b)
    ensures j < |b| && b[j] == a[0]
    ensures multiset(a[1..]) == multiset(b[..j] + b[j + 1..])
  {
    assert a[0] in multiset(b);
    j :| 0 <= j < |b| && b[j] == a[0];
    assert b == b[..j] + [b[j]] + b[j + 1..];
    assert a == [a[0]] + a[1..];
    assert multiset(a[1..]) == multiset(a) - multiset{a[0]};
    assert multiset(b[..j] + b[j + 1..]) == multiset(b) - multiset{b[j]};
  }

  lemma {:induction false} SameSum(x: seq<real>, a: seq<nat>, b: seq<nat>)
    requires multiset(a) == multiset(b)
    requires (forall k :: 0 <= k < |a| ==> a[k] < |x|) && (forall k :: 0 <= k < |b| ==> b[k] < |x|)
    ensures Sum(At(x, a)) == Sum(At(x, b))
    decreases a
  {
    if a == [] {
      assert |multiset(b)| == 0;
    } else {
      var j := TakeOut(a, b);
      SameSum(x, a[1..], b[..j] + b[j + 1..]);
      assert a[..0] + a[1..] == a[1..];
      RowOut(x, a, 0);
      RowOut(x, b, j);
    }
  }

  lemma {:induction false} DotIsSum(score: seq<real>, x: seq<real>, worth: seq<real>, order: seq<nat>)
    requires |score| == |x| == |worth| && forall k :: 0 <= k < |order| ==> order[k] < |x|
    requires forall i :: 0 <= i < |x| ==> worth[i] == score[i] * x[i]
    ensures Dot(At(score, order), At(x, order)) == Sum(At(worth, order))
    decreases order
  {
    if order != [] {
      DotIsSum(score, x, worth, order[1..]);
      assert At(score, order)[1..] == At(score, order[1..]);
      assert At(x, order)[1..] == At(x, order[1..]);
      assert At(worth, order)[1..] == At(worth, order[1..]);
    }
  }

  /** Both orders hold the same rows, so an allocation is worth the same in both. */
  lemma SameWorth(score: seq<real>, x: seq<real>, a: seq<nat>, b: seq<nat>)
    requires |score| == |x| && multiset(a) == multiset(b) && Rows(a, |x|) && Rows(b, |x|)
    ensures Dot(At(score, a), At(x, a)) == Dot(At(score, b), At(x, b))
  {
    var worth := seq(|x|, i requires 0 <= i < |x| => score[i] * x[i]);
    DotIsSum(score, x, worth, a);
    DotIsSum(score, x, worth, b);
    SameSum(worth, a, b);
  }

  lemma FeasibleInOtherOrder(need: seq<real>, x: seq<real>, a: seq<nat>, b: seq<nat>, budget: real)
    requires |need| == |x| && multiset(a) == multiset(b) && Rows(a, |x|) && Rows(b, |x|)
    requires Feasible(At(x, b), At(need, b), budget)
    ensures Feasible(At(x, a), At(need, a), budget)
  {
    SameSum(x, a, b);
    forall k | 0 <= k < |a| ensures 0.0 <= x[a[k]] <= need[a[k]] {
      assert a[k] in multiset(b);
      var j :| 0 <= j < |b| && b[j] == a[k];
      assert 0.0 <= At(x, b)[j] <= At(need, b)[j];
    }
  }

  /** Replaying a slot in an order of descending score is worth at least as much as any allocation to its
      rows, whatever order that one was found in, provided no row of negative score gets a grant or the
      other one grants as much. */
  lemma ReplayIsOptimal(score: seq<real>, need: seq<real>, x: seq<real>, a: seq<nat>, b: seq<nat>)
    requires |score| == |need| == |x| && multiset(a) == multiset(b) && Rows(a, |x|) && Rows(b, |x|)
    requires Nonnegative(need) && Descending(At(score, a)) && Feasible(At(x, b), At(need, b), MAX_PRBS)
    requires || GrantedNonnegative(At(score, a), Grants(At(need, a), MAX_PRBS))
             || Sum(At(x, b)) == Min(MAX_PRBS, Sum(At(need, b)))
    ensures Dot(At(score, b), At(x, b)) <= Dot(At(score, a), Grants(At(need, a), MAX_PRBS))
  {
    FeasibleInOtherOrder(need, x, a, b, MAX_PRBS);
    SameWorth(score, x, a, b);
    if GrantedNonnegative(At(score, a), Grants(At(need, a), MAX_PRBS)) {
      GreedyIsOptimalIff(At(score, a), At(need, a), MAX_PRBS);
    } else {
      SameSum(x, a, b);
      SameSum(need, a, b);
      GrantsAreFeasible(At(need, a), MAX_PRBS);
      GreedyIsOptimalForTotal(At(score, a), At(need, a), MAX_PRBS, At(x, a));
    }
  }

  lemma NoBetterOrder(score: seq<real>, need: seq<real>, a: seq<nat>, b: seq<nat>)
    requires |score| == |need| && multiset(a) == multiset(b) && Rows(a, |need|) && Rows(b, |need|)
    requires Nonnegative(need) && Descending(At(score, a))
    ensures Dot(At(score, b), Grants(At(need, b), MAX_PRBS)) <= Dot(At(score, a), Grants(At(need, a), MAX_PRBS))
  {
    var g := Grants(At(need, b), MAX_PRBS);
    var x := Place(seq(|need|, i => 0.0), b, g);
    PlaceAt(seq(|need|, i => 0.0), b, g);
    GrantsAreFeasible(At(need, b), MAX_PRBS);
    ReplayIsOptimal(score, need, x, a, b);
  }

  /** However a sort breaks ties, the replay is worth the same. */
  lemma TiesDoNotMatter(score: seq<real>, need: seq<real>, a: seq<nat>, b: seq<nat>)
    requires |score| == |need| && multiset(a) == multiset(b) && Rows(a, |need|) && Rows(b, |need|)
    requires Nonnegative(need) && Descending(At(score, a)) && Descending(At(score, b))
    ensures Dot(At(score, a), Grants(At(need, a), MAX_PRBS)) == Dot(At(score, b), Grants(At(need, b), MAX_PRBS))
  {
    NoBetterOrder(score, need, a, b);
    NoBetterOrder(score, need, b, a);
  }
}

/** The token bucket as a value: what one bucket admits over any schedule of calls. Time is in milliseconds. */
module TokenBuckets {
  datatype Policy = Policy(capacity: real, refillPerSecond: real)
  {
    predicate Sensible() {
      capacity >= 0.0 && refillPerSecond >= 0.0
    }

    /** Tokens earned over a stretch of time. */
    function Earned(millis: real): real {
      millis / 1000.0 * refillPerSecond
    }
  }

  datatype Level = Level(tokens: real, lastRefill: real)

  datatype Call = Call(now: real, cost: real)

  function Min(a: real, b: real): real {
    if a <= b then a else b
  }

  function Refill(b: Level, now: real, p: Policy): Level {
    if now - b.lastRefill <= 0.0 then b
    else Level(Min(p.capacity, b.tokens + p.Earned(now - b.lastRefill)), now)
  }

  predicate Admits(b: Level, c: Call, p: Policy) {
    Refill(b, c.now, p).tokens >= c.cost
  }

  /** The bucket after tryConsume. */
  function Next(b: Level, c: Call, p: Policy): Level {
    var r := Refill(b, c.now, p);
    if r.tokens >= c.cost then r.(tokens := r.tokens - c.cost) else r
  }

  function Run(b: Level, cs: seq<Call>, p: Policy): Level
    decreases |cs|
  {
    if cs == [] then b else Run(Next(b, cs[0], p), cs[1..], p)
  }

  function Results(b: Level, cs: seq<Call>, p: Policy): (r: seq<bool>)
    ensures |r| == |cs|
    decreases |cs|
  {
    if cs == [] then [] else [Admits(b, cs[0], p)] + Results(Next(b, cs[0], p), cs[1..], p)
  }

  /** Total cost of the admitted calls. */
  function Spent(b: Level, cs: seq<Call>, p: Policy): real
    decreases |cs|
  {
    if cs == [] then 0.0
    else (if Admits(b, cs[0], p) then cs[0].cost else 0.0) + Spent(Next(b, cs[0], p), cs[1..], p)
  }

  predicate InRange(b: Level, p: Policy) {
    0.0 <= b.tokens <= p.capacity
  }

  predicate Costs(cs: seq<Call>) {
    forall c :: c in cs ==> c.cost >= 0.0
  }

  lemma EarnedAdds(p: Policy, a: real, b: real)
    ensures p.Earned(a) + p.Earned(b) == p.Earned(a + b)
  {
    var r := p.refillPerSecond;
    assert a / 1000.0 * r + b / 1000.0 * r == (a / 1000.0 + b / 1000.0) * r;
    assert a / 1000.0 + b / 1000.0 == (a + b) / 1000.0;
  }

  lemma EarnedIsNonNegative(p: Policy, a: real)
    requires p.Sensible() && a >= 0.0
    ensures p.Earned(a) >= 0.0
  {
    var s := a / 1000.0;
    assert s >= 0.0;
  }

  lemma EarnedMeaning(p: Policy, millis: real)
    ensures p.Earned(millis) == p.refillPerSecond * millis / 1000.0
  {
    var r := p.refillPerSecond;
    assert millis / 1000.0 * r == r * millis / 1000.0;
  }

  /** What a refill at this reading earns beyond the capacity, and is lost. */
  function CutOff(b: Level, now: real, p: Policy): real {
    var earned := if now > b.lastRefill then p.refillPerSecond * (now - b.lastRefill) / 1000.0 else 0.0;
    if b.tokens + earned > p.capacity then b.tokens + earned - p.capacity else 0.0
  }

  /** What the calls' refills lose at the cap. */
  function Wasted(b: Level, cs: seq<Call>, p: Policy): real
    decreases |cs|
  {
    if cs == [] then 0.0 else CutOff(b, cs[0].now, p) + Wasted(Next(b, cs[0], p), cs[1..], p)
  }

  /** The latest of a reading and the calls' readings. */
  function Latest(reading: real, cs: seq<Call>): real
    decreases |cs|
  {
    if cs == [] then reading else Latest(if cs[0].now > reading then cs[0].now else reading, cs[1..])
  }

  lemma CallBalances(b: Level, c: Call, p: Policy)
    requires p.Sensible() && InRange(b, p) && c.cost >= 0.0
    ensures var n := Next(b, c, p);
            && InRange(n, p) && n.lastRefill == (if c.now > b.lastRefill then c.now else b.lastRefill)
            && (if Admits(b, c, p) then c.cost else 0.0) + n.tokens + CutOff(b, c.now, p)
                == b.tokens + p.Earned(n.lastRefill - b.lastRefill)
  {
    EarnedMeaning(p, c.now - b.lastRefill);
    if c.now > b.lastRefill {
      EarnedIsNonNegative(p, c.now - b.lastRefill);
    } else {
      EarnedMeaning(p, 0.0);
    }
  }

  lemma {:induction false} BalanceOverCalls(b: Level, cs: seq<Call>, p: Policy)
    requires p.Sensible() && InRange(b, p) && Costs(cs)
    ensures InRange(Run(b, cs, p), p) && Wasted(b, cs, p) >= 0.0
    ensures Run(b, cs, p).lastRefill == Latest(b.lastRefill, cs) >= b.lastRefill
    ensures Spent(b, cs, p) + Run(b, cs, p).tokens + Wasted(b, cs, p)
         == b.tokens + p.Earned(Latest(b.lastRefill, cs) - b.lastRefill)
    decreases |cs|
  {
    if cs == [] {
      assert p.Earned(0.0) == 0.0;
    } else {
      var n, e := Next(b, cs[0], p), Run(b, cs, p);
      CallBalances(b, cs[0], p);
      BalanceOverCalls(n, cs[1..], p);
      EarnedAdds(p, n.lastRefill - b.lastRefill, e.lastRefill - n.lastRefill);
      assert n.lastRefill - b.lastRefill + (e.lastRefill - n.lastRefill) == e.lastRefill - b.lastRefill;
    }
  }

  /** Over any calls, at any clock readings, backwards ones included: tokens stay in range, lastRefill is the latest
      reading, and what is spent, left and lost at the cap is what was there and what the advance of lastRefill
      earned. */
  lemma TokensAreConserved(b: Level, cs: seq<Call>, p: Policy)
    requires p.Sensible() && InRange(b, p) && Costs(cs)
    ensures InRange(Run(b, cs, p), p) && Wasted(b, cs, p) >= 0.0
    ensures Run(b, cs, p).lastRefill == Latest(b.lastRefill, cs) >= b.lastRefill
    ensures Spent(b, cs, p) + Run(b, cs, p).tokens + Wasted(b, cs, p)
         == b.tokens + p.refillPerSecond * (Latest(b.lastRefill, cs) - b.lastRefill) / 1000.0
  {
    BalanceOverCalls(b, cs, p);
    var advance := Latest(b.lastRefill, cs) - b.lastRefill;
    assert p.Earned(advance) == p.refillPerSecond * advance / 1000.0 by {
      EarnedMeaning(p, advance);
    }
  }

  /** What is spent never exceeds the capacity and what the advance of lastRefill earns at the refill rate. */
  lemma SpendingIsBounded(b: Level, cs: seq<Call>, p: Policy)
    requires p.Sensible() && InRange(b, p) && Costs(cs)
    ensures InRange(Run(b, cs, p), p) && Run(b, cs, p).lastRefill == Latest(b.lastRefill, cs)
    ensures Spent(b, cs, p)
         <= p.capacity + p.refillPerSecond * (Latest(b.lastRefill, cs) - b.lastRefill) / 1000.0
  {
    TokensAreConserved(b, cs, p);
  }

  // ---------- what a bucket must admit ----------

  function TotalCost(cs: seq<Call>): real
    decreases |cs|
  {
    if cs == [] then 0.0 else cs[0].cost + TotalCost(cs[1..])
  }

  lemma {:induction false} TotalCostIsNonNegative(cs: seq<Call>)
    requires Costs(cs)
    ensures TotalCost(cs) >= 0.0
    decreases |cs|
  {
    if cs == [] {
    } else {
      TotalCostIsNonNegative(cs[1..]);
    }
  }

  /** At any clock readings, calls that cost no more than the tokens there are, taken together, are all admitted; so a
      full bucket admits any burst up to its capacity. */
  lemma {:induction false} AffordableCallsAreAdmitted(b: Level, cs: seq<Call>, p: Policy)
    requires p.Sensible() && InRange(b, p) && Costs(cs)
    requires TotalCost(cs) <= b.tokens
    ensures forall i :: 0 <= i < |cs| ==> Results(b, cs, p)[i]
    ensures Spent(b, cs, p) == TotalCost(cs)
    decreases |cs|
  {
    if cs == [] {
    } else {
      TotalCostIsNonNegative(cs[1..]);
      CallBalances(b, cs[0], p);
      RefillOnlyAdds(b, cs[0].now, p);
      AffordableCallsAreAdmitted(Next(b, cs[0], p), cs[1..], p);
    }
  }

  lemma RefillOnlyAdds(b: Level, now: real, p: Policy)
    requires p.Sensible() && InRange(b, p)
    ensures Refill(b, now, p).tokens >= b.tokens
  {
    if b.lastRefill < now {
      EarnedIsNonNegative(p, now - b.lastRefill);
    }
  }

  predicate NoneAfter(cs: seq<Call>, reading: real) {
    forall c :: c in cs ==> c.now <= reading
  }

  /** While the clock has not passed lastRefill, tokens are only spent: what is left and what was spent is what was
      there, and a call is admitted exactly when its cost and what was spent fit in that. */
  lemma {:induction false} WithoutRefillsTokensAreSpent(b: Level, cs: seq<Call>, c: Call, p: Policy)
    requires p.Sensible() && InRange(b, p) && Costs(cs) && NoneAfter(cs + [c], b.lastRefill)
    ensures Run(b, cs, p).tokens + Spent(b, cs, p) == b.tokens && Run(b, cs, p).lastRefill == b.lastRefill
    ensures Admits(Run(b, cs, p), c, p) <==> Spent(b, cs, p) + c.cost <= b.tokens
    decreases |cs|
  {
    assert c in cs + [c];
    if cs == [] {
    } else {
      assert cs[0] in cs + [c];
      CallBalances(b, cs[0], p);
      forall d | d in cs[1..] + [c] ensures d in cs + [c] {
      }
      WithoutRefillsTokensAreSpent(Next(b, cs[0], p), cs[1..], c, p);
    }
  }

  // ---------- rejected calls leave no trace ----------

  predicate Forward(cs: seq<Call>) {
    forall i, j :: 0 <= i < j < |cs| ==> cs[i].now <= cs[j].now
  }

  /** No call of the schedule is both earlier and cheaper than c. */
  predicate NotUndercut(c: Call, rest: seq<Call>) {
    forall d :: d in rest ==> c.now <= d.now || c.cost <= d.cost
  }

  /** Refilling on the way changes nothing: two refills equal the later one. */
  lemma RefillTwice(b: Level, early: real, late: real, p: Policy)
    requires p.Sensible() && early <= late
    ensures Refill(Refill(b, early, p), late, p) == Refill(b, late, p)
  {
    if b.lastRefill < early {
      EarnedAdds(p, early - b.lastRefill, late - early);
      EarnedIsNonNegative(p, late - early);
      assert early - b.lastRefill + (late - early) == late - b.lastRefill;
    }
  }

  /** Exactly: unless the first refill happened and the second reading is before it. */
  lemma RefillTwiceIff(b: Level, first: real, second: real, p: Policy)
    requires p.Sensible()
    ensures Refill(Refill(b, first, p), second, p) == Refill(b, second, p) <==> first <= second || first <= b.lastRefill
  {
    if first <= second {
      RefillTwice(b, first, second, p);
    }
  }

  lemma LaterRefillHasMore(b: Level, early: real, late: real, p: Policy)
    requires p.Sensible() && early <= late && b.tokens <= p.capacity
    ensures Refill(b, early, p).tokens <= Refill(b, late, p).tokens
  {
    RefillTwice(b, early, late, p);
    if b.lastRefill < late {
      EarnedIsNonNegative(p, late - Refill(b, early, p).lastRefill);
    }
  }

  /** What follows a rejected call does not notice it, unless a call is both earlier and cheaper. */
  lemma {:induction false} AfterRejection(b: Level, c: Call, rest: seq<Call>, p: Policy)
    requires p.Sensible() && !Admits(b, c, p) && NotUndercut(c, rest)
    requires b.tokens <= p.capacity || forall d :: d in rest ==> c.now <= d.now
    ensures Results(Next(b, c, p), rest, p) == Results(b, rest, p)
    ensures Spent(Next(b, c, p), rest, p) == Spent(b, rest, p)
    decreases |rest|
  {
    if rest == [] {
    } else {
      var d := rest[0];
      if c.now <= d.now {
        RefillTwice(b, c.now, d.now, p);
      } else if b.lastRefill < c.now {
        LaterRefillHasMore(b, d.now, c.now, p);
        RefillTwice(b, d.now, c.now, p);
        assert !Admits(b, d, p) && !Admits(Next(b, c, p), d, p);
        assert Next(Next(b, d, p), c, p) == Next(b, c, p);
        AfterRejection(Next(b, d, p), c, rest[1..], p);
      }
    }
  }

  lemma {:induction false} RunAppend(b: Level, cs: seq<Call>, ds: seq<Call>, p: Policy)
    ensures Run(b, cs + ds, p) == Run(Run(b, cs, p), ds, p)
    ensures Results(b, cs + ds, p) == Results(b, cs, p) + Results(Run(b, cs, p), ds, p)
    decreases |cs|
  {
    if cs == [] {
      assert cs + ds == ds;
    } else {
      RunAppend(Next(b, cs[0], p), cs[1..], ds, p);
      assert (cs + ds)[1..] == cs[1..] + ds;
    }
  }

  /** The results of a schedule, without those of the call at index k. */
  function WithoutResult(results: seq<bool>, k: nat): seq<bool>
    requires k < |results|
  {
    results[..k] + results[k + 1..]
  }

  lemma DropMiddle(a: seq<bool>, x: bool, b: seq<bool>)
    ensures WithoutResult(a + ([x] + b), |a|) == a + b && (a + ([x] + b))[|a|] == x
  {
  }

  lemma InsertedRejection(b: Level, before: seq<Call>, c: Call, after: seq<Call>, p: Policy)
    requires !Admits(Run(b, before, p), c, p)
    requires Results(Next(Run(b, before, p), c, p), after, p) == Results(Run(b, before, p), after, p)
    ensures WithoutResult(Results(b, before + [c] + after, p), |before|) == Results(b, before + after, p)
    ensures !Results(b, before + [c] + after, p)[|before|]
  {
    var s := Run(b, before, p);
    assert before + [c] + after == before + ([c] + after);
    RunAppend(b, before, [c] + after, p);
    RunAppend(b, before, after, p);
    assert ([c] + after)[1..] == after;
    assert Results(s, [c] + after, p) == [false] + Results(s, after, p);
    DropMiddle(Results(b, before, p), false, Results(s, after, p));
  }

  /** With a clock that does not run backwards, inserting or deleting a rejected call changes no other result. */
  lemma RejectedCallIsInvisible(b: Level, before: seq<Call>, c: Call, after: seq<Call>, p: Policy)
    requires p.Sensible() && Forward(before + [c] + after)
    requires !Admits(Run(b, before, p), c, p)
    ensures WithoutResult(Results(b, before + [c] + after, p), |before|) == Results(b, before + after, p)
    ensures !Results(b, before + [c] + after, p)[|before|]
  {
    var all := before + [c] + after;
    forall d | d in after ensures c.now <= d.now {
      var i :| 0 <= i < |after| && after[i] == d;
      assert all[|before|] == c && all[|before| + 1 + i] == d;
    }
    AfterRejection(Run(b, before, p), c, after, p);
    InsertedRejection(b, before, c, after, p);
  }

  /** At any clock readings, backwards ones included, the same holds if no later call is both earlier and cheaper. */
  lemma {:induction false} RejectionInvisibleUnlessUndercut(b: Level, before: seq<Call>, c: Call, after: seq<Call>,
                                                            p: Policy)
    requires p.Sensible() && InRange(b, p) && Costs(before) && NotUndercut(c, after)
    requires !Admits(Run(b, before, p), c, p)
    ensures WithoutResult(Results(b, before + [c] + after, p), |before|) == Results(b, before + after, p)
    ensures !Results(b, before + [c] + after, p)[|before|]
  {
    SpendingIsBounded(b, before, p);
    AfterRejection(Run(b, before, p), c, after, p);
    InsertedRejection(b, before, c, after, p);
  }

  /** When every call costs the same, as every request to the server does, the clock does not matter. */
  lemma UniformRejectionInvisible(b: Level, before: seq<Call>, c: Call, after: seq<Call>, p: Policy)
    requires p.Sensible() && InRange(b, p) && c.cost >= 0.0
    requires forall d :: d in before + after ==> d.cost == c.cost
    requires !Admits(Run(b, before, p), c, p)
    ensures WithoutResult(Results(b, before + [c] + after, p), |before|) == Results(b, before + after, p)
    ensures !Results(b, before + [c] + after, p)[|before|]
  {
    forall d | d in before || d in after ensures d in before + after {
    }
    RejectionInvisibleUnlessUndercut(b, before, c, after, p);
  }

  // ---------- exactly when a rejection can be noticed ----------

  /** Where refills add nothing, only the tokens matter. */
  lemma {:induction false} WithoutRefillsOnlyTokensMatter(x: Level, y: Level, rest: seq<Call>, p: Policy)
    requires p.Sensible() && InRange(x, p) && x.tokens == y.tokens && Costs(rest)
    requires p.refillPerSecond == 0.0 || p.capacity == 0.0
    ensures Results(x, rest, p) == Results(y, rest, p)
    decreases |rest|
  {
    if rest == [] {
    } else {
      RefillAddsNothing(x, rest[0].now, p);
      RefillAddsNothing(y, rest[0].now, p);
      WithoutRefillsOnlyTokensMatter(Next(x, rest[0], p), Next(y, rest[0], p), rest[1..], p);
    }
  }

  lemma RefillAddsNothing(b: Level, now: real, p: Policy)
    requires p.Sensible() && InRange(b, p) && (p.refillPerSecond == 0.0 || p.capacity == 0.0)
    ensures Refill(b, now, p).tokens == b.tokens
  {
    if b.lastRefill < now {
      EarnedIsNonNegative(p, now - b.lastRefill);
    }
  }

  lemma EarnedIsPositive(p: Policy, a: real)
    requires p.Sensible() && p.refillPerSecond > 0.0 && a > 0.0
    ensures p.Earned(a) > 0.0
  {
    var s := a / 1000.0;
    assert s > 0.0;
  }

  /** Calls that come out differently after the bucket has been refilled up to `now` than before. */
  function Tell(b: Level, now: real, p: Policy): (rest: seq<Call>) {
    if b.tokens < p.capacity then [Call(b.lastRefill, Refill(b, now, p).tokens)]
    else [Call(b.lastRefill, p.capacity), Call(now, Refill(Level(0.0, b.lastRefill), now, p).tokens)]
  }

  lemma TellTells(b: Level, now: real, p: Policy)
    requires p.Sensible() && InRange(b, p) && b.lastRefill < now && p.refillPerSecond > 0.0 && p.capacity > 0.0
    ensures Costs(Tell(b, now, p))
    ensures Results(Refill(b, now, p), Tell(b, now, p), p) != Results(b, Tell(b, now, p), p)
  {
    EarnedIsPositive(p, now - b.lastRefill);
    var y, rest := Refill(b, now, p), Tell(b, now, p);
    if b.tokens < p.capacity {
      assert Results(b, rest, p)[0] == false && Results(y, rest, p)[0] == true;
    } else {
      assert Next(b, rest[0], p) == Level(0.0, b.lastRefill) && Next(y, rest[0], p) == Level(0.0, now);
      assert rest[1..] == [rest[1]];
      assert Results(b, rest, p)[1] == true && Results(y, rest, p)[1] == false;
    }
  }

  /** A rejected call is invisible to every schedule that may follow exactly when it did not refill the bucket: the
      clock read no later than the last refill, or there is nothing to refill. */
  lemma InvisibleToAllIff(b: Level, c: Call, p: Policy)
    requires p.Sensible() && InRange(b, p) && !Admits(b, c, p)
    ensures (forall rest :: Costs(rest) ==> Results(Next(b, c, p), rest, p) == Results(b, rest, p)) <==>
            c.now <= b.lastRefill || p.refillPerSecond == 0.0 || p.capacity == 0.0
  {
    if b.lastRefill < c.now {
      if p.refillPerSecond == 0.0 || p.capacity == 0.0 {
        RefillAddsNothing(b, c.now, p);
        forall rest | Costs(rest) ensures Results(Next(b, c, p), rest, p) == Results(b, rest, p) {
          WithoutRefillsOnlyTokensMatter(Next(b, c, p), b, rest, p);
        }
      } else {
        TellTells(b, c.now, p);
      }
    }
  }

  // ---------- schedules without their rejections ----------

  /** The calls of a schedule that were admitted. */
  function Admitted(b: Level, cs: seq<Call>, p: Policy): seq<Call>
    decreases |cs|
  {
    if cs == [] then []
    else (if Admits(b, cs[0], p) then [cs[0]] else []) + Admitted(Next(b, cs[0], p), cs[1..], p)
  }

  /** No call of the schedule is both earlier and cheaper than one before it. */
  predicate NoUndercuts(cs: seq<Call>) {
    forall i, j :: 0 <= i < j < |cs| ==> cs[i].now <= cs[j].now || cs[i].cost <= cs[j].cost
  }

  /** Nothing after a call of the schedule can notice its rejection. */
  predicate Unnoticed(b: Level, cs: seq<Call>, p: Policy) {
    Forward(cs) || (NoUndercuts(cs) && InRange(b, p) && Costs(cs))
  }

  lemma UnnoticedTail(b: Level, cs: seq<Call>, p: Policy)
    requires p.Sensible() && cs != [] && Unnoticed(b, cs, p)
    ensures Unnoticed(Next(b, cs[0], p), cs[1..], p)
    ensures NotUndercut(cs[0], cs[1..])
    ensures b.tokens <= p.capacity || forall d :: d in cs[1..] ==> cs[0].now <= d.now
  {
    var tail := cs[1..];
    assert forall i :: 0 <= i < |tail| ==> tail[i] == cs[i + 1];
    if !Forward(cs) {
      CallBalances(b, cs[0], p);
    }
  }

  /** A schedule stripped of all its rejected calls is admitted in full and spends the same, if the clock does not run
      backwards, or no call is both earlier and cheaper than one before it. */
  lemma {:induction false} RejectionsCanBeStripped(b: Level, cs: seq<Call>, p: Policy)
    requires p.Sensible() && Unnoticed(b, cs, p)
    ensures forall c :: c in Admitted(b, cs, p) ==> c in cs
    ensures forall r :: r in Results(b, Admitted(b, cs, p), p) ==> r
    ensures Spent(b, Admitted(b, cs, p), p) == Spent(b, cs, p)
    decreases |cs|
  {
    if cs == [] {
    } else {
      var n := Next(b, cs[0], p);
      var rest, kept := Admitted(n, cs[1..], p), Admitted(b, cs, p);
      UnnoticedTail(b, cs, p);
      RejectionsCanBeStripped(n, cs[1..], p);
      assert forall c :: c in rest ==> c in cs[1..];
      if Admits(b, cs[0], p) {
        assert kept == [cs[0]] + rest && kept[1..] == rest;
      } else {
        assert kept == rest;
        AfterRejection(b, cs[0], rest, p);
      }
    }
  }

  /** When the clock runs backwards a rejected call can let a later, cheaper one through. */
  lemma BackwardsClockShowsRejection()
    ensures exists p: Policy, b: Level, c: Call, d: Call ::
              && p.Sensible() && InRange(b, p) && c.cost >= 0.0 && d.cost >= 0.0
              && !Admits(b, c, p) && d.now < c.now && d.cost < c.cost
              && Admits(Next(b, c, p), d, p) && !Admits(b, d, p)
  {
    var p := Policy(1.0, 1.0);
    var b := Level(0.0, 0.0);
    var c, d := Call(1000.0, 5.0), Call(0.0, 1.0);
    assert p.Earned(1000.0) == 1.0;
    assert Next(b, c, p) == Level(1.0, 1000.0);
    assert p.Sensible() && InRange(b, p) && !Admits(b, c, p) && Admits(Next(b, c, p), d, p) && !Admits(b, d, p);
  }
}

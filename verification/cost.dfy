/**
 * What the link-slot and cost assertions force on a solver model: slot 0
 * of a link is set exactly when no device is placed on it, and the total
 * cost is fixed by the placement and the OS choice.
 */
module Cost {
  import opened Arith
  import opened Constraints

  /** Whether some device 1..nDev is placed on link l. */
  ghost predicate Equipped(P: Params, A: Assignment, l: int)
  {
    exists d :: IsDevice(P, d) && A.devInLink(l, d)
  }

  /** A link's slot 0 (no device) is set exactly when no device is placed on it. */
  lemma BareIffUnequipped(P: Params, A: Assignment, l: int)
    requires LinkSlots(P, A) && IsLink(P, l)
    ensures A.devInLink(l, 0) <==> !Equipped(P, A, l)
  {
    if !Equipped(P, A, l) {
      var d :| 0 <= d <= P.nDev && A.devInLink(l, d);
      assert !(IsDevice(P, d) && A.devInLink(l, d));
    }
  }

  /** The cost of the device d on link l, from the placement. */
  function DeviceCostOn(P: Params, A: Assignment, l: int): int -> real
  {
    d => if A.devInLink(l, d) then DevCostAt(P, d) as real else 0.0
  }

  /** The cost of the devices on link l, from the placement. */
  function LinkCostOf(P: Params, A: Assignment, l: int): real
  {
    SumExcept(1, P.nDev, {}, DeviceCostOn(P, A, l))
  }

  /** The cost of each link. */
  function LinkCostTerms(P: Params, A: Assignment): int -> real
  {
    l => LinkCostOf(P, A, l)
  }

  /** The OS cost of each host, from the OS choice. */
  function OSCostTerms(P: Params, A: Assignment): int -> real
  {
    i => OSCostAt(P, A.hOS(i)) as real
  }

  /** The total cost, from the placement and the OS choice. */
  function CostOf(P: Params, A: Assignment): real
  {
    SumExcept(1, P.nLink, {}, LinkCostTerms(P, A)) + SumExcept(1, P.nHost, {}, OSCostTerms(P, A))
  }

  /** A model's cost of a link is the cost of the devices placed on it. */
  lemma LinkCostDetermined(P: Params, A: Assignment, l: int)
    requires Costs(P, A) && IsLink(P, l)
    ensures LinkCost(P, A, l) == LinkCostOf(P, A, l)
  {
    SumExceptCongruent(1, P.nDev, {}, d => A.linkDevCost(l, d), DeviceCostOn(P, A, l));
  }

  /** A model's OS costs are those of the chosen OS. */
  lemma OSCostDetermined(P: Params, A: Assignment)
    requires OSChoice(P, A) && Costs(P, A)
    ensures SumExcept(1, P.nHost, {}, i => A.hOSCost(i)) == SumExcept(1, P.nHost, {}, OSCostTerms(P, A))
  {
    SumExceptCongruent(1, P.nHost, {}, i => A.hOSCost(i), OSCostTerms(P, A));
  }

  /** The cost of a model is fixed by its placement and OS choice. */
  lemma CostDetermined(P: Params, A: Assignment)
    requires CostModel(P, A) && OSChoice(P, A)
    ensures A.cost == CostOf(P, A)
  {
    forall l | 1 <= l <= P.nLink && l !in {}
      ensures LinkCost(P, A, l) == LinkCostTerms(P, A)(l)
    {
      LinkCostDetermined(P, A, l);
    }
    SumExceptCongruent(1, P.nLink, {}, l => LinkCost(P, A, l), LinkCostTerms(P, A));
    OSCostDetermined(P, A);
  }

  /** A link whose slot 0 is set costs nothing. */
  lemma BareLinkFree(P: Params, A: Assignment, l: int)
    requires LinkSlots(P, A) && IsLink(P, l)
    requires A.devInLink(l, 0)
    ensures LinkCostOf(P, A, l) == 0.0
  {
    forall d | 1 <= d <= P.nDev && d !in {}
      ensures DeviceCostOn(P, A, l)(d) == 0.0
    {
      assert !A.devInLink(l, d);
    }
    SumExceptZero(1, P.nDev, {}, DeviceCostOn(P, A, l));
  }

  /** With no negative device cost, no link costs less than nothing. */
  lemma LinkCostNonNegative(P: Params, A: Assignment, l: int)
    requires forall k :: 0 <= k < |P.devCost| ==> P.devCost[k] >= 0
    ensures 0.0 <= LinkCostOf(P, A, l)
  {
    forall d | 1 <= d <= P.nDev && d !in {}
      ensures 0.0 <= DeviceCostOn(P, A, l)(d)
    {
      assert DevCostAt(P, d) >= 0 by {
        if 0 <= d - 1 < |P.devCost| {
          assert P.devCost[d - 1] >= 0;
        }
      }
    }
    SumExceptNonNegative(1, P.nDev, {}, DeviceCostOn(P, A, l));
  }

  /** With no negative device cost, the OS choice alone is a lower bound of the cost. */
  lemma OSCostLowerBound(P: Params, A: Assignment)
    requires forall k :: 0 <= k < |P.devCost| ==> P.devCost[k] >= 0
    ensures SumExcept(1, P.nHost, {}, OSCostTerms(P, A)) <= CostOf(P, A)
  {
    forall l | 1 <= l <= P.nLink && l !in {}
      ensures 0.0 <= LinkCostTerms(P, A)(l)
    {
      LinkCostNonNegative(P, A, l);
    }
    SumExceptNonNegative(1, P.nLink, {}, LinkCostTerms(P, A));
  }

  /** Any solver model keeps to the budget, and so does the cost of its decisions. */
  lemma WithinBudget(P: Params, A: Assignment)
    requires ValidParams(P) && Satisfies(P, A)
    ensures CostOf(P, A) <= P.cCost as real
  {
    CostDetermined(P, A);
  }

  /** The position of a cheapest entry of s (the first one). */
  function Cheapest(s: seq<int>): (k: nat)
    requires |s| > 0
    ensures k < |s| && forall x :: 0 <= x < |s| ==> s[k] <= s[x]
  {
    if |s| == 1 then 0
    else
      var k := Cheapest(s[1..]);
      if s[0] <= s[k + 1] then 0 else k + 1
  }

  /** The cost of the cheapest OS of the catalogue. */
  function MinOSCost(P: Params): int
    requires |P.osCost| > 0
  {
    P.osCost[Cheapest(P.osCost)]
  }

  /**
   * With no negative device cost, every host's OS cost brings the total to
   * at least nHost times the cheapest OS cost.
   */
  lemma CostAtLeastCheapest(P: Params, A: Assignment)
    requires |P.osCost| == P.nOS > 0 && OSChoice(P, A)
    requires forall k :: 0 <= k < |P.devCost| ==> P.devCost[k] >= 0
    ensures CostOf(P, A) >= MinOSCost(P) as real * P.nHost as real
  {
    var m := MinOSCost(P) as real;
    forall i | 1 <= i <= P.nHost && i !in {}
      ensures Constant(m)(i) <= OSCostTerms(P, A)(i)
    {
      assert IsHost(P, i);
    }
    SumExceptMonotone(1, P.nHost, {}, Constant(m), OSCostTerms(P, A));
    CheapestSum(P);
    OSCostLowerBound(P, A);
  }

  /** nHost hosts on a cheapest OS cost nHost times the cheapest OS cost. */
  lemma CheapestSum(P: Params)
    requires |P.osCost| > 0
    ensures SumExcept(1, P.nHost, {}, Constant(MinOSCost(P) as real)) == MinOSCost(P) as real * P.nHost as real
  {
    SumOfConstant(1, P.nHost, {}, MinOSCost(P) as real);
    CountAll(1, P.nHost);
    assert CountExcept(1, P.nHost, {}) == P.nHost;
  }

  /**
   * The bare configuration, no device on any link and every host on a
   * cheapest OS, reaches that bound: it costs exactly nHost times the
   * cheapest OS cost.
   */
  lemma BareCheapestCost(P: Params, A: Assignment)
    requires |P.osCost| > 0
    requires forall l, d :: IsLink(P, l) && IsDevice(P, d) ==> !A.devInLink(l, d)
    requires forall i :: IsHost(P, i) ==> OSCostAt(P, A.hOS(i)) == MinOSCost(P)
    ensures CostOf(P, A) == MinOSCost(P) as real * P.nHost as real
  {
    var m := MinOSCost(P) as real;
    forall l | 1 <= l <= P.nLink && l !in {}
      ensures LinkCostTerms(P, A)(l) == 0.0
    {
      forall d | 1 <= d <= P.nDev && d !in {}
        ensures DeviceCostOn(P, A, l)(d) == 0.0
      {
        assert IsLink(P, l) && IsDevice(P, d);
      }
      SumExceptZero(1, P.nDev, {}, DeviceCostOn(P, A, l));
    }
    SumExceptZero(1, P.nLink, {}, LinkCostTerms(P, A));
    forall i | 1 <= i <= P.nHost && i !in {}
      ensures OSCostTerms(P, A)(i) == Constant(m)(i)
    {
      assert IsHost(P, i);
    }
    SumExceptCongruent(1, P.nHost, {}, OSCostTerms(P, A), Constant(m));
    CheapestSum(P);
  }
}

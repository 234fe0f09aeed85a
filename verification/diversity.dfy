/**
 * The six diversity guards cover every reachable flow exactly once, so a
 * solver model gives each reachable flow the diversity of its one case.
 */
module DiversityCases {
  import opened Constraints

  /**
   * The diversity case of the flow i -> j, independent of the guards:
   * same OS (5, 6), same family but another OS (3, 4), another family
   * (1, 2); the higher of each pair when the hosts share a service.
   */
  ghost function DivCase(P: Params, A: Assignment, i: int, j: int): (c: int)
    ensures 1 <= c <= DIV_LEVEL
    ensures (c % 2 == 0) == SharedService(P, A, i, j)
  {
    var step := if SharedService(P, A, i, j) then 1 else 0;
    if A.hOS(i) == A.hOS(j) then 5 + step
    else if A.hOSFamily(i) == A.hOSFamily(j) then 3 + step
    else 1 + step
  }

  /** Hosts that run the same OS are of the same family. */
  lemma SameOSSameFamily(P: Params, A: Assignment, i: int, j: int)
    requires OSChoice(P, A)
    requires IsHost(P, i) && IsHost(P, j)
    requires A.hOS(i) == A.hOS(j)
    ensures A.hOSFamily(i) == A.hOSFamily(j)
  {
    var o := A.hOS(i);
    assert 1 <= o <= P.nOS;
    assert A.hOSFamily(i) == OSFamilyAt(P, o);
    assert A.hOSFamily(j) == OSFamilyAt(P, o);
  }

  /**
   * Once every host has the family of its OS, guard c holds for a flow
   * exactly when the flow is reachable and c is its case: the guards are
   * exhaustive and pairwise exclusive.
   */
  lemma GuardIffCase(P: Params, A: Assignment, i: int, j: int, c: int)
    requires OSChoice(P, A)
    requires IsHost(P, i) && IsHost(P, j)
    ensures Guard(P, A, i, j, c) <==> A.reachable(i, j) && c == DivCase(P, A, i, j)
  {
    if A.hOS(i) == A.hOS(j) {
      SameOSSameFamily(P, A, i, j);
    }
  }

  /**
   * Without the OS-family link the guards overlap: two hosts with the same
   * OS but different recorded families meet guards 1 and 5 at once.
   */
  lemma GuardsOverlapWithoutFamilies(P: Params, A: Assignment, i: int, j: int)
    requires A.reachable(i, j) && !SharedService(P, A, i, j)
    requires A.hOS(i) == A.hOS(j) && A.hOSFamily(i) != A.hOSFamily(j)
    ensures Guard(P, A, i, j, 1) && Guard(P, A, i, j, 5)
  {
  }

  /** A solver model gives each reachable flow the diversity of its case. */
  lemma FlowDiversity(P: Params, A: Assignment, i: int, j: int)
    requires DiversityModel(P, A)
    requires IsHost(P, i) && IsHost(P, j) && i != j
    requires A.reachable(i, j)
    ensures A.flowDiv(i, j) == At(P.divTable, DivCase(P, A, i, j) - 1) as real
  {
    var c := DivCase(P, A, i, j);
    GuardIffCase(P, A, i, j, c);
    assert Guard(P, A, i, j, c);
  }

  /** With the diversity table within [0, maxDiversity], so is every reachable flow's diversity. */
  lemma FlowDiversityBounds(P: Params, A: Assignment, i: int, j: int)
    requires DiversityModel(P, A)
    requires |P.divTable| == DIV_LEVEL
    requires forall c :: 0 <= c < DIV_LEVEL ==> 0 <= P.divTable[c] <= P.maxDiversity
    requires IsHost(P, i) && IsHost(P, j) && i != j
    requires A.reachable(i, j)
    ensures 0.0 <= A.flowDiv(i, j) <= P.maxDiversity as real
  {
    FlowDiversity(P, A, i, j);
  }
}

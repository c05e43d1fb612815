/** Day 7 (src/d07.rs): the cheapest position for the crabs to line up on. */
module D07 {
  import opened Common
  import opened Text
  import opened Seqs

  /** `Crabs::from_str`'s loop as a function: every comma-separated piece must be an `i32`. */
  function ParsePositions(pieces: seq<string>): (r: Result<seq<int>, string>)
    ensures r.Ok? <==> forall k :: 0 <= k < |pieces| ==> ParseI32(pieces[k]).Some?
    ensures r.Ok? ==> |r.value| == |pieces| && forall k :: 0 <= k < |pieces| ==> r.value[k] == ParseI32(pieces[k]).value
    ensures r.Err? ==> r.error == "Invalid number"
    decreases |pieces|
  {
    if pieces == [] then Ok([])
    else
      var init := pieces[..|pieces| - 1];
      assert forall k :: 0 <= k < |init| ==> init[k] == pieces[k];
      match ParsePositions(init)
      case Err(e) => Err(e)
      case Ok(ns) =>
        match ParseI32(pieces[|pieces| - 1])
        case None => Err("Invalid number")
        case Some(n) => Ok(ns + [n])
  }

  lemma ParsePositionsErrExtends(pieces: seq<string>, i: nat)
    requires i <= |pieces| && ParsePositions(pieces[..i]).Err?
    ensures ParsePositions(pieces).Err?
  {
    var k :| 0 <= k < i && ParseI32(pieces[..i][k]).None?;
    assert pieces[..i][k] == pieces[k];
  }

  /** `Crabs::from_str`. */
  method ParseCrabs(data: string) returns (r: Result<seq<int>, string>)
    ensures r == ParsePositions(Split(data, ','))
  {
    var pieces := Split(data, ',');
    var output: seq<int> := [];
    for k := 0 to |pieces|
      invariant ParsePositions(pieces[..k]) == Ok(output)
    {
      assert pieces[..k + 1][..k] == pieces[..k];
      match ParseI32(pieces[k])
      case None =>
        ParsePositionsErrExtends(pieces, k + 1);
        return Err("Invalid number");
      case Some(n) =>
        output := output + [n];
    }
    assert pieces[..|pieces|] == pieces;
    return Ok(output);
  }

  /** The two prices of moving a crab, as passed to `calculate_fuel_cost` by the solutions:
      one unit of fuel per step, and one more per step than the step before. */
  function LinearCost(distance: nat): int { distance }

  function TriangularCost(distance: nat): int { distance * (distance + 1) / 2 }

  /** `1 + 2 + ... + n`, the sum the triangular price stands for. */
  function StepsSum(n: nat): nat {
    if n == 0 then 0 else StepsSum(n - 1) + n
  }

  lemma {:induction false} TriangularIsStepsSum(n: nat)
    ensures TriangularCost(n) == StepsSum(n)
  {
    if n > 0 {
      TriangularIsStepsSum(n - 1);
      assert n * (n + 1) == (n - 1) * n + 2 * n;
    }
  }

  function Abs(x: int): nat { if x < 0 then -x else x }

  /** The fold of `calculate_fuel_cost` at one candidate position. */
  function Cost(crabs: seq<int>, position: int, distanceToCost: nat -> int): int {
    SumBy(crabs, c => distanceToCost(Abs(c - position)))
  }

  function Lowest(s: seq<int>): (r: int)
    requires |s| > 0
    ensures r in s && forall k :: 0 <= k < |s| ==> r <= s[k]
    decreases |s|
  {
    if |s| == 1 then s[0] else Min(Lowest(s[..|s| - 1]), s[|s| - 1])
  }

  function Highest(s: seq<int>): (r: int)
    requires |s| > 0
    ensures r in s && forall k :: 0 <= k < |s| ==> s[k] <= r
    decreases |s|
  {
    if |s| == 1 then s[0] else Max(Highest(s[..|s| - 1]), s[|s| - 1])
  }

  /** The candidate range `min_position..max_position`; an empty list falls back on `i32::MIN`
      and `i32::MAX`. */
  function FirstCandidate(crabs: seq<int>): int {
    if |crabs| == 0 then I32_MIN else Lowest(crabs)
  }

  function CandidateEnd(crabs: seq<int>): int {
    if |crabs| == 0 then I32_MAX else Highest(crabs)
  }

  /** `calculate_fuel_cost`: the least cost over the candidates from the lowest position up to,
      but not including, the highest, capped at `i32::MAX`. */
  method CalculateFuelCost(crabs: seq<int>, distanceToCost: nat -> int) returns (target: int)
    ensures target <= I32_MAX
    ensures forall p :: FirstCandidate(crabs) <= p < CandidateEnd(crabs) ==> target <= Cost(crabs, p, distanceToCost)
    ensures target == I32_MAX
         || exists p :: FirstCandidate(crabs) <= p < CandidateEnd(crabs) && target == Cost(crabs, p, distanceToCost)
    ensures FirstCandidate(crabs) == CandidateEnd(crabs) ==> target == I32_MAX
    ensures |crabs| == 0 ==> target == 0
  {
    var minPosition := if |crabs| == 0 then I32_MIN else Lowest(crabs);
    var maxPosition := if |crabs| == 0 then I32_MAX else Highest(crabs);
    assert |crabs| > 0 ==> crabs[0] in crabs;
    target := I32_MAX;
    for nextPosition := minPosition to maxPosition
      invariant target <= I32_MAX
      invariant forall p :: minPosition <= p < nextPosition ==> target <= Cost(crabs, p, distanceToCost)
      invariant target == I32_MAX || exists p :: minPosition <= p < nextPosition && target == Cost(crabs, p, distanceToCost)
    {
      var cost := Cost(crabs, nextPosition, distanceToCost);
      if cost < target {
        target := cost;
      }
    }
    if |crabs| == 0 {
      assert minPosition <= I32_MIN < maxPosition;
      assert Cost(crabs, I32_MIN, distanceToCost) == 0;
    }
  }

  // ---------------------------------------------------------------- the left-out last candidate

  /** The exclusive scan never tries the highest position. With crabs at 0, 5 and 5 and one fuel
      per step, position 5 costs 5 while every position the scan visits costs at least 6. */
  lemma ExclusiveScanMissesOptimum()
    ensures FirstCandidate([0, 5, 5]) == 0 && CandidateEnd([0, 5, 5]) == 5
    ensures Cost([0, 5, 5], 5, LinearCost) == 5
    ensures forall p :: FirstCandidate([0, 5, 5]) <= p < CandidateEnd([0, 5, 5]) ==> Cost([0, 5, 5], p, LinearCost) >= 6
  {
    assert FirstCandidate([0, 5, 5]) == 0 && CandidateEnd([0, 5, 5]) == 5;
    forall p | 0 <= p <= 5
      ensures Cost([0, 5, 5], p, LinearCost) == 10 - p
    {
      CostSnoc([], 0, p, LinearCost);
      assert [] + [0] == [0];
      CostSnoc([0], 5, p, LinearCost);
      assert [0] + [5] == [0, 5];
      CostSnoc([0, 5], 5, p, LinearCost);
      assert [0, 5] + [5] == [0, 5, 5];
    }
  }

  /** A price that never falls as the distance grows, as both prices of the solutions are. */
  ghost predicate Monotone(distanceToCost: nat -> int) {
    forall a: nat, b: nat :: a <= b ==> distanceToCost(a) <= distanceToCost(b)
  }

  lemma PricesMonotone()
    ensures Monotone(LinearCost) && Monotone(TriangularCost)
  {
    forall a: nat, b: nat | a <= b
      ensures TriangularCost(a) <= TriangularCost(b)
    {
      TriangularIsStepsSum(a);
      TriangularIsStepsSum(b);
      StepsSumMonotone(a, b);
    }
  }

  lemma {:induction false} StepsSumMonotone(a: nat, b: nat)
    requires a <= b
    ensures StepsSum(a) <= StepsSum(b)
    decreases b
  {
    if a < b {
      StepsSumMonotone(a, b - 1);
    }
  }

  /** A position at least as close to every crab costs no more. */
  lemma {:induction false} CostDominated(crabs: seq<int>, p: int, q: int, distanceToCost: nat -> int)
    requires Monotone(distanceToCost)
    requires forall k :: 0 <= k < |crabs| ==> Abs(crabs[k] - q) <= Abs(crabs[k] - p)
    ensures Cost(crabs, q, distanceToCost) <= Cost(crabs, p, distanceToCost)
    decreases |crabs|
  {
    if crabs != [] {
      var n := |crabs|;
      var init := crabs[..n - 1];
      assert crabs == init + [crabs[n - 1]];
      assert forall k :: 0 <= k < |init| ==> init[k] == crabs[k];
      CostDominated(init, p, q, distanceToCost);
      CostSnoc(init, crabs[n - 1], p, distanceToCost);
      CostSnoc(init, crabs[n - 1], q, distanceToCost);
    }
  }

  /** Below the lowest crab or above the highest, moving towards the crabs never costs more. */
  lemma OutsideCostsMore(crabs: seq<int>, p: int, distanceToCost: nat -> int)
    requires Monotone(distanceToCost) && |crabs| > 0
    ensures p < Lowest(crabs) ==> Cost(crabs, Lowest(crabs), distanceToCost) <= Cost(crabs, p, distanceToCost)
    ensures p > Highest(crabs) ==> Cost(crabs, Highest(crabs), distanceToCost) <= Cost(crabs, p, distanceToCost)
  {
    if p < Lowest(crabs) {
      CostDominated(crabs, p, Lowest(crabs), distanceToCost);
    }
    if p > Highest(crabs) {
      CostDominated(crabs, p, Highest(crabs), distanceToCost);
    }
  }

  /** The scan as evidently intended, `min_position..=max_position`. With a price that never
      falls, no position whatever costs less than its result. */
  method CalculateFuelCostInclusive(crabs: seq<int>, distanceToCost: nat -> int) returns (target: int)
    ensures target <= I32_MAX
    ensures forall p :: FirstCandidate(crabs) <= p <= CandidateEnd(crabs) ==> target <= Cost(crabs, p, distanceToCost)
    ensures target == I32_MAX
         || exists p :: FirstCandidate(crabs) <= p <= CandidateEnd(crabs) && target == Cost(crabs, p, distanceToCost)
    ensures Monotone(distanceToCost) ==> forall p :: target <= Cost(crabs, p, distanceToCost)
  {
    var minPosition := if |crabs| == 0 then I32_MIN else Lowest(crabs);
    var maxPosition := if |crabs| == 0 then I32_MAX else Highest(crabs);
    assert |crabs| > 0 ==> crabs[0] in crabs;
    target := I32_MAX;
    for nextPosition := minPosition to maxPosition + 1
      invariant target <= I32_MAX
      invariant forall p :: minPosition <= p < nextPosition ==> target <= Cost(crabs, p, distanceToCost)
      invariant target == I32_MAX || exists p :: minPosition <= p < nextPosition && target == Cost(crabs, p, distanceToCost)
    {
      var cost := Cost(crabs, nextPosition, distanceToCost);
      if cost < target {
        target := cost;
      }
    }
    if Monotone(distanceToCost) {
      if |crabs| == 0 {
        assert Cost(crabs, I32_MIN, distanceToCost) == 0;
      } else {
        forall p
          ensures target <= Cost(crabs, p, distanceToCost)
        {
          OutsideCostsMore(crabs, p, distanceToCost);
        }
      }
    }
  }

  // ---------------------------------------------------------------- properties

  /** The fold visits the crabs in list order, but the cost does not depend on that order. */
  lemma CostOrderFree(a: seq<int>, b: seq<int>, position: int, distanceToCost: nat -> int)
    requires multiset(a) == multiset(b)
    ensures Cost(a, position, distanceToCost) == Cost(b, position, distanceToCost)
  {
    SumByPermutation(a, b, c => distanceToCost(Abs(c - position)));
  }

  /** Adding a crab adds its own price to every candidate's cost. */
  lemma CostSnoc(crabs: seq<int>, c: int, position: int, distanceToCost: nat -> int)
    ensures Cost(crabs + [c], position, distanceToCost) == Cost(crabs, position, distanceToCost) + distanceToCost(Abs(c - position))
  {
    assert (crabs + [c])[..|crabs|] == crabs;
  }

  /** With the triangular price, moving a crab never costs less than with the linear one. */
  lemma {:induction false} TriangularAtLeastLinear(crabs: seq<int>, position: int)
    ensures Cost(crabs, position, TriangularCost) >= Cost(crabs, position, LinearCost)
    decreases |crabs|
  {
    if crabs != [] {
      var n := |crabs|;
      var init := crabs[..n - 1];
      assert crabs == init + [crabs[n - 1]];
      TriangularAtLeastLinear(init, position);
      CostSnoc(init, crabs[n - 1], position, TriangularCost);
      CostSnoc(init, crabs[n - 1], position, LinearCost);
      var d := Abs(crabs[n - 1] - position);
      assert d * (d + 1) >= 2 * d;
    }
  }

  /** The worked example: aligning 16,1,2,0,4,2,7,1,2,14 on 2 costs 37 at one fuel per step. */
  lemma ExampleLinear()
    ensures Cost([16, 1, 2, 0, 4, 2, 7, 1, 2, 14], 2, LinearCost) == 37
  {
    assert Cost([], 2, LinearCost) == 0;
    CostSnoc([], 16, 2, LinearCost);
    assert [] + [16] == [16];
    assert Cost([16], 2, LinearCost) == 14;
    CostSnoc([16], 1, 2, LinearCost);
    assert [16] + [1] == [16, 1];
    assert Cost([16, 1], 2, LinearCost) == 15;
    CostSnoc([16, 1], 2, 2, LinearCost);
    assert [16, 1] + [2] == [16, 1, 2];
    assert Cost([16, 1, 2], 2, LinearCost) == 15;
    CostSnoc([16, 1, 2], 0, 2, LinearCost);
    assert [16, 1, 2] + [0] == [16, 1, 2, 0];
    assert Cost([16, 1, 2, 0], 2, LinearCost) == 17;
    CostSnoc([16, 1, 2, 0], 4, 2, LinearCost);
    assert [16, 1, 2, 0] + [4] == [16, 1, 2, 0, 4];
    assert Cost([16, 1, 2, 0, 4], 2, LinearCost) == 19;
    CostSnoc([16, 1, 2, 0, 4], 2, 2, LinearCost);
    assert [16, 1, 2, 0, 4] + [2] == [16, 1, 2, 0, 4, 2];
    assert Cost([16, 1, 2, 0, 4, 2], 2, LinearCost) == 19;
    CostSnoc([16, 1, 2, 0, 4, 2], 7, 2, LinearCost);
    assert [16, 1, 2, 0, 4, 2] + [7] == [16, 1, 2, 0, 4, 2, 7];
    assert Cost([16, 1, 2, 0, 4, 2, 7], 2, LinearCost) == 24;
    CostSnoc([16, 1, 2, 0, 4, 2, 7], 1, 2, LinearCost);
    assert [16, 1, 2, 0, 4, 2, 7] + [1] == [16, 1, 2, 0, 4, 2, 7, 1];
    assert Cost([16, 1, 2, 0, 4, 2, 7, 1], 2, LinearCost) == 25;
    CostSnoc([16, 1, 2, 0, 4, 2, 7, 1], 2, 2, LinearCost);
    assert [16, 1, 2, 0, 4, 2, 7, 1] + [2] == [16, 1, 2, 0, 4, 2, 7, 1, 2];
    assert Cost([16, 1, 2, 0, 4, 2, 7, 1, 2], 2, LinearCost) == 25;
    CostSnoc([16, 1, 2, 0, 4, 2, 7, 1, 2], 14, 2, LinearCost);
    assert [16, 1, 2, 0, 4, 2, 7, 1, 2] + [14] == [16, 1, 2, 0, 4, 2, 7, 1, 2, 14];
    assert Cost([16, 1, 2, 0, 4, 2, 7, 1, 2, 14], 2, LinearCost) == 37;
  }

  /** The first five crabs aligned on 5 cost 98 at the rising price. */
  lemma ExampleTriangularFirstFive()
    ensures Cost([16, 1, 2, 0, 4], 5, TriangularCost) == 98
  {
    assert Cost([], 5, TriangularCost) == 0;
    CostSnoc([], 16, 5, TriangularCost);
    assert [] + [16] == [16];
    assert TriangularCost(11) == 66;
    assert Cost([16], 5, TriangularCost) == 66;
    CostSnoc([16], 1, 5, TriangularCost);
    assert [16] + [1] == [16, 1];
    assert TriangularCost(4) == 10;
    assert Cost([16, 1], 5, TriangularCost) == 76;
    CostSnoc([16, 1], 2, 5, TriangularCost);
    assert [16, 1] + [2] == [16, 1, 2];
    assert TriangularCost(3) == 6;
    assert Cost([16, 1, 2], 5, TriangularCost) == 82;
    CostSnoc([16, 1, 2], 0, 5, TriangularCost);
    assert [16, 1, 2] + [0] == [16, 1, 2, 0];
    assert TriangularCost(5) == 15;
    assert Cost([16, 1, 2, 0], 5, TriangularCost) == 97;
    CostSnoc([16, 1, 2, 0], 4, 5, TriangularCost);
    assert [16, 1, 2, 0] + [4] == [16, 1, 2, 0, 4];
    assert TriangularCost(1) == 1;
    assert Cost([16, 1, 2, 0, 4], 5, TriangularCost) == 98;
  }

  /** The same crabs aligned on 5 cost 168 at the rising price. */
  lemma ExampleTriangular()
    ensures Cost([16, 1, 2, 0, 4, 2, 7, 1, 2, 14], 5, TriangularCost) == 168
  {
    ExampleTriangularFirstFive();
    CostSnoc([16, 1, 2, 0, 4], 2, 5, TriangularCost);
    assert [16, 1, 2, 0, 4] + [2] == [16, 1, 2, 0, 4, 2];
    assert TriangularCost(3) == 6;
    assert Cost([16, 1, 2, 0, 4, 2], 5, TriangularCost) == 104;
    CostSnoc([16, 1, 2, 0, 4, 2], 7, 5, TriangularCost);
    assert [16, 1, 2, 0, 4, 2] + [7] == [16, 1, 2, 0, 4, 2, 7];
    assert TriangularCost(2) == 3;
    assert Cost([16, 1, 2, 0, 4, 2, 7], 5, TriangularCost) == 107;
    CostSnoc([16, 1, 2, 0, 4, 2, 7], 1, 5, TriangularCost);
    assert [16, 1, 2, 0, 4, 2, 7] + [1] == [16, 1, 2, 0, 4, 2, 7, 1];
    assert TriangularCost(4) == 10;
    assert Cost([16, 1, 2, 0, 4, 2, 7, 1], 5, TriangularCost) == 117;
    CostSnoc([16, 1, 2, 0, 4, 2, 7, 1], 2, 5, TriangularCost);
    assert [16, 1, 2, 0, 4, 2, 7, 1] + [2] == [16, 1, 2, 0, 4, 2, 7, 1, 2];
    assert TriangularCost(3) == 6;
    assert Cost([16, 1, 2, 0, 4, 2, 7, 1, 2], 5, TriangularCost) == 123;
    CostSnoc([16, 1, 2, 0, 4, 2, 7, 1, 2], 14, 5, TriangularCost);
    assert [16, 1, 2, 0, 4, 2, 7, 1, 2] + [14] == [16, 1, 2, 0, 4, 2, 7, 1, 2, 14];
    assert TriangularCost(9) == 45;
    assert Cost([16, 1, 2, 0, 4, 2, 7, 1, 2, 14], 5, TriangularCost) == 168;
  }
}

/** Day 6 (src/d06.rs): lanternfish counted by timer value in nine buckets. */
module D06 {
  import opened Common
  import opened Text
  import opened Seqs

  /** A fish's timer runs from 0 to 8; a fresh fish starts at 8, a parent restarts at 6. */
  const BUCKETS: nat := 9

  /** `LanternfishList::from_str`. */
  method ParseLanternfish(data: string) returns (r: Result<seq<nat>, string>)
    ensures r == ParseUsizes(Split(data, ','), "Invalid item")
  {
    var pieces := Split(data, ',');
    var items: seq<nat> := [];
    for k := 0 to |pieces|
      invariant ParseUsizes(pieces[..k], "Invalid item") == Ok(items)
    {
      assert pieces[..k + 1][..k] == pieces[..k];
      match ParseUsize(pieces[k])
      case None =>
        ParseUsizesErrExtends(pieces, k + 1, "Invalid item");
        return Err("Invalid item");
      case Some(item) =>
        items := items + [item];
    }
    assert pieces[..|pieces|] == pieces;
    return Ok(items);
  }

  /** Every timer indexes one of the nine buckets (`data[n] += 1` panics otherwise). */
  predicate ValidTimers(fish: seq<nat>) {
    forall k :: 0 <= k < |fish| ==> fish[k] < BUCKETS
  }

  /** How many fish have each timer value. */
  function Histogram(fish: seq<nat>): (h: seq<nat>)
    ensures |h| == BUCKETS
  {
    seq(BUCKETS, t => multiset(fish)[t])
  }

  /** One day: every timer goes down by one, the fish at 0 restart at 6 and each adds a fish at 8. */
  function Step(h: seq<nat>): (r: seq<nat>)
    requires |h| == BUCKETS
    ensures |r| == BUCKETS
  {
    var rotated := h[1..] + [h[0]];
    rotated[6 := rotated[6] + rotated[8]]
  }

  function Iterate(h: seq<nat>, days: nat): (r: seq<nat>)
    requires |h| == BUCKETS
    ensures |r| == BUCKETS
  {
    if days == 0 then h else Step(Iterate(h, days - 1))
  }

  function Total(h: seq<nat>): int {
    SumBy(h, Identity)
  }

  /** `rotate_left(1)` on the bucket array. */
  method RotateLeft(a: array<nat>)
    requires a.Length > 0
    modifies a
    ensures a[..] == old(a[..])[1..] + [old(a[0])]
  {
    var first := a[0];
    for i := 0 to a.Length - 1
      invariant forall k :: 0 <= k < i ==> a[k] == old(a[k + 1])
      invariant forall k :: i <= k < a.Length ==> a[k] == old(a[k])
    {
      a[i] := a[i + 1];
    }
    a[a.Length - 1] := first;
    assert forall k :: 0 <= k < a.Length ==> a[..][k] == (old(a[..])[1..] + [old(a[0])])[k];
  }

  /** `simulate_lanternfish_grow`: the number of fish after the given number of days. */
  method SimulateLanternfishGrow(fish: seq<nat>, cycles: nat) returns (total: nat)
    requires ValidTimers(fish)
    ensures total == Total(Iterate(Histogram(fish), cycles))
  {
    var data := new nat[BUCKETS](_ => 0);
    for i := 0 to |fish|
      invariant data[..] == Histogram(fish[..i])
    {
      assert fish[..i + 1] == fish[..i] + [fish[i]];
      data[fish[i]] := data[fish[i]] + 1;
    }
    assert fish[..|fish|] == fish;
    for c := 0 to cycles
      invariant data[..] == Iterate(Histogram(fish), c)
    {
      RotateLeft(data);
      data[6] := data[6] + data[8];
    }
    total := 0;
    for i := 0 to BUCKETS
      invariant total == SumBy(data[..i], Identity)
    {
      assert data[..i + 1][..i] == data[..i];
      total := total + data[i];
    }
    assert data[..BUCKETS] == data[..];
  }

  // ---------------------------------------------------------------- properties

  lemma {:induction false} SumByBump(s: seq<nat>, i: nat, d: nat)
    requires i < |s|
    ensures SumBy(s[i := s[i] + d], Identity) == SumBy(s, Identity) + d
    decreases |s|
  {
    var n := |s|;
    var t := s[i := s[i] + d];
    assert t[..n - 1] == if i == n - 1 then s[..n - 1] else s[..n - 1][i := s[i] + d];
    if i < n - 1 {
      SumByBump(s[..n - 1], i, d);
    }
  }

  /** Each day adds one fish per fish whose timer was at 0. */
  lemma StepTotal(h: seq<nat>)
    requires |h| == BUCKETS
    ensures Total(Step(h)) == Total(h) + h[0]
  {
    var rotated := h[1..] + [h[0]];
    assert h == [h[0]] + h[1..];
    assert multiset(rotated) == multiset(h);
    SumByPermutation(rotated, h, Identity);
    SumByBump(rotated, 6, rotated[8]);
  }

  /** The buckets after one day, position by position. */
  lemma StepBuckets(h: seq<nat>)
    requires |h| == BUCKETS
    ensures forall t :: 0 <= t < BUCKETS && t != 6 && t != 8 ==> Step(h)[t] == h[t + 1]
    ensures Step(h)[6] == h[7] + h[0]
    ensures Step(h)[8] == h[0]
  {
  }

  /** The fish never decrease in number. */
  lemma {:induction false} TotalGrows(h: seq<nat>, days: nat)
    requires |h| == BUCKETS
    ensures Total(Iterate(h, days)) >= Total(h)
  {
    if days > 0 {
      TotalGrows(h, days - 1);
      StepTotal(Iterate(h, days - 1));
    }
  }

  lemma {:induction false} HistogramTotal(fish: seq<nat>)
    requires ValidTimers(fish)
    ensures Total(Histogram(fish)) == |fish|
    decreases |fish|
  {
    if fish == [] {
      TotalOfBuckets(Histogram(fish));
    } else {
      var n := |fish|;
      var init := fish[..n - 1];
      assert fish == init + [fish[n - 1]];
      HistogramTotal(init);
      assert Histogram(fish) == Histogram(init)[fish[n - 1] := Histogram(init)[fish[n - 1]] + 1];
      SumByBump(Histogram(init), fish[n - 1], 1);
    }
  }

  /** With no days to run, the count is the number of fish read. */
  lemma ZeroCycles(fish: seq<nat>)
    requires ValidTimers(fish)
    ensures Total(Iterate(Histogram(fish), 0)) == |fish|
  {
    HistogramTotal(fish);
  }

  /** The count after any number of days depends only on how many fish have each timer, not their order. */
  lemma OrderFree(a: seq<nat>, b: seq<nat>, days: nat)
    requires multiset(a) == multiset(b)
    ensures Iterate(Histogram(a), days) == Iterate(Histogram(b), days)
  {
  }

  lemma SumByPrefixStep(s: seq<nat>, k: nat)
    requires k < |s|
    ensures SumBy(s[..k + 1], Identity) == SumBy(s[..k], Identity) + s[k]
  {
    assert s[..k + 1][..k] == s[..k];
  }

  /** The total written out over the nine buckets. */
  lemma TotalOfBuckets(h: seq<nat>)
    requires |h| == BUCKETS
    ensures Total(h) == h[0] + h[1] + h[2] + h[3] + h[4] + h[5] + h[6] + h[7] + h[8]
  {
    assert h[..0] == [];
    SumByPrefixStep(h, 0);
    SumByPrefixStep(h, 1);
    SumByPrefixStep(h, 2);
    SumByPrefixStep(h, 3);
    SumByPrefixStep(h, 4);
    SumByPrefixStep(h, 5);
    SumByPrefixStep(h, 6);
    SumByPrefixStep(h, 7);
    SumByPrefixStep(h, 8);
    assert h[..9] == h;
  }

  /** One day written out on the nine buckets. */
  lemma StepOf(a0: nat, a1: nat, a2: nat, a3: nat, a4: nat, a5: nat, a6: nat, a7: nat, a8: nat)
    ensures Step([a0, a1, a2, a3, a4, a5, a6, a7, a8]) == [a1, a2, a3, a4, a5, a6, a7 + a0, a8, a0]
  {
  }

  lemma IterateOnce(h: seq<nat>, days: nat, e: seq<nat>)
    requires |h| == BUCKETS && Iterate(h, days) == e
    ensures Iterate(h, days + 1) == Step(e)
  {
  }

  lemma ExampleHistogram()
    ensures Histogram([3, 4, 3, 1, 2]) == [0, 1, 1, 2, 1, 0, 0, 0, 0]
  {
    var m := multiset([3, 4, 3, 1, 2]);
    assert m == multiset{1, 2, 3, 3, 4};
  }

  lemma ExampleDay3()
    ensures Iterate(Histogram([3, 4, 3, 1, 2]), 3) == [2, 1, 0, 0, 0, 1, 1, 1, 1]
  {
    ExampleHistogram();
    IterateOnce(Histogram([3, 4, 3, 1, 2]), 0, [0, 1, 1, 2, 1, 0, 0, 0, 0]);
    StepOf(0, 1, 1, 2, 1, 0, 0, 0, 0);
    IterateOnce(Histogram([3, 4, 3, 1, 2]), 1, [1, 1, 2, 1, 0, 0, 0, 0, 0]);
    StepOf(1, 1, 2, 1, 0, 0, 0, 0, 0);
    IterateOnce(Histogram([3, 4, 3, 1, 2]), 2, [1, 2, 1, 0, 0, 0, 1, 0, 1]);
    StepOf(1, 2, 1, 0, 0, 0, 1, 0, 1);
  }

  lemma ExampleWeek1()
    ensures Iterate(Histogram([3, 4, 3, 1, 2]), 6) == [0, 0, 1, 1, 3, 2, 2, 1, 0]
  {
    ExampleDay3();
    IterateOnce(Histogram([3, 4, 3, 1, 2]), 3, [2, 1, 0, 0, 0, 1, 1, 1, 1]);
    StepOf(2, 1, 0, 0, 0, 1, 1, 1, 1);
    IterateOnce(Histogram([3, 4, 3, 1, 2]), 4, [1, 0, 0, 0, 1, 1, 3, 1, 2]);
    StepOf(1, 0, 0, 0, 1, 1, 3, 1, 2);
    IterateOnce(Histogram([3, 4, 3, 1, 2]), 5, [0, 0, 0, 1, 1, 3, 2, 2, 1]);
    StepOf(0, 0, 0, 1, 1, 3, 2, 2, 1);
  }

  lemma ExampleDay9()
    ensures Iterate(Histogram([3, 4, 3, 1, 2]), 9) == [1, 3, 2, 2, 1, 0, 1, 0, 1]
  {
    ExampleWeek1();
    IterateOnce(Histogram([3, 4, 3, 1, 2]), 6, [0, 0, 1, 1, 3, 2, 2, 1, 0]);
    StepOf(0, 0, 1, 1, 3, 2, 2, 1, 0);
    IterateOnce(Histogram([3, 4, 3, 1, 2]), 7, [0, 1, 1, 3, 2, 2, 1, 0, 0]);
    StepOf(0, 1, 1, 3, 2, 2, 1, 0, 0);
    IterateOnce(Histogram([3, 4, 3, 1, 2]), 8, [1, 1, 3, 2, 2, 1, 0, 0, 0]);
    StepOf(1, 1, 3, 2, 2, 1, 0, 0, 0);
  }

  lemma ExampleWeek2()
    ensures Iterate(Histogram([3, 4, 3, 1, 2]), 12) == [2, 1, 0, 1, 1, 4, 3, 3, 2]
  {
    ExampleDay9();
    IterateOnce(Histogram([3, 4, 3, 1, 2]), 9, [1, 3, 2, 2, 1, 0, 1, 0, 1]);
    StepOf(1, 3, 2, 2, 1, 0, 1, 0, 1);
    IterateOnce(Histogram([3, 4, 3, 1, 2]), 10, [3, 2, 2, 1, 0, 1, 1, 1, 1]);
    StepOf(3, 2, 2, 1, 0, 1, 1, 1, 1);
    IterateOnce(Histogram([3, 4, 3, 1, 2]), 11, [2, 2, 1, 0, 1, 1, 4, 1, 3]);
    StepOf(2, 2, 1, 0, 1, 1, 4, 1, 3);
  }

  lemma ExampleDay15()
    ensures Iterate(Histogram([3, 4, 3, 1, 2]), 15) == [1, 1, 4, 3, 5, 3, 2, 1, 0]
  {
    ExampleWeek2();
    IterateOnce(Histogram([3, 4, 3, 1, 2]), 12, [2, 1, 0, 1, 1, 4, 3, 3, 2]);
    StepOf(2, 1, 0, 1, 1, 4, 3, 3, 2);
    IterateOnce(Histogram([3, 4, 3, 1, 2]), 13, [1, 0, 1, 1, 4, 3, 5, 2, 2]);
    StepOf(1, 0, 1, 1, 4, 3, 5, 2, 2);
    IterateOnce(Histogram([3, 4, 3, 1, 2]), 14, [0, 1, 1, 4, 3, 5, 3, 2, 1]);
    StepOf(0, 1, 1, 4, 3, 5, 3, 2, 1);
  }

  lemma ExampleWeek3()
    ensures Iterate(Histogram([3, 4, 3, 1, 2]), 18) == [3, 5, 3, 2, 2, 1, 5, 1, 4]
  {
    ExampleDay15();
    IterateOnce(Histogram([3, 4, 3, 1, 2]), 15, [1, 1, 4, 3, 5, 3, 2, 1, 0]);
    StepOf(1, 1, 4, 3, 5, 3, 2, 1, 0);
    IterateOnce(Histogram([3, 4, 3, 1, 2]), 16, [1, 4, 3, 5, 3, 2, 2, 0, 1]);
    StepOf(1, 4, 3, 5, 3, 2, 2, 0, 1);
    IterateOnce(Histogram([3, 4, 3, 1, 2]), 17, [4, 3, 5, 3, 2, 2, 1, 1, 1]);
    StepOf(4, 3, 5, 3, 2, 2, 1, 1, 1);
  }

  /** The worked example: 3,4,3,1,2 grows to 26 fish in 18 days. */
  lemma Example()
    ensures Total(Iterate(Histogram([3, 4, 3, 1, 2]), 18)) == 26
  {
    ExampleWeek3();
    TotalOfBuckets([3, 5, 3, 2, 2, 1, 5, 1, 4]);
  }
}

/** Day 1 (src/d01.rs): counting how often a depth measurement increases,
    directly and over sums of three-measurement sliding windows. */
module D01 {

  /** The measurement `k` places after index `i` is strictly larger than the one at `i`. */
  predicate LargerAfter(data: seq<nat>, i: nat, k: nat) {
    i + k < |data| && data[i] < data[i + k]
  }

  /** The indices `i` at which the next measurement is strictly larger. */
  ghost function IncreaseIndices(data: seq<nat>): set<nat> {
    set i: nat | i < |data| && LargerAfter(data, i, 1)
  }

  /** `count_depth_measurement_increases`, with the `windows(2)` fold taken from the left:
      the pairs of the prefix without the last element, then the last pair. The part-1 entry
      point `count_number_of_times_depth_measurement_increases` only delegates here. */
  function CountIncreases(data: seq<nat>): (r: nat)
    ensures |data| < 2 ==> r == 0
    ensures |data| >= 2 ==> r <= |data| - 1
    decreases |data|
  {
    if |data| < 2 then 0
    else
      var n := |data|;
      CountIncreases(data[..n - 1]) + (if data[n - 1] > data[n - 2] then 1 else 0)
  }

  /** The count is the number of adjacent pairs that increase. */
  lemma {:induction false} CountIncreasesIsIncreaseCount(data: seq<nat>)
    ensures CountIncreases(data) == |IncreaseIndices(data)|
    decreases |data|
  {
    if |data| < 2 {
      assert IncreaseIndices(data) == {};
    } else {
      var n := |data|;
      var init := data[..n - 1];
      CountIncreasesIsIncreaseCount(init);
      if data[n - 1] > data[n - 2] {
        assert IncreaseIndices(data) == IncreaseIndices(init) + {n - 2};
        assert n - 2 !in IncreaseIndices(init);
      } else {
        assert IncreaseIndices(data) == IncreaseIndices(init);
      }
    }
  }

  /** `data.windows(3).map(|x| x.iter().sum())`: one sum per full window. */
  function WindowSums(data: seq<nat>): (r: seq<nat>)
    ensures |r| == if |data| < 3 then 0 else |data| - 2
    ensures forall i :: 0 <= i < |r| ==> r[i] == data[i] + data[i + 1] + data[i + 2]
    decreases |data|
  {
    if |data| < 3 then [] else [data[0] + data[1] + data[2]] + WindowSums(data[1..])
  }

  /** `count_number_of_times_depth_measurement_window_increases`. */
  function CountWindowIncreases(data: seq<nat>): (r: nat)
    ensures |data| < 4 ==> r == 0
    ensures |data| >= 4 ==> r <= |data| - 3
  {
    CountIncreases(WindowSums(data))
  }

  /** Two neighbouring windows share two measurements, so the window sum increases at `i`
      exactly when the measurement three places on is larger than the one at `i`. */
  lemma CountWindowIncreasesIsLagThreeCount(data: seq<nat>)
    ensures CountWindowIncreases(data) == |set i: nat | i < |data| && LargerAfter(data, i, 3)|
  {
    var w := WindowSums(data);
    CountIncreasesIsIncreaseCount(w);
    forall i: nat | i < |data| ensures LargerAfter(w, i, 1) <==> LargerAfter(data, i, 3) {
      if i + 3 < |data| {
        assert |w| == |data| - 2;
        assert w[i] == data[i] + data[i + 1] + data[i + 2];
        assert w[i + 1] == data[i + 1] + data[i + 2] + data[i + 3];
      }
    }
    assert IncreaseIndices(w) == set i: nat | i < |data| && LargerAfter(data, i, 3);
  }

  /** The worked example: 1, 2, 3, 2, 5 increases three times; the windows of
      1, 2, 3, 2, 5, 6 are 6, 7, 10, 13, which also increase three times. */
  lemma Example()
    ensures CountIncreases([1, 2, 3, 2, 5]) == 3
    ensures WindowSums([1, 2, 3, 2, 5, 6]) == [6, 7, 10, 13]
    ensures CountWindowIncreases([1, 2, 3, 2, 5, 6]) == 3
  {
    assert [1, 2, 3, 2, 5][..4] == [1, 2, 3, 2];
    assert [1, 2, 3, 2][..3] == [1, 2, 3];
    assert [1, 2, 3][..2] == [1, 2];
    var w := WindowSums([1, 2, 3, 2, 5, 6]);
    assert w == [6, 7, 10, 13];
    assert w[..3] == [6, 7, 10];
    assert [6, 7, 10][..2] == [6, 7];
  }
}

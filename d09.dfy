/** Day 9 (src/d09.rs): low points of a height map and the basins that drain into them. */
module D09 {
  import opened Common
  import opened Text
  import opened Seqs

  /** Heights 0 to 9, row by row. */
  type Grid = seq<seq<nat>>

  /** A (row, column) position. */
  type Cell = (nat, nat)

  // ---------------------------------------------------------------- parsing

  /** `Row::from_str`: one height per character; a character that is not a decimal digit makes
      `to_digit(10).expect` panic, hence the precondition. */
  function ParseRow(s: string): (r: seq<nat>)
    requires AllDigits(s)
    ensures |r| == |s| && forall k :: 0 <= k < |r| ==> r[k] < 10
  {
    seq(|s|, k requires 0 <= k < |s| => DigitValue(s[k]))
  }

  function ShowRow(row: seq<nat>): (s: string)
    requires forall k :: 0 <= k < |row| ==> row[k] < 10
    ensures AllDigits(s)
  {
    seq(|row|, k requires 0 <= k < |row| => DigitChar(row[k]))
  }

  lemma ParseShowRow(row: seq<nat>)
    requires forall k :: 0 <= k < |row| ==> row[k] < 10
    ensures ParseRow(ShowRow(row)) == row
  {
  }

  lemma ShowParseRow(s: string)
    requires AllDigits(s)
    ensures ShowRow(ParseRow(s)) == s
  {
    forall k | 0 <= k < |s| ensures DigitChar(DigitValue(s[k])) == s[k] {
      assert IsDigit(s[k]);
    }
  }

  // ---------------------------------------------------------------- low points

  datatype LowPoint = LowPoint(rowIndex: nat, itemIndex: nat, item: nat)

  predicate InBounds(data: Grid, c: Cell) {
    c.0 < |data| && c.1 < |data[c.0]|
  }

  /** `data.get(r).and_then(|row| row.get(c)).filter(|&&x| x > item).is_some()`. */
  predicate HigherAt(data: Grid, r: nat, c: nat, item: nat) {
    r < |data| && c < |data[r]| && data[r][c] > item
  }

  /** The four tests of `find_low_points`; a side on the border of the map counts as higher. */
  predicate IsLowPoint(data: Grid, r: nat, c: nat)
    requires InBounds(data, (r, c))
  {
    var item := data[r][c];
    && (r == 0 || HigherAt(data, r - 1, c, item))
    && (r == |data| - 1 || HigherAt(data, r + 1, c, item))
    && (c == 0 || HigherAt(data, r, c - 1, item))
    && (c == |data[r]| - 1 || HigherAt(data, r, c + 1, item))
  }

  predicate Adjacent(a: Cell, b: Cell) {
    || (a.0 == b.0 && (a.1 + 1 == b.1 || b.1 + 1 == a.1))
    || (a.1 == b.1 && (a.0 + 1 == b.0 || b.0 + 1 == a.0))
  }

  predicate Rectangular(data: Grid) {
    forall r :: 0 <= r < |data| ==> |data[r]| == |data[0]|
  }

  /** On a rectangular map, a low point is a cell lower than every neighbour on the map. */
  lemma LowPointMeaning(data: Grid, r: nat, c: nat)
    requires Rectangular(data) && InBounds(data, (r, c))
    ensures IsLowPoint(data, r, c) <==>
              forall n: Cell :: Adjacent((r, c), n) && InBounds(data, n) ==> data[n.0][n.1] > data[r][c]
  {
    if IsLowPoint(data, r, c) {
      forall n: Cell | Adjacent((r, c), n) && InBounds(data, n) ensures data[n.0][n.1] > data[r][c] {
      }
    } else {
      var item := data[r][c];
      if !(r == 0 || HigherAt(data, r - 1, c, item)) {
        assert Adjacent((r, c), (r - 1, c)) && InBounds(data, (r - 1, c));
      } else if !(r == |data| - 1 || HigherAt(data, r + 1, c, item)) {
        assert Adjacent((r, c), (r + 1, c)) && InBounds(data, (r + 1, c));
      } else if !(c == 0 || HigherAt(data, r, c - 1, item)) {
        assert Adjacent((r, c), (r, c - 1)) && InBounds(data, (r, c - 1));
      } else {
        assert Adjacent((r, c), (r, c + 1)) && InBounds(data, (r, c + 1));
      }
    }
  }

  /** A low point as reported: its position is on the map, it is a low point, and it carries
      the height there. */
  predicate Reported(data: Grid, p: LowPoint) {
    InBounds(data, (p.rowIndex, p.itemIndex)) && IsLowPoint(data, p.rowIndex, p.itemIndex)
    && p.item == data[p.rowIndex][p.itemIndex]
  }

  /** `p` comes before position (r, c) in row-major order. */
  predicate Before(p: LowPoint, r: nat, c: nat) {
    p.rowIndex < r || (p.rowIndex == r && p.itemIndex < c)
  }

  predicate RowMajor(ps: seq<LowPoint>) {
    forall i, j :: 0 <= i < j < |ps| ==> Before(ps[i], ps[j].rowIndex, ps[j].itemIndex)
  }

  /** `find_low_points`: every low point, once each, in row-major order. */
  method FindLowPoints(data: Grid) returns (lowPoints: seq<LowPoint>)
    ensures forall k :: 0 <= k < |lowPoints| ==> Reported(data, lowPoints[k])
    ensures forall r, c :: 0 <= r < |data| && 0 <= c < |data[r]| && IsLowPoint(data, r, c) ==>
              LowPoint(r, c, data[r][c]) in lowPoints
    ensures RowMajor(lowPoints)
  {
    lowPoints := [];
    for rowIndex := 0 to |data|
      invariant forall k :: 0 <= k < |lowPoints| ==> Reported(data, lowPoints[k]) && lowPoints[k].rowIndex < rowIndex
      invariant forall r, c :: 0 <= r < rowIndex && 0 <= c < |data[r]| && IsLowPoint(data, r, c) ==>
                  LowPoint(r, c, data[r][c]) in lowPoints
      invariant RowMajor(lowPoints)
    {
      var row := data[rowIndex];
      for itemIndex := 0 to |row|
        invariant forall k :: 0 <= k < |lowPoints| ==> Reported(data, lowPoints[k]) && Before(lowPoints[k], rowIndex, itemIndex)
        invariant forall r, c :: 0 <= r < rowIndex && 0 <= c < |data[r]| && IsLowPoint(data, r, c) ==>
                    LowPoint(r, c, data[r][c]) in lowPoints
        invariant forall c :: 0 <= c < itemIndex && IsLowPoint(data, rowIndex, c) ==>
                    LowPoint(rowIndex, c, data[rowIndex][c]) in lowPoints
        invariant RowMajor(lowPoints)
      {
        var item := row[itemIndex];
        var itemUp := if rowIndex != 0 then HigherAt(data, rowIndex - 1, itemIndex, item) else true;
        var itemDown := if rowIndex != |data| - 1 then HigherAt(data, rowIndex + 1, itemIndex, item) else true;
        var itemLeft := if itemIndex != 0 then HigherAt(data, rowIndex, itemIndex - 1, item) else true;
        var itemRight := if itemIndex != |row| - 1 then HigherAt(data, rowIndex, itemIndex + 1, item) else true;
        if itemUp && itemDown && itemLeft && itemRight {
          lowPoints := lowPoints + [LowPoint(rowIndex, itemIndex, item)];
        }
      }
    }
  }

  // ---------------------------------------------------------------- basins

  /** A cell the flood fill may enter: on the map and not of height 9. */
  predicate Open(data: Grid, c: Cell) {
    InBounds(data, c) && data[c.0][c.1] != 9
  }

  /** A walk from `start` through open cells, one neighbour at a time. */
  ghost predicate Walk(data: Grid, start: Cell, path: seq<Cell>) {
    && |path| > 0 && path[0] == start
    && (forall k :: 0 < k < |path| ==> Open(data, path[k]))
    && (forall k :: 0 < k < |path| ==> Adjacent(path[k - 1], path[k]))
  }

  ghost predicate Reachable(data: Grid, start: Cell, c: Cell) {
    exists path :: Walk(data, start, path) && path[|path| - 1] == c
  }

  ghost function Cells(data: Grid): (r: set<Cell>)
    ensures forall c :: c in r <==> InBounds(data, c)
  {
    set i, j | 0 <= i < |data| && 0 <= j < |data[i]| :: (i, j)
  }

  /** The basin of `start`: the cells reachable from it without crossing a 9. */
  ghost function Basin(data: Grid, start: Cell): set<Cell> {
    set c | c in Cells(data) && Reachable(data, start, c)
  }

  ghost function Members<T>(s: seq<T>): set<T> {
    set x | x in s
  }

  predicate NoDup<T(==)>(s: seq<T>) {
    forall i, j :: 0 <= i < j < |s| ==> s[i] != s[j]
  }

  /** Every open neighbour of `c` is in `order`. */
  ghost predicate Closed(data: Grid, c: Cell, order: seq<Cell>) {
    forall n: Cell :: Adjacent(c, n) && Open(data, n) ==> n in order
  }

  /** Every cell of `order` is on the map and reachable from `start`. */
  ghost predicate AllReachable(data: Grid, start: Cell, order: seq<Cell>) {
    forall k :: 0 <= k < |order| ==> InBounds(data, order[k]) && Reachable(data, start, order[k])
  }

  /** The first `settled` cells of `order` have all their open neighbours in `order`. */
  ghost predicate Settled(data: Grid, order: seq<Cell>, settled: nat) {
    forall j :: 0 <= j < settled && j < |order| ==> Closed(data, order[j], order)
  }

  /** The state of the search in `get_basin_size`: the visited cells followed by the queue,
      starting at `start`, all reachable, none twice, and every one of the first `settled`
      visited cells with its open neighbours already found. */
  ghost predicate Search(data: Grid, start: Cell, visited: seq<Cell>, queue: seq<Cell>, settled: nat) {
    var order := visited + queue;
    && settled <= |visited|
    && |order| > 0 && order[0] == start
    && AllReachable(data, start, order)
    && NoDup(order)
    && Settled(data, order, settled)
  }

  lemma SearchStart(data: Grid, start: Cell)
    requires InBounds(data, start)
    ensures Search(data, start, [], [start], 0)
  {
    assert Walk(data, start, [start]);
    assert [] + [start] == [start];
  }

  /** Moving the head of the queue to the visited cells leaves the order alone. */
  lemma SearchPop(data: Grid, start: Cell, visited: seq<Cell>, queue: seq<Cell>)
    requires Search(data, start, visited, queue, |visited|) && queue != []
    ensures Search(data, start, visited + [queue[0]], queue[1..], |visited|)
    ensures (visited + [queue[0]]) + queue[1..] == visited + queue
  {
    assert (visited + [queue[0]]) + queue[1..] == visited + queue;
  }

  /** A cell next to a reachable one, and open, is reachable. */
  lemma ReachableStep(data: Grid, start: Cell, from: Cell, n: Cell)
    requires Reachable(data, start, from) && Adjacent(from, n) && Open(data, n)
    ensures Reachable(data, start, n)
  {
    var path :| Walk(data, start, path) && path[|path| - 1] == from;
    assert Walk(data, start, path + [n]);
  }

  lemma SettledGrows(data: Grid, order: seq<Cell>, settled: nat, n: Cell)
    requires Settled(data, order, settled) && settled <= |order|
    ensures Settled(data, order + [n], settled)
  {
    forall j | 0 <= j < settled && j < |order + [n]| ensures Closed(data, (order + [n])[j], order + [n]) {
      assert (order + [n])[j] == order[j];
      assert Closed(data, order[j], order);
    }
  }

  /** The search never holds more cells than the map has. */
  lemma SearchBound(data: Grid, start: Cell, visited: seq<Cell>, queue: seq<Cell>, settled: nat)
    requires Search(data, start, visited, queue, settled)
    ensures |visited| + |queue| <= |Cells(data)|
  {
    var order := visited + queue;
    NoDupSize(order);
    var seen, cells := Members(order), Cells(data);
    assert seen <= cells;
    assert cells == seen + (cells - seen);
  }

  /** Queueing an open neighbour of the cell being visited that has not been seen yet. */
  lemma SearchPush(data: Grid, start: Cell, visited: seq<Cell>, queue: seq<Cell>, n: Cell)
    requires |visited| > 0
    requires Search(data, start, visited, queue, |visited| - 1)
    requires Adjacent(visited[|visited| - 1], n) && Open(data, n) && n !in visited && n !in queue
    ensures Search(data, start, visited, queue + [n], |visited| - 1)
  {
    var order := visited + queue;
    var order' := visited + (queue + [n]);
    assert order' == order + [n];
    assert order[|visited| - 1] == visited[|visited| - 1];
    ReachableStep(data, start, visited[|visited| - 1], n);
    assert AllReachable(data, start, order');
    assert NoDup(order');
    SettledGrows(data, order, |visited| - 1, n);
  }

  /** Once the four neighbours of the cell just visited are dealt with, it is settled. */
  lemma SearchSettle(data: Grid, start: Cell, visited: seq<Cell>, queue: seq<Cell>)
    requires |visited| > 0
    requires Search(data, start, visited, queue, |visited| - 1)
    requires var (x, y) := visited[|visited| - 1];
      && (x > 0 && Open(data, (x - 1, y)) ==> (x - 1, y) in visited + queue)
      && (Open(data, (x + 1, y)) ==> (x + 1, y) in visited + queue)
      && (y > 0 && Open(data, (x, y - 1)) ==> (x, y - 1) in visited + queue)
      && (Open(data, (x, y + 1)) ==> (x, y + 1) in visited + queue)
    ensures Search(data, start, visited, queue, |visited|)
  {
    var order := visited + queue;
    var c := visited[|visited| - 1];
    assert order[|visited| - 1] == c;
    forall n: Cell | Adjacent(c, n) && Open(data, n) ensures n in order {
    }
  }

  lemma {:induction false} WalkStaysInside(data: Grid, start: Cell, visited: seq<Cell>, path: seq<Cell>, k: nat)
    requires Search(data, start, visited, [], |visited|) && Walk(data, start, path) && k < |path|
    ensures path[k] in visited
  {
    if k == 0 {
      assert (visited + [])[0] == visited[0];
    } else {
      WalkStaysInside(data, start, visited, path, k - 1);
      var j :| 0 <= j < |visited| && visited[j] == path[k - 1];
      assert visited + [] == visited;
      assert Closed(data, (visited + [])[j], visited + []);
    }
  }

  lemma {:induction false} NoDupSize<T>(s: seq<T>)
    requires NoDup(s)
    ensures |Members(s)| == |s|
    decreases |s|
  {
    if s == [] {
      assert Members(s) == {};
    } else {
      var init := s[..|s| - 1];
      NoDupSize(init);
      assert Members(s) == Members(init) + {s[|s| - 1]};
      assert s[|s| - 1] !in Members(init);
    }
  }

  /** A finished search has visited the basin, each cell once. */
  lemma SearchDone(data: Grid, start: Cell, visited: seq<Cell>)
    requires Search(data, start, visited, [], |visited|)
    ensures |visited| == |Basin(data, start)|
  {
    assert visited + [] == visited;
    forall c | c in Basin(data, start) ensures c in Members(visited) {
      var path :| Walk(data, start, path) && path[|path| - 1] == c;
      WalkStaysInside(data, start, visited, path, |path| - 1);
    }
    assert Members(visited) == Basin(data, start);
    NoDupSize(visited);
  }

  /** One of the four neighbour tests of `get_basin_size`: `n` is queued when the source's
      bounds-and-height test `open` holds and `n` is neither visited nor queued already. */
  method Enqueue(ghost data: Grid, ghost start: Cell, visited: seq<Cell>,
                 queue: seq<Cell>, n: Cell, open: bool) returns (queue': seq<Cell>)
    requires |visited| > 0
    requires Search(data, start, visited, queue, |visited| - 1)
    requires Adjacent(visited[|visited| - 1], n) && (open <==> Open(data, n))
    ensures Search(data, start, visited, queue', |visited| - 1)
    ensures queue' == queue || queue' == queue + [n]
    ensures open ==> n in visited + queue'
  {
    queue' := queue;
    if open && n !in visited {
      if n !in queue {
        SearchPush(data, start, visited, queue, n);
        queue' := queue + [n];
      }
    }
  }

  /** The four neighbour tests of `get_basin_size` for the cell just visited: above, below,
      left and right in turn. */
  method VisitNeighbours(data: Grid, ghost start: Cell, visited: seq<Cell>,
                         queue: seq<Cell>) returns (queue': seq<Cell>)
    requires Rectangular(data) && |visited| > 0
    requires Search(data, start, visited, queue, |visited| - 1)
    ensures Search(data, start, visited, queue', |visited|)
    ensures |queue'| >= |queue|
  {
    var (x, y) := visited[|visited| - 1];
    assert InBounds(data, (x, y)) by {
      assert (visited + queue)[|visited| - 1] == (x, y);
    }
    queue' := queue;
    if x > 0 {
      assert |data[x - 1]| == |data[x]|;
      queue' := Enqueue(data, start, visited, queue', (x - 1, y), data[x - 1][y] != 9);
    }
    assert x < |data| - 1 ==> |data[x + 1]| == |data[x]|;
    queue' := Enqueue(data, start, visited, queue', (x + 1, y),
                      x < |data| - 1 && data[x + 1][y] != 9);
    if y > 0 {
      queue' := Enqueue(data, start, visited, queue', (x, y - 1), data[x][y - 1] != 9);
    }
    queue' := Enqueue(data, start, visited, queue', (x, y + 1),
                      y < |data[x]| - 1 && data[x][y + 1] != 9);
    SearchSettle(data, start, visited, queue');
  }

  /** `get_basin_size`: a breadth-first flood fill from the low point; on a rectangular map it
      counts the basin. */
  method GetBasinSize(lowPoint: Cell, data: Grid) returns (size: nat)
    requires Rectangular(data) && InBounds(data, lowPoint)
    ensures size == |Basin(data, lowPoint)|
  {
    var toBeVisited: seq<Cell> := [lowPoint];
    var visited: seq<Cell> := [];
    ghost var cells := Cells(data);
    SearchStart(data, lowPoint);
    SearchBound(data, lowPoint, visited, toBeVisited, 0);
    while toBeVisited != []
      invariant Search(data, lowPoint, visited, toBeVisited, |visited|)
      invariant |visited| + |toBeVisited| <= |cells|
      decreases |cells| - |visited| - |toBeVisited|, |toBeVisited|
    {
      var (x, y) := toBeVisited[0];
      SearchPop(data, lowPoint, visited, toBeVisited);
      visited := visited + [(x, y)];
      toBeVisited := toBeVisited[1..];
      toBeVisited := VisitNeighbours(data, lowPoint, visited, toBeVisited);
      SearchBound(data, lowPoint, visited, toBeVisited, |visited|);
    }
    SearchDone(data, lowPoint, visited);
    size := |visited|;
  }

  /** The basin contains its start, lies on the map, and every other cell of it is open. */
  lemma BasinShape(data: Grid, start: Cell)
    requires InBounds(data, start)
    ensures start in Basin(data, start) && Basin(data, start) <= Cells(data)
    ensures forall c :: c in Basin(data, start) && c != start ==> Open(data, c)
    ensures 1 <= |Basin(data, start)| <= |Cells(data)|
  {
    assert Walk(data, start, [start]);
    forall c | c in Basin(data, start) && c != start ensures Open(data, c) {
      var path :| Walk(data, start, path) && path[|path| - 1] == c;
      assert |path| > 1;
    }
    var basin, cells := Basin(data, start), Cells(data);
    assert cells == basin + (cells - basin);
  }

  /** No open neighbour of a basin cell lies outside the basin. */
  lemma BasinClosed(data: Grid, start: Cell, c: Cell, n: Cell)
    requires c in Basin(data, start) && Adjacent(c, n) && Open(data, n)
    ensures n in Basin(data, start)
  {
    ReachableStep(data, start, c, n);
  }

  lemma WalkSecond(data: Grid, start: Cell, path: seq<Cell>)
    requires Walk(data, start, path) && |path| > 1
    ensures Adjacent(start, path[1]) && Open(data, path[1])
  {
  }

  /** A low point walled in by 9s (or the border) on every side is a basin of size 1. */
  lemma WalledInBasin(data: Grid, start: Cell)
    requires InBounds(data, start)
    requires forall n: Cell :: Adjacent(start, n) ==> !Open(data, n)
    ensures Basin(data, start) == {start}
  {
    BasinShape(data, start);
    forall c | c in Basin(data, start) ensures c == start {
      var path :| Walk(data, start, path) && path[|path| - 1] == c;
      if |path| > 1 {
        WalkSecond(data, start, path);
        assert false;
      }
    }
  }

  // ---------------------------------------------------------------- part 2

  /** The basin sizes of the given low points, in their order. */
  ghost function BasinSizes(data: Grid, lowPoints: seq<Cell>): (r: seq<nat>)
    ensures |r| == |lowPoints|
  {
    seq(|lowPoints|, k requires 0 <= k < |lowPoints| => |Basin(data, lowPoints[k])|)
  }

  /** `s.into_iter().rev().take(n)`. */
  function TakeReversed(s: seq<nat>, n: nat): (r: seq<nat>)
    ensures |r| == Min(n, |s|)
    decreases n
  {
    if n == 0 || s == [] then [] else [s[|s| - 1]] + TakeReversed(s[..|s| - 1], n - 1)
  }

  /** The `k`-th element taken is the `k`-th from the end. */
  lemma {:induction false} TakeReversedAt(s: seq<nat>, n: nat, k: nat)
    requires k < Min(n, |s|)
    ensures TakeReversed(s, n)[k] == s[|s| - 1 - k]
    decreases n
  {
    if k > 0 {
      TakeReversedAt(s[..|s| - 1], n - 1, k - 1);
    }
  }

  /** Taking the last `n` in reverse keeps exactly the last `n` elements. */
  lemma {:induction false} TakeReversedMultiset(s: seq<nat>, n: nat)
    ensures multiset(TakeReversed(s, n)) == multiset(s[|s| - Min(n, |s|)..])
    decreases n
  {
    if n == 0 || s == [] {
      assert s[|s| - Min(n, |s|)..] == [];
    } else {
      var init := s[..|s| - 1];
      TakeReversedMultiset(init, n - 1);
      var last, m := s[|s| - 1], Min(n, |s|);
      assert Min(n - 1, |init|) == m - 1;
      assert TakeReversed(s, n) == [last] + TakeReversed(init, n - 1);
      SuffixSnoc(s, m);
      assert multiset([last] + TakeReversed(init, n - 1)) == multiset{last} + multiset(TakeReversed(init, n - 1));
    }
  }

  /** The last `m` elements are the last `m - 1` before the final one, then the final one. */
  lemma SuffixSnoc(s: seq<nat>, m: nat)
    requires 0 < m <= |s|
    ensures multiset(s[|s| - m..]) == multiset(s[..|s| - 1][|s| - 1 - (m - 1)..]) + multiset{s[|s| - 1]}
  {
    var tail := s[..|s| - 1][|s| - 1 - (m - 1)..];
    assert s[|s| - m..] == tail + [s[|s| - 1]];
  }

  /** The product of `multiply_three_biggest_basins`: at most three sizes are chosen, they are taken
      from the sizes, and no size left out exceeds a chosen one. */
  lemma BiggestThree(sizes: seq<nat>)
    ensures var chosen := TakeReversed(SortAscending(sizes), 3);
      && |chosen| == Min(3, |sizes|)
      && multiset(chosen) <= multiset(sizes)
      && forall x, y :: x in multiset(sizes) - multiset(chosen) && y in chosen ==> x <= y
  {
    var sorted := SortAscending(sizes);
    var chosen := TakeReversed(sorted, 3);
    var m := Min(3, |sizes|);
    TopAndRest(sorted, m);
    ChosenFromTop(sorted, chosen, m, sorted[..|sorted| - m]);
  }

  /** The three taken and the elements before them make up the whole sequence. */
  lemma TopAndRest(s: seq<nat>, m: nat)
    requires m == Min(3, |s|)
    ensures multiset(s) - multiset(TakeReversed(s, 3)) == multiset(s[..|s| - m])
    ensures multiset(TakeReversed(s, 3)) <= multiset(s)
    ensures forall k :: 0 <= k < m ==> TakeReversed(s, 3)[k] == s[|s| - 1 - k]
  {
    var rest, top := s[..|s| - m], s[|s| - m..];
    TakeReversedMultiset(s, 3);
    forall k | 0 <= k < m ensures TakeReversed(s, 3)[k] == s[|s| - 1 - k] {
      TakeReversedAt(s, 3, k);
    }
    assert s == rest + top;
    assert multiset(s) == multiset(rest) + multiset(top);
  }

  lemma ChosenFromTop(sorted: seq<nat>, chosen: seq<nat>, m: nat, rest: seq<nat>)
    requires m <= |sorted| && |chosen| == m && rest == sorted[..|sorted| - m]
    requires forall k :: 0 <= k < m ==> chosen[k] == sorted[|sorted| - 1 - k]
    requires forall i, j :: 0 <= i < j < |sorted| ==> sorted[i] <= sorted[j]
    ensures forall x, y :: x in multiset(rest) && y in chosen ==> x <= y
  {
    forall x, y | x in multiset(rest) && y in chosen ensures x <= y {
      var i :| 0 <= i < |rest| && rest[i] == x;
      var j :| 0 <= j < |chosen| && chosen[j] == y;
      assert sorted[i] == x && sorted[|sorted| - 1 - j] == y;
    }
  }

  /** With three low points or fewer the product is over all basins. */
  lemma FewBasins(sizes: seq<nat>)
    requires |sizes| <= 3
    ensures Product(TakeReversed(SortAscending(sizes), 3)) == Product(sizes)
  {
    var sorted := SortAscending(sizes);
    TakeReversedMultiset(sorted, 3);
    assert sorted[0..] == sorted;
    ProductPermutation(TakeReversed(sorted, 3), sizes);
  }

  /** `multiply_three_biggest_basins`: the product of the three largest basin sizes. */
  method MultiplyThreeBiggestBasins(lowPoints: seq<Cell>, data: Grid) returns (r: nat)
    requires Rectangular(data) && forall k :: 0 <= k < |lowPoints| ==> InBounds(data, lowPoints[k])
    ensures r == Product(TakeReversed(SortAscending(BasinSizes(data, lowPoints)), 3))
  {
    var basinsSizes: seq<nat> := [];
    for k := 0 to |lowPoints|
      invariant |basinsSizes| == k
      invariant forall i :: 0 <= i < k ==> basinsSizes[i] == |Basin(data, lowPoints[i])|
    {
      var size := GetBasinSize(lowPoints[k], data);
      basinsSizes := basinsSizes + [size];
    }
    assert basinsSizes == BasinSizes(data, lowPoints);
    basinsSizes := SortAscending(basinsSizes);
    r := Product(TakeReversed(basinsSizes, 3));
  }
}

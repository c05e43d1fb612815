/** Day 4 (src/d04.rs): bingo boards whose cells are struck out in place, the simulation that
    finds the first winning board, and the one that keeps removing winners until none is left. */
module D04 {
  import opened Common
  import opened Text
  import opened Seqs

  /** A board's cells row by row; `None` is a struck-out cell. */
  type Grid = seq<seq<Option<nat>>>

  // ---------------------------------------------------------------- cells as values

  function MarkRow(row: seq<Option<nat>>, n: nat): (r: seq<Option<nat>>) {
    seq(|row|, j requires 0 <= j < |row| => if row[j] == Some(n) then None else row[j])
  }

  /** Every cell holding `n` struck out, every other cell kept: after marking no cell holds
      `n`, every other cell is as it was, and the shape is kept. */
  function Mark(g: Grid, n: nat): (r: Grid)
    ensures |r| == |g|
    ensures forall i :: 0 <= i < |g| ==> |r[i]| == |g[i]|
    ensures forall i, j :: 0 <= i < |g| && 0 <= j < |g[i]| ==> r[i][j] != Some(n)
    ensures forall i, j :: 0 <= i < |g| && 0 <= j < |g[i]| && g[i][j] != Some(n) ==> r[i][j] == g[i][j]
  {
    seq(|g|, i requires 0 <= i < |g| => MarkRow(g[i], n))
  }

  predicate Holds(g: Grid, n: nat) {
    exists i, j :: 0 <= i < |g| && 0 <= j < |g[i]| && g[i][j] == Some(n)
  }

  /** Marking a number the board does not hold changes nothing. */
  lemma MarkAbsent(g: Grid, n: nat)
    requires !Holds(g, n)
    ensures Mark(g, n) == g
  {
    forall i | 0 <= i < |g| ensures Mark(g, n)[i] == g[i] {
      assert forall j :: 0 <= j < |g[i]| ==> g[i][j] != Some(n);
    }
  }

  function RowSum(row: seq<Option<nat>>): nat
    decreases |row|
  {
    if row == [] then 0
    else RowSum(row[..|row| - 1]) + (match row[|row| - 1] case Some(x) => x case None => 0)
  }

  function RowCount(row: seq<Option<nat>>, n: nat): nat
    decreases |row|
  {
    if row == [] then 0 else RowCount(row[..|row| - 1], n) + (if row[|row| - 1] == Some(n) then 1 else 0)
  }

  /** `sum_unmarked`: the numbers still on the board, row after row. */
  function GridSum(g: Grid): nat
    decreases |g|
  {
    if g == [] then 0 else GridSum(g[..|g| - 1]) + RowSum(g[|g| - 1])
  }

  lemma {:induction false} RowSumBounds(row: seq<Option<nat>>)
    ensures RowSum(row) == 0 <==> forall j :: 0 <= j < |row| ==> row[j] in {None, Some(0)}
    ensures forall j :: 0 <= j < |row| && row[j].Some? ==> row[j].value <= RowSum(row)
    decreases |row|
  {
    if row != [] {
      var init := row[..|row| - 1];
      RowSumBounds(init);
      assert forall j :: 0 <= j < |init| ==> init[j] == row[j];
    }
  }

  /** The unmarked sum is zero exactly when every number left is 0, and bounds each of them. */
  lemma {:induction false} GridSumBounds(g: Grid)
    ensures GridSum(g) == 0 <==> forall i, j :: 0 <= i < |g| && 0 <= j < |g[i]| ==> g[i][j] in {None, Some(0)}
    ensures forall i, j :: 0 <= i < |g| && 0 <= j < |g[i]| && g[i][j].Some? ==> g[i][j].value <= GridSum(g)
    decreases |g|
  {
    if g != [] {
      var init := g[..|g| - 1];
      GridSumBounds(init);
      RowSumBounds(g[|g| - 1]);
      assert forall i :: 0 <= i < |init| ==> init[i] == g[i];
    }
  }

  /** The cells holding `n`. */
  function GridCount(g: Grid, n: nat): nat
    decreases |g|
  {
    if g == [] then 0 else GridCount(g[..|g| - 1], n) + RowCount(g[|g| - 1], n)
  }

  lemma {:induction false} MarkRowSum(row: seq<Option<nat>>, n: nat)
    ensures RowSum(row) == RowSum(MarkRow(row, n)) + n * RowCount(row, n)
    decreases |row|
  {
    if row != [] {
      var init := row[..|row| - 1];
      assert MarkRow(row, n)[..|row| - 1] == MarkRow(init, n);
      MarkRowSum(init, n);
    }
  }

  /** Striking out `n` lowers the unmarked sum by `n` for every cell that held it. */
  lemma {:induction false} MarkSum(g: Grid, n: nat)
    ensures GridSum(g) == GridSum(Mark(g, n)) + n * GridCount(g, n)
    decreases |g|
  {
    if g != [] {
      var init := g[..|g| - 1];
      var last := g[|g| - 1];
      assert Mark(g, n)[..|g| - 1] == Mark(init, n);
      assert Mark(g, n)[|g| - 1] == MarkRow(last, n);
      MarkSum(init, n);
      MarkRowSum(last, n);
      var a, b := GridCount(init, n), RowCount(last, n);
      assert GridCount(g, n) == a + b;
      Distribute(n, a, b);
    }
  }

  /** The last column before `j` whose cell holds `n`. */
  function LastInRow(row: seq<Option<nat>>, n: nat, j: nat): (r: Option<nat>)
    requires j <= |row|
    ensures r.Some? ==> r.value < j && row[r.value] == Some(n)
    ensures forall c :: (if r.Some? then r.value + 1 else 0) <= c < j ==> row[c] != Some(n)
    decreases j
  {
    if j == 0 then None
    else if row[j - 1] == Some(n) then Some(j - 1)
    else LastInRow(row, n, j - 1)
  }

  /** Row-major order of cells. */
  predicate Before(a: (nat, nat), b: (nat, nat)) {
    a.0 < b.0 || (a.0 == b.0 && a.1 < b.1)
  }

  /** The last cell holding `n` in the rows before `i`, in row-major order. */
  function LastHitBefore(g: Grid, n: nat, i: nat): (r: Option<(nat, nat)>)
    requires i <= |g|
    ensures r.Some? ==> r.value.0 < i && r.value.1 < |g[r.value.0]| && g[r.value.0][r.value.1] == Some(n)
    ensures r.None? ==> forall a, b :: 0 <= a < i && 0 <= b < |g[a]| ==> g[a][b] != Some(n)
    ensures r.Some? ==> forall a, b :: 0 <= a < i && 0 <= b < |g[a]| && Before(r.value, (a, b)) ==> g[a][b] != Some(n)
    decreases i
  {
    if i == 0 then None
    else
      match LastInRow(g[i - 1], n, |g[i - 1]|)
      case Some(c) => Some((i - 1, c))
      case None => LastHitBefore(g, n, i - 1)
  }

  /** `found_number` after the marking loops of `mark_number`: the last matching cell. */
  function LastHit(g: Grid, n: nat): (r: Option<(nat, nat)>)
    ensures r.None? <==> !Holds(g, n)
  {
    LastHitBefore(g, n, |g|)
  }

  /** `is_winning_row` on a grid: every cell of the row is struck out; no such row is an error. */
  function RowCheck(g: Grid, index: nat): (r: Result<bool, string>)
    ensures r.Err? <==> index >= |g|
    ensures r.Err? ==> r.error == "Invalid row index"
    ensures r.Ok? ==> (r.value <==> forall j :: 0 <= j < |g[index]| ==> g[index][j].None?)
  {
    if index < |g| then
      Ok(forall j :: 0 <= j < |g[index]| ==> g[index][j].None?)
    else
      Err("Invalid row index")
  }

  /** `is_winning_column` on a grid, scanning rows from the top: a row too short for the column
      is an error unless a cell above it already refuted the column. */
  function ColumnCheck(g: Grid, index: nat): (r: Result<bool, string>)
    ensures r == Ok(true) <==> forall k :: 0 <= k < |g| ==> index < |g[k]| && g[k][index].None?
    ensures (forall k :: 0 <= k < |g| ==> index < |g[k]|) ==> r.Ok?
    ensures r.Err? ==> r.error == "Invalid item index" && exists k :: 0 <= k < |g| && |g[k]| <= index
    decreases |g|
  {
    if g == [] then Ok(true)
    else if index >= |g[0]| then Err("Invalid item index")
    else if g[0][index].Some? then Ok(false)
    else
      var r := ColumnCheck(g[1..], index);
      assert forall k :: 1 <= k < |g| ==> g[k] == g[1..][k - 1];
      r
  }

  /** What `mark_number` answers for a board: no hit is `Ok(false)`; on a hit, the row and then
      the column of the last matching cell are checked on the marked board. The hit's row always
      exists, so the only error that can come back is the column's. */
  function MarkOutcome(g: Grid, n: nat): (r: Result<bool, string>)
    ensures !Holds(g, n) ==> r == Ok(false)
    ensures Holds(g, n) && r.Ok? ==>
      var (row, col) := LastHit(g, n).value;
      r.value <==> RowCheck(Mark(g, n), row) == Ok(true) || ColumnCheck(Mark(g, n), col) == Ok(true)
    ensures r.Err? ==> r.error == "Invalid item index"
  {
    match LastHit(g, n)
    case None => Ok(false)
    case Some((row, col)) =>
      var marked := Mark(g, n);
      match RowCheck(marked, row)
      case Err(e) => Err(e)
      case Ok(rowWins) =>
        match ColumnCheck(marked, col)
        case Err(e) => Err(e)
        case Ok(columnWins) => Ok(rowWins || columnWins)
  }

  predicate Rectangular(g: Grid) {
    forall i :: 0 <= i < |g| ==> |g[i]| == |g[0]|
  }

  /** On a rectangular board marking never fails. */
  lemma RectangularMarks(g: Grid, n: nat)
    requires Rectangular(g)
    ensures MarkOutcome(g, n).Ok?
  {
    if Holds(g, n) {
      var (row, col) := LastHit(g, n).value;
      var marked := Mark(g, n);
      assert forall k :: 0 <= k < |marked| ==> col < |marked[k]|;
    }
  }

  /** `Board::new`: every number starts unmarked. */
  function FreshGrid(data: seq<seq<nat>>): (g: Grid)
    ensures |g| == |data|
    ensures forall i :: 0 <= i < |data| ==> |g[i]| == |data[i]|
    ensures forall i, j :: 0 <= i < |data| && 0 <= j < |data[i]| ==> g[i][j] == Some(data[i][j])
  {
    seq(|data|, i requires 0 <= i < |data| => seq(|data[i]|, j requires 0 <= j < |data[i]| => Some(data[i][j])))
  }

  // ---------------------------------------------------------------- the board object

  class Board {
    var cells: Grid

    constructor (data: seq<seq<nat>>)
      ensures cells == FreshGrid(data)
    {
      cells := FreshGrid(data);
    }

    /** `sum_unmarked`: zero exactly when every number left on the board is 0, and never
        below any number left on it. */
    function SumUnmarked(): (r: nat)
      reads this
      ensures r == 0 <==> forall i, j :: 0 <= i < |cells| && 0 <= j < |cells[i]| ==> cells[i][j] in {None, Some(0)}
      ensures forall i, j :: 0 <= i < |cells| && 0 <= j < |cells[i]| && cells[i][j].Some? ==> cells[i][j].value <= r
    {
      GridSumBounds(cells);
      GridSum(cells)
    }

    /** `is_winning_row`: "Invalid row index" past the last row, otherwise whether every cell
        of the row is struck out. */
    function IsWinningRow(index: nat): (r: Result<bool, string>)
      reads this
      ensures r.Err? <==> index >= |cells|
      ensures r.Err? ==> r.error == "Invalid row index"
      ensures r.Ok? ==> (r.value <==> forall j :: 0 <= j < |cells[index]| ==> cells[index][j].None?)
    {
      RowCheck(cells, index)
    }

    /** `is_winning_column`: the loop over rows with its early returns. */
    method IsWinningColumn(index: nat) returns (r: Result<bool, string>)
      ensures r == ColumnCheck(cells, index)
    {
      for k := 0 to |cells|
        invariant ColumnCheck(cells[k..], index) == ColumnCheck(cells, index)
      {
        assert cells[k..][1..] == cells[k + 1..];
        if index >= |cells[k]| {
          return Err("Invalid item index");
        }
        if cells[k][index].Some? {
          return Ok(false);
        }
      }
      return Ok(true);
    }

    /** `mark_number`: strike out every cell holding `number` while remembering the last one,
        then ask whether its row or its column is complete. */
    method MarkNumber(number: nat) returns (r: Result<bool, string>)
      modifies this
      ensures cells == Mark(old(cells), number)
      ensures r == MarkOutcome(old(cells), number)
    {
      ghost var g := cells;
      var found: Option<(nat, nat)> := None;
      for i := 0 to |cells|
        invariant |cells| == |g|
        invariant forall a :: 0 <= a < i ==> cells[a] == MarkRow(g[a], number)
        invariant forall a :: i <= a < |g| ==> cells[a] == g[a]
        invariant found == LastHitBefore(g, number, i)
      {
        var row := cells[i];
        for j := 0 to |row|
          invariant |row| == |g[i]|
          invariant forall b :: 0 <= b < j ==> row[b] == MarkRow(g[i], number)[b]
          invariant forall b :: j <= b < |row| ==> row[b] == g[i][b]
          invariant found == match LastInRow(g[i], number, j)
                             case Some(c) => Some((i, c))
                             case None => LastHitBefore(g, number, i)
        {
          if row[j] == Some(number) {
            row := row[j := None];
            found := Some((i, j));
          }
        }
        assert row == MarkRow(g[i], number);
        cells := cells[i := row];
      }
      assert cells == Mark(g, number);
      match found
      case None =>
        return Ok(false);
      case Some((row, column)) =>
        assert row < |cells| by {
          assert found == LastHitBefore(g, number, |g|);
        }
        var isWinningRow := IsWinningRow(row);
        if isWinningRow.Err? {
          // The last hit lies on the board, so its row always exists.
          assert false;
        }
        var isWinningColumn := IsWinningColumn(column);
        if isWinningColumn.Err? {
          return Err(isWinningColumn.error);
        }
        return Ok(isWinningRow.value || isWinningColumn.value);
    }
  }

  // ---------------------------------------------------------------- the simulation as values

  /** `(number, sum_unmarked, board_index)` of a winning board. */
  datatype Win = Win(number: nat, sum: nat, index: nat)

  /** An answer together with the boards as the simulation left them. */
  datatype Outcome<T> = Outcome(result: Result<T, string>, grids: seq<Grid>)

  /** One drawn number offered to the boards from `k` on: each is marked in turn until one
      wins (its index) or fails (its error); `None` when every board was marked without a win. */
  function MarkRound(grids: seq<Grid>, n: nat, k: nat): (r: Outcome<Option<nat>>)
    requires k <= |grids|
    ensures |r.grids| == |grids|
    ensures r.result.Ok? && r.result.value.Some? ==> k <= r.result.value.value < |grids|
    decreases |grids| - k
  {
    if k == |grids| then Outcome(Ok(None), grids)
    else
      var marked := grids[k := Mark(grids[k], n)];
      match MarkOutcome(grids[k], n)
      case Err(e) => Outcome(Err(e), marked)
      case Ok(true) => Outcome(Ok(Some(k)), marked)
      case Ok(false) => MarkRound(marked, n, k + 1)
  }

  /** Board `k` of a round, given the outcome of its mark. */
  lemma MarkBoard(grids: seq<Grid>, n: nat, k: nat, result: Result<bool, string>, after: seq<Grid>)
    requires k < |grids| && result == MarkOutcome(grids[k], n) && after == grids[k := Mark(grids[k], n)]
    ensures result.Err? ==> MarkRound(grids, n, k) == Outcome(Err(result.error), after)
    ensures result == Ok(true) ==> MarkRound(grids, n, k) == Outcome(Ok(Some(k)), after)
    ensures result == Ok(false) ==> MarkRound(grids, n, k) == MarkRound(after, n, k + 1)
  {
  }

  lemma {:induction false} MarkRoundKeepsEarlier(grids: seq<Grid>, n: nat, k: nat)
    requires k <= |grids|
    ensures forall j :: 0 <= j < k ==> MarkRound(grids, n, k).grids[j] == grids[j]
    decreases |grids| - k
  {
    if k < |grids| && MarkOutcome(grids[k], n) == Ok(false) {
      MarkRoundKeepsEarlier(grids[k := Mark(grids[k], n)], n, k + 1);
    }
  }

  lemma {:induction false} MarkRoundNoWinner(grids: seq<Grid>, n: nat, k: nat)
    requires k <= |grids| && MarkRound(grids, n, k).result == Ok(None)
    ensures forall j :: k <= j < |grids| ==>
              MarkRound(grids, n, k).grids[j] == Mark(grids[j], n) && MarkOutcome(grids[j], n) == Ok(false)
    decreases |grids| - k
  {
    if k < |grids| {
      var marked := grids[k := Mark(grids[k], n)];
      assert MarkOutcome(grids[k], n) == Ok(false);
      assert MarkRound(grids, n, k) == MarkRound(marked, n, k + 1);
      MarkRoundNoWinner(marked, n, k + 1);
      MarkRoundKeepsEarlier(marked, n, k + 1);
      forall j | k < j < |grids|
        ensures MarkRound(grids, n, k).grids[j] == Mark(grids[j], n) && MarkOutcome(grids[j], n) == Ok(false)
      {
        assert marked[j] == grids[j];
      }
    }
  }

  lemma {:induction false} MarkRoundWinner(grids: seq<Grid>, n: nat, k: nat)
    requires k <= |grids|
    requires var r := MarkRound(grids, n, k); r.result.Ok? && r.result.value.Some?
    ensures var r := MarkRound(grids, n, k);
      var w := r.result.value.value;
      && k <= w < |grids| && MarkOutcome(grids[w], n) == Ok(true)
      && (forall j :: k <= j <= w ==> r.grids[j] == Mark(grids[j], n))
      && (forall j :: k <= j < w ==> MarkOutcome(grids[j], n) == Ok(false))
      && (forall j :: w < j < |grids| ==> r.grids[j] == grids[j])
    decreases |grids| - k
  {
    var marked := grids[k := Mark(grids[k], n)];
    if MarkOutcome(grids[k], n) == Ok(false) {
      MarkBoard(grids, n, k, Ok(false), marked);
      MarkRoundWinner(marked, n, k + 1);
      MarkRoundKeepsEarlier(marked, n, k + 1);
      var r := MarkRound(marked, n, k + 1);
      forall j | k < j < |grids| ensures marked[j] == grids[j] { }
      assert r.grids[k] == Mark(grids[k], n);
    } else {
      MarkBoard(grids, n, k, MarkOutcome(grids[k], n), marked);
    }
  }

  lemma {:induction false} MarkRoundFailure(grids: seq<Grid>, n: nat, k: nat)
    requires k <= |grids| && MarkRound(grids, n, k).result.Err?
    ensures exists w :: k <= w < |grids| && MarkOutcome(grids[w], n) == Err(MarkRound(grids, n, k).result.error)
    decreases |grids| - k
  {
    if MarkOutcome(grids[k], n) == Ok(false) {
      var marked := grids[k := Mark(grids[k], n)];
      MarkRoundFailure(marked, n, k + 1);
      var w :| k + 1 <= w < |grids| && MarkOutcome(marked[w], n) == Err(MarkRound(grids, n, k).result.error);
      assert marked[w] == grids[w];
    }
  }

  /** A round leaves the boards before `k` alone. With no winner, every board from `k` on
      is marked and none won; with winner `w`, every board from `k` through `w` is marked,
      only `w` won, and the boards after `w` are untouched; a failure comes from some board. */
  lemma MarkRoundSpec(grids: seq<Grid>, n: nat, k: nat)
    requires k <= |grids|
    ensures var r := MarkRound(grids, n, k);
      forall j :: 0 <= j < k ==> r.grids[j] == grids[j]
    ensures var r := MarkRound(grids, n, k);
      r.result == Ok(None) ==>
        forall j :: k <= j < |grids| ==> r.grids[j] == Mark(grids[j], n) && MarkOutcome(grids[j], n) == Ok(false)
    ensures var r := MarkRound(grids, n, k);
      r.result.Ok? && r.result.value.Some? ==>
        var w := r.result.value.value;
        && k <= w < |grids| && MarkOutcome(grids[w], n) == Ok(true)
        && (forall j :: k <= j <= w ==> r.grids[j] == Mark(grids[j], n))
        && (forall j :: k <= j < w ==> MarkOutcome(grids[j], n) == Ok(false))
        && (forall j :: w < j < |grids| ==> r.grids[j] == grids[j])
    ensures var r := MarkRound(grids, n, k);
      r.result.Err? ==> exists w :: k <= w < |grids| && MarkOutcome(grids[w], n) == Err(r.result.error)
  {
    var r := MarkRound(grids, n, k);
    MarkRoundKeepsEarlier(grids, n, k);
    if r.result == Ok(None) {
      MarkRoundNoWinner(grids, n, k);
    } else if r.result.Ok? {
      MarkRoundWinner(grids, n, k);
    } else {
      MarkRoundFailure(grids, n, k);
    }
  }

  /** `run_simulation` from the `i`-th drawn number on: the first board to win, in draw order
      and then in board order, with its unmarked sum after the winning mark. */
  function Simulate(grids: seq<Grid>, numbers: seq<nat>, i: nat): (r: Outcome<Win>)
    requires i <= |numbers|
    ensures |r.grids| == |grids|
    ensures r.result.Ok? ==> r.result.value.index < |grids|
    decreases |numbers| - i
  {
    if i == |numbers| then Outcome(Err("No winner"), grids)
    else
      var round := MarkRound(grids, numbers[i], 0);
      match round.result
      case Err(e) => Outcome(Err(e), round.grids)
      case Ok(Some(k)) => Outcome(Ok(Win(numbers[i], GridSum(round.grids[k]), k)), round.grids)
      case Ok(None) => Simulate(round.grids, numbers, i + 1)
  }

  /** One drawn number of `Simulate`, given the outcome of its round. */
  lemma SimulateRound(grids: seq<Grid>, numbers: seq<nat>, i: nat, result: Result<Option<nat>, string>, after: seq<Grid>)
    requires i < |numbers| && Outcome(result, after) == MarkRound(grids, numbers[i], 0)
    ensures result.Err? ==> Simulate(grids, numbers, i) == Outcome(Err(result.error), after)
    ensures result.Ok? && result.value.Some? ==>
      var k := result.value.value;
      k < |after| && Simulate(grids, numbers, i) == Outcome(Ok(Win(numbers[i], GridSum(after[k]), k)), after)
    ensures result == Ok(None) ==> Simulate(grids, numbers, i) == Simulate(after, numbers, i + 1)
  {
  }

  /** Past the last draw nobody has won. */
  lemma SimulateEnd(initial: seq<Grid>, grids: seq<Grid>, numbers: seq<nat>)
    requires Simulate(grids, numbers, |numbers|) == Simulate(initial, numbers, 0)
    ensures Outcome(Err("No winner"), grids) == Simulate(initial, numbers, 0)
  {
  }

  /** The winner's sum is its unmarked sum after the winning mark, its number is one of the
      numbers drawn, and with no boards there is no winner. */
  lemma {:induction false} SimulateSpec(grids: seq<Grid>, numbers: seq<nat>, i: nat)
    requires i <= |numbers|
    ensures var r := Simulate(grids, numbers, i);
      r.result.Ok? ==>
        && r.result.value.sum == GridSum(r.grids[r.result.value.index])
        && r.result.value.number in numbers[i..]
    ensures |grids| == 0 ==> Simulate(grids, numbers, i) == Outcome(Err("No winner"), grids)
    decreases |numbers| - i
  {
    if i < |numbers| {
      var round := MarkRound(grids, numbers[i], 0);
      if round.result == Ok(None) {
        SimulateSpec(round.grids, numbers, i + 1);
        assert numbers[i + 1..] == numbers[i..][1..];
        if |grids| == 0 {
          assert round.grids == grids;
        }
      }
    }
  }

  // ---------------------------------------------------------------- the first winner, draw by draw

  /** Every board with `n` struck out. */
  function MarkAll(grids: seq<Grid>, n: nat): (r: seq<Grid>)
    ensures |r| == |grids|
    ensures forall k :: 0 <= k < |grids| ==> r[k] == Mark(grids[k], n)
  {
    seq(|grids|, k requires 0 <= k < |grids| => Mark(grids[k], n))
  }

  /** The boards once every number of `ns` has been struck out of all of them, in order. */
  function MarkedBy(grids: seq<Grid>, ns: seq<nat>): (r: seq<Grid>)
    ensures |r| == |grids|
    decreases |ns|
  {
    if ns == [] then grids else MarkedBy(MarkAll(grids, ns[0]), ns[1..])
  }

  /** The round of draw `j`, played on the boards as the draws `i` to `j - 1` left them. */
  function RoundAt(grids: seq<Grid>, numbers: seq<nat>, i: nat, j: nat): Outcome<Option<nat>>
    requires i <= j < |numbers|
  {
    MarkRound(MarkedBy(grids, numbers[i..j]), numbers[j], 0)
  }

  /** No round from draw `i` up to, not including, draw `j` produced a winner or an error. */
  predicate Undecided(grids: seq<Grid>, numbers: seq<nat>, i: nat, j: nat)
    requires i <= j <= |numbers|
  {
    forall d :: i <= d < j ==> RoundAt(grids, numbers, i, d).result == Ok(None)
  }

  /** At draw `j`, on the boards as the earlier draws left them, `w.index` is the first board
      whose mark wins, every board before it is marked without winning, `w.number` is the
      draw and `w.sum` the winner's unmarked sum after the mark. */
  predicate WinsAt(grids: seq<Grid>, numbers: seq<nat>, i: nat, j: nat, w: Win)
    requires i <= j < |numbers|
  {
    var before := MarkedBy(grids, numbers[i..j]);
    && w.number == numbers[j]
    && w.index < |before|
    && MarkOutcome(before[w.index], numbers[j]) == Ok(true)
    && (forall k :: 0 <= k < w.index ==> MarkOutcome(before[k], numbers[j]) == Ok(false))
    && w.sum == GridSum(Mark(before[w.index], numbers[j]))
  }

  lemma MarkedByShift(grids: seq<Grid>, numbers: seq<nat>, i: nat, j: nat)
    requires i < j <= |numbers|
    ensures MarkedBy(grids, numbers[i..j]) == MarkedBy(MarkAll(grids, numbers[i]), numbers[i + 1..j])
  {
    assert numbers[i..j][0] == numbers[i];
    assert numbers[i..j][1..] == numbers[i + 1..j];
  }

  /** After an undecided first round the later rounds are those started one draw later. */
  lemma UndecidedShift(grids: seq<Grid>, numbers: seq<nat>, i: nat, j: nat)
    requires i < j <= |numbers| && RoundAt(grids, numbers, i, i).result == Ok(None)
    ensures Undecided(grids, numbers, i, j) <==> Undecided(MarkAll(grids, numbers[i]), numbers, i + 1, j)
  {
    var after := MarkAll(grids, numbers[i]);
    var next := i + 1;
    if Undecided(grids, numbers, i, j) {
      forall d | next <= d < j
        ensures RoundAt(after, numbers, next, d).result == Ok(None)
      {
        MarkedByShift(grids, numbers, i, d);
        assert RoundAt(grids, numbers, i, d).result == Ok(None);
      }
    }
    if Undecided(after, numbers, i + 1, j) {
      forall d | i <= d < j
        ensures RoundAt(grids, numbers, i, d).result == Ok(None)
      {
        if d > i {
          MarkedByShift(grids, numbers, i, d);
          assert RoundAt(after, numbers, i + 1, d).result == Ok(None);
        }
      }
    }
  }

  lemma WinsAtShift(grids: seq<Grid>, numbers: seq<nat>, i: nat, j: nat, w: Win)
    requires i < j < |numbers|
    ensures WinsAt(grids, numbers, i, j, w) <==> WinsAt(MarkAll(grids, numbers[i]), numbers, i + 1, j, w)
  {
    MarkedByShift(grids, numbers, i, j);
  }

  /** A round that returns no winner marks every board. */
  lemma UndecidedRoundMarksAll(grids: seq<Grid>, n: nat)
    requires MarkRound(grids, n, 0).result == Ok(None)
    ensures MarkRound(grids, n, 0).grids == MarkAll(grids, n)
  {
    MarkRoundSpec(grids, n, 0);
  }

  /** `run_simulation` from draw `i` is decided by the first draw whose round is decided: a
      win is the first winning board, in board order, of the first draw at which any board
      wins, after every earlier draw was struck out of every board; "No winner" comes back
      exactly when no draw decides a round, and then every draw has been struck out of every
      board; any other error is the error of the first decided round. */
  lemma {:induction false} SimulateFirstWin(grids: seq<Grid>, numbers: seq<nat>, i: nat)
    requires i <= |numbers|
    ensures var r := Simulate(grids, numbers, i);
      r.result.Ok? ==>
        exists j :: i <= j < |numbers| && Undecided(grids, numbers, i, j) && WinsAt(grids, numbers, i, j, r.result.value)
    ensures Simulate(grids, numbers, i).result == Err("No winner") <==> Undecided(grids, numbers, i, |numbers|)
    ensures Undecided(grids, numbers, i, |numbers|) ==> Simulate(grids, numbers, i).grids == MarkedBy(grids, numbers[i..])
    ensures var r := Simulate(grids, numbers, i);
      r.result.Err? && r.result.error != "No winner" ==>
        exists j :: i <= j < |numbers| && Undecided(grids, numbers, i, j) && RoundAt(grids, numbers, i, j).result == Err(r.result.error)
    decreases |numbers| - i
  {
    var r := Simulate(grids, numbers, i);
    if i < |numbers| {
      var n := numbers[i];
      var round := MarkRound(grids, n, 0);
      assert numbers[i..i] == [];
      assert RoundAt(grids, numbers, i, i) == round;
      MarkRoundSpec(grids, n, 0);
      match round.result
      case Err(e) =>
        assert e == "Invalid item index";
        assert !Undecided(grids, numbers, i, |numbers|);
        assert Undecided(grids, numbers, i, i);
      case Ok(Some(k)) =>
        assert WinsAt(grids, numbers, i, i, r.result.value);
        assert Undecided(grids, numbers, i, i);
        assert !Undecided(grids, numbers, i, |numbers|);
      case Ok(None) =>
        var after := MarkAll(grids, n);
        UndecidedRoundMarksAll(grids, n);
        assert r == Simulate(after, numbers, i + 1);
        SimulateFirstWin(after, numbers, i + 1);
        UndecidedShift(grids, numbers, i, |numbers|);
        if r.result.Ok? {
          var j :| i + 1 <= j < |numbers| && Undecided(after, numbers, i + 1, j) && WinsAt(after, numbers, i + 1, j, r.result.value);
          UndecidedShift(grids, numbers, i, j);
          WinsAtShift(grids, numbers, i, j, r.result.value);
        }
        if Undecided(grids, numbers, i, |numbers|) {
          MarkedByShift(grids, numbers, i, |numbers|);
          assert numbers[i..|numbers|] == numbers[i..];
          assert numbers[i + 1..|numbers|] == numbers[i + 1..];
        }
        if r.result.Err? && r.result.error != "No winner" {
          var j :| i + 1 <= j < |numbers| && Undecided(after, numbers, i + 1, j)
            && RoundAt(after, numbers, i + 1, j).result == Err(r.result.error);
          UndecidedShift(grids, numbers, i, j);
          MarkedByShift(grids, numbers, i, j);
          assert RoundAt(grids, numbers, i, j) == RoundAt(after, numbers, i + 1, j);
        }
    } else {
      assert numbers[i..] == [];
    }
  }

  /** `rust_simulation_last_win`: simulate, remove the winner, and repeat until no board is
      left; the last winner's number and unmarked sum. */
  function LastWin(grids: seq<Grid>, numbers: seq<nat>): (r: Outcome<(nat, nat)>)
    ensures |grids| == 0 ==> r.result == Err("No winner")
    ensures r.result.Ok? ==> r.grids == []
    ensures |r.grids| <= |grids|
    decreases |grids|
  {
    if |grids| == 0 then Outcome(Err("No winner"), grids)
    else
      var run := Simulate(grids, numbers, 0);
      match run.result
      case Err(e) => Outcome(Err(e), run.grids)
      case Ok(w) =>
        var rest := run.grids[..w.index] + run.grids[w.index + 1..];
        if |rest| == 0 then Outcome(Ok((w.number, w.sum)), rest)
        else LastWin(rest, numbers)
  }

  /** One run of `LastWin` on a non-empty list of boards, with the run named: an unfolding
      step for the proofs of `RustSimulationLastWin` and `LastWinRemovesWinner`. */
  lemma LastWinStep(grids: seq<Grid>, numbers: seq<nat>)
    requires |grids| > 0
    ensures var run := Simulate(grids, numbers, 0);
      LastWin(grids, numbers) ==
        match run.result
        case Err(e) => Outcome(Err(e), run.grids)
        case Ok(w) =>
          var rest := run.grids[..w.index] + run.grids[w.index + 1..];
          if |rest| == 0 then Outcome(Ok((w.number, w.sum)), rest) else LastWin(rest, numbers)
  {
  }

  /** After a win, the next run of `LastWin` gets exactly the boards the simulation left
      without the winner, in their order; when the winner was the last board, its number and
      unmarked sum are the answer. */
  lemma LastWinRemovesWinner(grids: seq<Grid>, numbers: seq<nat>)
    requires |grids| > 0 && Simulate(grids, numbers, 0).result.Ok?
    ensures var run := Simulate(grids, numbers, 0); var w := run.result.value;
      |grids| == 1 ==> LastWin(grids, numbers) == Outcome(Ok((w.number, w.sum)), [])
    ensures var run := Simulate(grids, numbers, 0); var w := run.result.value;
      |grids| > 1 ==>
        exists rest: seq<Grid> ::
          && |rest| == |grids| - 1
          && (forall k :: 0 <= k < w.index ==> rest[k] == run.grids[k])
          && (forall k :: w.index <= k < |rest| ==> rest[k] == run.grids[k + 1])
          && LastWin(grids, numbers) == LastWin(rest, numbers)
  {
    var run := Simulate(grids, numbers, 0);
    var w := run.result.value;
    var rest := run.grids[..w.index] + run.grids[w.index + 1..];
    RemovedInOrder(run.grids, w.index);
    LastWinStep(grids, numbers);
  }

  lemma RemovedInOrder<T>(s: seq<T>, i: nat)
    requires i < |s|
    ensures var rest := s[..i] + s[i + 1..];
      && |rest| == |s| - 1
      && (forall k :: 0 <= k < i ==> rest[k] == s[k])
      && (forall k :: i <= k < |rest| ==> rest[k] == s[k + 1])
  {
  }

  /** The last winner's number is one of the drawn numbers. */
  lemma {:induction false} LastWinDrawn(grids: seq<Grid>, numbers: seq<nat>)
    ensures LastWin(grids, numbers).result.Ok? ==> LastWin(grids, numbers).result.value.0 in numbers
    decreases |grids|
  {
    if |grids| > 0 {
      var run := Simulate(grids, numbers, 0);
      if run.result.Ok? {
        var w := run.result.value;
        SimulateSpec(grids, numbers, 0);
        assert numbers[0..] == numbers;
        var rest := run.grids[..w.index] + run.grids[w.index + 1..];
        if |rest| > 0 {
          LastWinDrawn(rest, numbers);
        }
      }
    }
  }

  predicate AllRectangular(grids: seq<Grid>) {
    forall k :: 0 <= k < |grids| ==> Rectangular(grids[k])
  }

  lemma MarkRectangular(g: Grid, n: nat)
    requires Rectangular(g)
    ensures Rectangular(Mark(g, n))
  {
  }

  /** Rectangular boards stay rectangular and never make a round fail. */
  lemma {:induction false} MarkRoundRectangular(grids: seq<Grid>, n: nat, k: nat)
    requires k <= |grids| && AllRectangular(grids)
    ensures MarkRound(grids, n, k).result.Ok?
    ensures AllRectangular(MarkRound(grids, n, k).grids)
    decreases |grids| - k
  {
    if k < |grids| {
      RectangularMarks(grids[k], n);
      MarkRectangular(grids[k], n);
      var marked := grids[k := Mark(grids[k], n)];
      if MarkOutcome(grids[k], n) == Ok(false) {
        MarkRoundRectangular(marked, n, k + 1);
      }
    }
  }

  /** With rectangular boards the only way `run_simulation` fails is that no board wins. */
  lemma {:induction false} SimulateRectangular(grids: seq<Grid>, numbers: seq<nat>, i: nat)
    requires i <= |numbers| && AllRectangular(grids)
    ensures Simulate(grids, numbers, i).result.Err? ==> Simulate(grids, numbers, i).result.error == "No winner"
    decreases |numbers| - i
  {
    if i < |numbers| {
      var round := MarkRound(grids, numbers[i], 0);
      MarkRoundRectangular(grids, numbers[i], 0);
      if round.result == Ok(None) {
        SimulateRectangular(round.grids, numbers, i + 1);
      }
    }
  }

  /** The pieces `read_numbers` parses: words for board rows, comma-separated fields for the draw. */
  function NumberPieces(data: string, splitWhiteSpaces: bool): seq<string> {
    if splitWhiteSpaces then SplitAsciiWhitespace(data) else Split(data, ',')
  }

  function CommaJoin(ns: seq<nat>): string
    requires |ns| >= 1
  {
    Join(seq(|ns|, k requires 0 <= k < |ns| => ShowNat(ns[k])), ',')
  }

  /** The draw line written with commas reads back as the same numbers. */
  lemma ReadCommaJoin(ns: seq<nat>)
    requires |ns| >= 1 && forall k :: 0 <= k < |ns| ==> ns[k] < USIZE_LIMIT
    ensures ParseUsizes(NumberPieces(CommaJoin(ns), false), "Invalid number") == Ok(ns)
  {
    var shown := seq(|ns|, k requires 0 <= k < |ns| => ShowNat(ns[k]));
    forall k | 0 <= k < |ns| ensures ',' !in shown[k] {
      assert AllDigits(shown[k]);
    }
    SplitJoin(shown, ',');
    forall k | 0 <= k < |ns| ensures ParseUsize(shown[k]) == Some(ns[k]) {
      ParseUsizeShowNat(ns[k]);
    }
    var r := ParseUsizes(shown, "Invalid number");
    assert r.Ok?;
    assert r.value == ns;
  }

  /** A trailing comma leaves an empty last field, which is not a number. */
  lemma TrailingComma(line: string)
    ensures ParseUsizes(NumberPieces(line + ",", false), "Invalid number") == Err("Invalid number")
  {
    var pieces := Split(line + ",", ',');
    SplitTrailingSeparator(line, ',');
    assert ParseUsize(pieces[|pieces| - 1]) == None;
  }

  /** The rows of the non-empty lines, in order; the first line that is not all numbers fails. */
  function BoardRows(lines: seq<string>): (r: Result<seq<seq<nat>>, string>)
    ensures r.Err? ==> r.error == "Invalid number"
    decreases |lines|
  {
    if lines == [] then Ok([])
    else
      match BoardRows(lines[..|lines| - 1])
      case Err(e) => Err(e)
      case Ok(rows) =>
        var line := lines[|lines| - 1];
        if line == [] then Ok(rows)
        else
          match ParseUsizes(NumberPieces(line, true), "Invalid number")
          case Err(e) => Err(e)
          case Ok(row) => Ok(rows + [row])
  }

  lemma {:induction false} BoardRowsErrExtends(lines: seq<string>, i: nat)
    requires i <= |lines| && BoardRows(lines[..i]).Err?
    ensures BoardRows(lines).Err?
    decreases |lines| - i
  {
    if i < |lines| {
      assert lines[..i + 1][..i] == lines[..i];
      BoardRowsErrExtends(lines, i + 1);
    } else {
      assert lines[..i] == lines;
    }
  }

  function Flatten(boards: seq<seq<seq<nat>>>): seq<seq<nat>>
    decreases |boards|
  {
    if boards == [] then [] else Flatten(boards[..|boards| - 1]) + boards[|boards| - 1]
  }

  lemma FlattenSnoc(boards: seq<seq<seq<nat>>>, b: seq<seq<nat>>)
    ensures Flatten(boards + [b]) == Flatten(boards) + b
  {
    assert (boards + [b])[..|boards|] == boards;
  }

  /** The boards the grouping in `Bingo::init` builds from `rows`: consecutive blocks of exactly
      `boardSize` rows, taken from the front; rows that do not fill a last block are dropped,
      and a size of 0 builds none. */
  ghost predicate GroupsRows(boards: seq<seq<seq<nat>>>, rows: seq<seq<nat>>, boardSize: nat) {
    if boardSize == 0 then boards == []
    else
      && (forall k :: 0 <= k < |boards| ==> |boards[k]| == boardSize)
      && |Flatten(boards)| <= |rows| && Flatten(boards) == rows[..|Flatten(boards)|]
      && |rows| - |Flatten(boards)| < boardSize
  }

  /** The state of the grouping loop: the rows read so far are the finished boards followed
      by the board being filled, which is never full. */
  ghost predicate Grouping(boards: seq<seq<seq<nat>>>, boardRows: seq<seq<nat>>, rows: seq<seq<nat>>, boardSize: nat) {
    && rows == Flatten(boards) + boardRows
    && (boardSize == 0 ==> boards == [])
    && (boardSize > 0 ==> |boardRows| < boardSize && forall k :: 0 <= k < |boards| ==> |boards[k]| == boardSize)
  }

  /** A row read either fills the current board, which joins the finished ones, or extends it. */
  lemma GroupingStep(boards: seq<seq<seq<nat>>>, boardRows: seq<seq<nat>>, rows: seq<seq<nat>>, boardSize: nat, row: seq<nat>)
    requires Grouping(boards, boardRows, rows, boardSize)
    ensures |boardRows + [row]| == boardSize ==> Grouping(boards + [boardRows + [row]], [], rows + [row], boardSize)
    ensures |boardRows + [row]| != boardSize ==> Grouping(boards, boardRows + [row], rows + [row], boardSize)
  {
    FlattenSnoc(boards, boardRows + [row]);
  }

  lemma GroupingDone(boards: seq<seq<seq<nat>>>, boardRows: seq<seq<nat>>, rows: seq<seq<nat>>, boardSize: nat)
    requires Grouping(boards, boardRows, rows, boardSize)
    ensures GroupsRows(boards, rows, boardSize)
  {
    assert rows[..|Flatten(boards)|] == Flatten(boards);
  }

  // ---------------------------------------------------------------- the game object

  class Bingo {
    var numbers: seq<nat>
    var boards: seq<Board>

    /** The boards are distinct objects, so marking one leaves the others alone. */
    ghost predicate Valid()
      reads this
    {
      forall i, j :: 0 <= i < j < |boards| ==> boards[i] != boards[j]
    }

    ghost function Grids(): seq<Grid>
      reads this, boards
    {
      seq(|boards|, k requires 0 <= k < |boards| reads this, boards => boards[k].cells)
    }

    constructor (numbers: seq<nat>, data: seq<seq<seq<nat>>>)
      ensures this.numbers == numbers
      ensures Valid()
      ensures |Grids()| == |data| && forall k :: 0 <= k < |data| ==> Grids()[k] == FreshGrid(data[k])
      ensures forall k :: 0 <= k < |boards| ==> fresh(boards[k])
    {
      var created: seq<Board> := [];
      for k := 0 to |data|
        invariant |created| == k
        invariant forall a :: 0 <= a < k ==> fresh(created[a]) && created[a].cells == FreshGrid(data[a])
        invariant forall a, b :: 0 <= a < b < k ==> created[a] != created[b]
      {
        var board := new Board(data[k]);
        created := created + [board];
      }
      this.numbers := numbers;
      this.boards := created;
    }

    /** `self.boards[k].mark_number(number)`: only board `k` changes. */
    method MarkBoardAt(k: nat, number: nat) returns (r: Result<bool, string>)
      requires Valid() && k < |boards|
      modifies boards[k]
      ensures Grids() == old(Grids())[k := Mark(old(Grids())[k], number)]
      ensures r == MarkOutcome(old(Grids())[k], number)
    {
      var board := boards[k];
      ghost var before := Grids();
      r := board.MarkNumber(number);
      forall j | 0 <= j < |boards| ensures Grids()[j] == before[k := Mark(before[k], number)][j] {
        if j != k {
          assert boards[j] != board;
        }
      }
    }

    /** One drawn number offered to every board in order (the inner loop of `run_simulation`):
        stops at the first board that wins or fails. */
    method MarkRoundOnBoards(nextNumber: nat) returns (r: Result<Option<nat>, string>)
      requires Valid()
      modifies boards
      ensures Outcome(r, Grids()) == MarkRound(old(Grids()), nextNumber, 0)
    {
      ghost var initial := Grids();
      ghost var grids := initial;
      for k := 0 to |boards|
        invariant grids == Grids()
        invariant MarkRound(grids, nextNumber, k) == MarkRound(initial, nextNumber, 0)
      {
        var isWinningNumber := MarkBoardAt(k, nextNumber);
        MarkBoard(grids, nextNumber, k, isWinningNumber, Grids());
        grids := Grids();
        if isWinningNumber.Err? {
          return Err(isWinningNumber.error);
        }
        if isWinningNumber.value {
          return Ok(Some(k));
        }
      }
      return Ok(None);
    }

    /** One pass of `run_simulation`'s outer loop: the `i`-th drawn number offered to the
        boards, and the winner it makes, if any. */
    method Draw(i: nat) returns (r: Result<Option<Win>, string>)
      requires Valid() && i < |numbers|
      modifies boards
      ensures r.Err? ==> Outcome(Err(r.error), Grids()) == Simulate(old(Grids()), numbers, i)
      ensures r.Ok? && r.value.Some? ==> Outcome(Ok(r.value.value), Grids()) == Simulate(old(Grids()), numbers, i)
      ensures r == Ok(None) ==> Simulate(Grids(), numbers, i + 1) == Simulate(old(Grids()), numbers, i)
    {
      ghost var before := Grids();
      var nextNumber := numbers[i];
      var round := MarkRoundOnBoards(nextNumber);
      SimulateRound(before, numbers, i, round, Grids());
      if round.Err? {
        return Err(round.error);
      }
      if round.value.Some? {
        var k := round.value.value;
        var sumUnmarked := boards[k].SumUnmarked();
        return Ok(Some(Win(nextNumber, sumUnmarked, k)));
      }
      return Ok(None);
    }

    /** `run_simulation`: draw the numbers in order and mark every board in order, stopping at
        the first board that wins or fails; the boards keep the marks made so far. */
    method RunSimulation() returns (r: Result<Win, string>)
      requires Valid()
      modifies boards
      ensures Outcome(r, Grids()) == Simulate(old(Grids()), numbers, 0)
    {
      ghost var initial := Grids();
      var i := 0;
      while i < |numbers|
        invariant i <= |numbers|
        invariant Simulate(Grids(), numbers, i) == Simulate(initial, numbers, 0)
        decreases |numbers| - i
      {
        var drawn := Draw(i);
        if drawn.Err? {
          return Err(drawn.error);
        }
        if drawn.value.Some? {
          return Ok(drawn.value.value);
        }
        i := i + 1;
      }
      SimulateEnd(initial, Grids(), numbers);
      return Err("No winner");
    }

    /** `self.boards.remove(index)`. */
    method RemoveBoard(index: nat)
      requires Valid() && index < |boards|
      modifies this
      ensures Valid() && numbers == old(numbers)
      ensures boards == old(boards[..index] + boards[index + 1..])
      ensures Grids() == old(Grids()[..index] + Grids()[index + 1..])
    {
      ghost var before := Grids();
      boards := boards[..index] + boards[index + 1..];
      assert Grids() == before[..index] + before[index + 1..];
    }

    /** `rust_simulation_last_win`: run the simulation and remove its winner until no board is left. */
    method RustSimulationLastWin() returns (r: Result<(nat, nat), string>)
      requires Valid()
      modifies this, boards
      ensures Valid() && numbers == old(numbers)
      ensures Outcome(r, Grids()) == LastWin(old(Grids()), numbers)
    {
      ghost var initial := Grids();
      var numberOfBoards := |boards|;
      while numberOfBoards > 0
        invariant Valid() && numbers == old(numbers) && numberOfBoards == |boards|
        invariant forall k :: 0 <= k < |boards| ==> boards[k] in old(boards)
        invariant LastWin(Grids(), numbers) == LastWin(initial, numbers)
        decreases numberOfBoards
      {
        ghost var start := Grids();
        LastWinStep(start, numbers);
        var run := RunSimulation();
        if run.Err? {
          return Err(run.error);
        }
        RemoveBoard(run.value.index);
        numberOfBoards := |boards|;
        if numberOfBoards == 0 {
          return Ok((run.value.number, run.value.sum));
        }
      }
      return Err("No winner");
    }

    /** `Bingo::read_numbers`. */
    static method ReadNumbers(data: string, splitWhiteSpaces: bool) returns (r: Result<seq<nat>, string>)
      ensures r == ParseUsizes(NumberPieces(data, splitWhiteSpaces), "Invalid number")
    {
      var pieces := if splitWhiteSpaces then SplitAsciiWhitespace(data) else Split(data, ',');
      var numbers: seq<nat> := [];
      for k := 0 to |pieces|
        invariant ParseUsizes(pieces[..k], "Invalid number") == Ok(numbers)
      {
        assert pieces[..k + 1][..k] == pieces[..k];
        match ParseUsize(pieces[k])
        case None =>
          ParseUsizesErrExtends(pieces, k + 1, "Invalid number");
          return Err("Invalid number");
        case Some(number) =>
          numbers := numbers + [number];
      }
      assert pieces[..|pieces|] == pieces;
      return Ok(numbers);
    }

    /** The line grouping of `Bingo::init` after the draw line: every non-empty line is a row,
        and every `boardSize` rows make a board. */
    static method GroupBoards(lines: seq<string>, boardSize: nat) returns (r: Result<seq<seq<seq<nat>>>, string>)
      ensures BoardRows(lines).Err? ==> r == Err("Invalid number")
      ensures BoardRows(lines).Ok? ==> r.Ok? && GroupsRows(r.value, BoardRows(lines).value, boardSize)
    {
      var boards: seq<seq<seq<nat>>> := [];
      var boardRows: seq<seq<nat>> := [];
      ghost var rows: seq<seq<nat>> := [];
      for i := 0 to |lines|
        invariant BoardRows(lines[..i]) == Ok(rows)
        invariant Grouping(boards, boardRows, rows, boardSize)
      {
        PrefixStep(lines, i);
        var line := lines[i];
        if line != [] {
          var numbers := ReadNumbers(line, true);
          if numbers.Err? {
            BoardRowsErrExtends(lines, i + 1);
            return Err(numbers.error);
          }
          GroupingStep(boards, boardRows, rows, boardSize, numbers.value);
          boardRows := boardRows + [numbers.value];
          rows := rows + [numbers.value];
          if |boardRows| == boardSize {
            boards := boards + [boardRows];
            boardRows := [];
          }
        }
      }
      assert lines[..|lines|] == lines;
      GroupingDone(boards, boardRows, rows, boardSize);
      return Ok(boards);
    }

    /** `Bingo::init` over the lines of the input: the draw line, then the boards. */
    static method Init(lines: seq<string>, boardSize: nat) returns (r: Result<Bingo, string>)
      ensures lines == [] ==> r == Err("No bingo numbers")
      ensures lines != [] ==>
        (r.Ok? <==> ParseUsizes(NumberPieces(lines[0], false), "Invalid number").Ok? && BoardRows(lines[1..]).Ok?)
      ensures r.Ok? ==>
        && fresh(r.value) && r.value.Valid()
        && r.value.numbers == ParseUsizes(NumberPieces(lines[0], false), "Invalid number").value
        && exists data :: GroupsRows(data, BoardRows(lines[1..]).value, boardSize)
             && |r.value.Grids()| == |data| && forall k :: 0 <= k < |data| ==> r.value.Grids()[k] == FreshGrid(data[k])
    {
      if lines == [] {
        return Err("No bingo numbers");
      }
      var numbers := ReadNumbers(lines[0], false);
      if numbers.Err? {
        return Err(numbers.error);
      }
      var data := GroupBoards(lines[1..], boardSize);
      if data.Err? {
        return Err(data.error);
      }
      var bingo := new Bingo(numbers.value, data.value);
      return Ok(bingo);
    }
  }
}

/** Day 5 (src/d05.rs): hydrothermal vent lines, the grid points each one covers, and the
    number of points covered by more than one line. */
module D05 {
  import opened Common
  import opened Text
  import opened Seqs

  datatype Point = Point(x: nat, y: nat)

  datatype VentsLine = VentsLine(from: Point, to: Point)

  /** `is_vertical`, named as in the source although it compares the `y` coordinates. */
  predicate IsVertical(l: VentsLine) { l.from.y == l.to.y }

  /** `is_horizontal`, named as in the source although it compares the `x` coordinates. */
  predicate IsHorizontal(l: VentsLine) { l.from.x == l.to.x }

  /** `is_vertical_or_horizontal`: the two ends share a coordinate. */
  predicate IsVerticalOrHorizontal(l: VentsLine)
    ensures IsVerticalOrHorizontal(l) <==> l.from.x == l.to.x || l.from.y == l.to.y
  {
    IsHorizontal(l) || IsVertical(l)
  }

  /** `y` falls while `x` rises, whichever end is written first. */
  predicate IsVerticallyDecreased(l: VentsLine) {
    if l.from.x > l.to.x then l.from.y < l.to.y else l.from.y > l.to.y
  }

  /** The tests of the two predicates: two straight lines and a slanted one. */
  lemma StraightLines()
    ensures IsVerticalOrHorizontal(VentsLine(Point(0, 10), Point(10, 10)))
    ensures IsVerticalOrHorizontal(VentsLine(Point(0, 10), Point(0, 20)))
    ensures !IsVerticalOrHorizontal(VentsLine(Point(0, 10), Point(10, 20)))
  {
  }

  // ---------------------------------------------------------------- points of a line

  /** `(lo..hi)`. */
  function Range(lo: nat, hi: nat): (r: seq<nat>)
    requires lo <= hi
  {
    seq(hi - lo, i requires 0 <= i < hi - lo => lo + i)
  }

  function Reverse<T>(s: seq<T>): (r: seq<T>)
    ensures |r| == |s| && forall i :: 0 <= i < |s| ==> r[i] == s[|s| - 1 - i]
  {
    seq(|s|, i requires 0 <= i < |s| => s[|s| - 1 - i])
  }

  /** `xs.zip(ys).map(Point::new)`: as many points as the shorter side has values. */
  function ZipPoints(xs: seq<nat>, ys: seq<nat>): (r: seq<Point>)
    ensures |r| == Min(|xs|, |ys|)
  {
    seq(Min(|xs|, |ys|), i requires 0 <= i < Min(|xs|, |ys|) => Point(xs[i], ys[i]))
  }

  function MinX(l: VentsLine): nat { if l.from.x <= l.to.x then l.from.x else l.to.x }
  function MaxX(l: VentsLine): nat { if l.from.x <= l.to.x then l.to.x else l.from.x }
  function MinY(l: VentsLine): nat { if l.from.y <= l.to.y then l.from.y else l.to.y }
  function MaxY(l: VentsLine): nat { if l.from.y <= l.to.y then l.to.y else l.from.y }

  /** `get_points`: the covered points, in ascending `x` (or ascending `y` for a line of one
      `x`); a slanted line pairs ascending `x` with ascending or descending `y`. There is at
      least one point, and every point lies in the box the two ends span. */
  function GetPoints(l: VentsLine): (r: seq<Point>)
    ensures |r| >= 1
    ensures forall i :: 0 <= i < |r| ==> MinX(l) <= r[i].x <= MaxX(l) && MinY(l) <= r[i].y <= MaxY(l)
  {
    if IsVertical(l) then
      var xs := Range(MinX(l), MaxX(l) + 1);
      seq(|xs|, i requires 0 <= i < |xs| => Point(xs[i], l.from.y))
    else if IsHorizontal(l) then
      var ys := Range(MinY(l), MaxY(l) + 1);
      seq(|ys|, i requires 0 <= i < |ys| => Point(l.from.x, ys[i]))
    else
      var xs := Range(MinX(l), MaxX(l) + 1);
      var ys := Range(MinY(l), MaxY(l) + 1);
      if IsVerticallyDecreased(l) then ZipPoints(xs, Reverse(ys)) else ZipPoints(xs, ys)
  }

  /** A line of one `y` covers every `x` from the smaller end to the larger, both included. */
  lemma SameYPoints(l: VentsLine)
    requires IsVertical(l)
    ensures |GetPoints(l)| == MaxX(l) - MinX(l) + 1
    ensures forall i :: 0 <= i < |GetPoints(l)| ==> GetPoints(l)[i] == Point(MinX(l) + i, l.from.y)
  {
  }

  /** A line of one `x` (and two different `y`) covers every `y` between its ends, both included. */
  lemma SameXPoints(l: VentsLine)
    requires IsHorizontal(l) && !IsVertical(l)
    ensures |GetPoints(l)| == MaxY(l) - MinY(l) + 1
    ensures forall i :: 0 <= i < |GetPoints(l)| ==> GetPoints(l)[i] == Point(l.from.x, MinY(l) + i)
  {
  }

  /** A slanted line: `x` rises one step at a time from the smaller end; `y` rises from the
      smaller `y`, or falls from the larger one; the shorter side bounds the count. */
  lemma SlantedPoints(l: VentsLine)
    requires !IsHorizontal(l) && !IsVertical(l)
    ensures |GetPoints(l)| == Min(MaxX(l) - MinX(l), MaxY(l) - MinY(l)) + 1
    ensures forall i :: 0 <= i < |GetPoints(l)| ==>
      GetPoints(l)[i] == Point(MinX(l) + i, if IsVerticallyDecreased(l) then MaxY(l) - i else MinY(l) + i)
  {
  }

  /** A 45-degree line covers both of its ends. */
  lemma DiagonalEnds(l: VentsLine)
    requires !IsHorizontal(l) && !IsVertical(l)
    requires MaxX(l) - MinX(l) == MaxY(l) - MinY(l)
    ensures l.from in GetPoints(l) && l.to in GetPoints(l)
  {
    SlantedPoints(l);
    var pts := GetPoints(l);
    var n := MaxX(l) - MinX(l);
    if l.from.x < l.to.x {
      assert pts[0] == l.from && pts[n] == l.to;
    } else {
      assert pts[0] == l.to && pts[n] == l.from;
    }
  }

  /** Writing a line's ends the other way round covers the same points in the same order. */
  lemma SwapEnds(l: VentsLine)
    ensures GetPoints(VentsLine(l.to, l.from)) == GetPoints(l)
  {
    var s := VentsLine(l.to, l.from);
    assert MinX(s) == MinX(l) && MaxX(s) == MaxX(l) && MinY(s) == MinY(l) && MaxY(s) == MaxY(l);
    if !IsHorizontal(l) && !IsVertical(l) {
      assert IsVerticallyDecreased(s) == IsVerticallyDecreased(l);
    }
  }

  /** The tests of `get_points`. */
  lemma GetPointsExamples()
    ensures GetPoints(VentsLine(Point(0, 10), Point(2, 10))) == [Point(0, 10), Point(1, 10), Point(2, 10)]
    ensures GetPoints(VentsLine(Point(2, 10), Point(0, 10))) == [Point(0, 10), Point(1, 10), Point(2, 10)]
    ensures GetPoints(VentsLine(Point(0, 0), Point(0, 2))) == [Point(0, 0), Point(0, 1), Point(0, 2)]
    ensures GetPoints(VentsLine(Point(0, 2), Point(0, 0))) == [Point(0, 0), Point(0, 1), Point(0, 2)]
    ensures GetPoints(VentsLine(Point(1, 1), Point(3, 3))) == [Point(1, 1), Point(2, 2), Point(3, 3)]
    ensures GetPoints(VentsLine(Point(3, 3), Point(1, 1))) == [Point(1, 1), Point(2, 2), Point(3, 3)]
    ensures GetPoints(VentsLine(Point(9, 7), Point(7, 9))) == [Point(7, 9), Point(8, 8), Point(9, 7)]
  {
    SameYPoints(VentsLine(Point(0, 10), Point(2, 10)));
    SameYPoints(VentsLine(Point(2, 10), Point(0, 10)));
    SameXPoints(VentsLine(Point(0, 0), Point(0, 2)));
    SameXPoints(VentsLine(Point(0, 2), Point(0, 0)));
    SlantedPoints(VentsLine(Point(1, 1), Point(3, 3)));
    SlantedPoints(VentsLine(Point(3, 3), Point(1, 1)));
    SlantedPoints(VentsLine(Point(9, 7), Point(7, 9)));
  }

  // ---------------------------------------------------------------- coverage

  /** How many times the lines' point lists contain `p`. */
  function Coverage(lines: seq<VentsLine>, p: Point): int {
    SumBy(lines, (l: VentsLine) => multiset(GetPoints(l))[p])
  }

  function Elements(s: seq<Point>): (r: set<Point>)
    ensures forall p :: p in r <==> p in s
  {
    set i | 0 <= i < |s| :: s[i]
  }

  /** Every point some line covers. */
  function PointsOf(lines: seq<VentsLine>): set<Point>
    decreases |lines|
  {
    if lines == [] then {} else PointsOf(lines[..|lines| - 1]) + Elements(GetPoints(lines[|lines| - 1]))
  }

  lemma CoverageSnoc(lines: seq<VentsLine>, l: VentsLine, p: Point)
    ensures Coverage(lines + [l], p) == Coverage(lines, p) + multiset(GetPoints(l))[p]
  {
    assert (lines + [l])[..|lines|] == lines;
  }

  lemma PointsOfSnoc(lines: seq<VentsLine>, l: VentsLine)
    ensures PointsOf(lines + [l]) == PointsOf(lines) + Elements(GetPoints(l))
  {
    assert (lines + [l])[..|lines|] == lines;
  }

  /** A point is covered at all exactly when some line's point list holds it. */
  lemma {:induction false} CoveragePositive(lines: seq<VentsLine>, p: Point)
    ensures Coverage(lines, p) >= 0
    ensures Coverage(lines, p) > 0 <==> p in PointsOf(lines)
    decreases |lines|
  {
    if lines != [] {
      var init := lines[..|lines| - 1];
      CoveragePositive(init, p);
      assert lines == init + [lines[|lines| - 1]];
      CoverageSnoc(init, lines[|lines| - 1], p);
      PointsOfSnoc(init, lines[|lines| - 1]);
    }
  }

  /** The coverage of a point does not depend on the order of the lines. */
  lemma CoverageOrderFree(lines: seq<VentsLine>, other: seq<VentsLine>, p: Point)
    requires multiset(lines) == multiset(other)
    ensures Coverage(lines, p) == Coverage(other, p)
  {
    SumByPermutation(lines, other, (l: VentsLine) => multiset(GetPoints(l))[p]);
  }

  /** The `for_each` of `feed_vents_state` over one line's points: each occurrence raises the
      point's count by one, a new point starting from 0. */
  method CountPoints(state: map<Point, nat>, points: seq<Point>) returns (r: map<Point, nat>)
    ensures forall p :: p in r <==> p in state || p in points
    ensures forall p :: p in r ==> r[p] == (if p in state then state[p] else 0) + multiset(points)[p]
  {
    r := state;
    for j := 0 to |points|
      invariant forall p :: p in r <==> p in state || p in points[..j]
      invariant forall p :: p in r ==> r[p] == (if p in state then state[p] else 0) + multiset(points[..j])[p]
    {
      var p := points[j];
      assert points[..j + 1] == points[..j] + [p];
      r := r[p := (if p in r then r[p] else 0) + 1];
    }
    assert points[..|points|] == points;
  }

  /** `feed_vents_state`: one count per covered point, raised once per occurrence. */
  method FeedVentsState(lines: seq<VentsLine>) returns (state: map<Point, nat>)
    ensures forall p :: p in state <==> p in PointsOf(lines)
    ensures forall p :: p in state ==> state[p] == Coverage(lines, p)
  {
    state := map[];
    for i := 0 to |lines|
      invariant forall p :: p in state <==> p in PointsOf(lines[..i])
      invariant forall p :: p in state ==> state[p] == Coverage(lines[..i], p)
    {
      var points := GetPoints(lines[i]);
      assert lines[..i + 1] == lines[..i] + [lines[i]];
      forall p ensures Coverage(lines[..i + 1], p) == Coverage(lines[..i], p) + multiset(points)[p] {
        CoverageSnoc(lines[..i], lines[i], p);
      }
      PointsOfSnoc(lines[..i], lines[i]);
      state := CountPoints(state, points);
      forall p | p in state ensures state[p] == Coverage(lines[..i + 1], p) {
        CoveragePositive(lines[..i], p);
      }
    }
    assert lines[..|lines|] == lines;
  }

  /** The points covered by two or more lines. */
  function Overlaps(lines: seq<VentsLine>): set<Point> {
    set p | p in PointsOf(lines) && Coverage(lines, p) > 1
  }

  /** `find_number_of_points_that_overlap`: the entries of the count map above 1. */
  method FindNumberOfPointsThatOverlap(lines: seq<VentsLine>) returns (n: nat)
    ensures n == |Overlaps(lines)|
  {
    var state := FeedVentsState(lines);
    var overlaps := set p | p in state && state[p] > 1;
    assert overlaps == Overlaps(lines);
    n := |overlaps|;
  }

  /** Two copies of one line make every point of it an overlap, and nothing else. */
  lemma DoubledLine(l: VentsLine)
    ensures Overlaps([l, l]) == Elements(GetPoints(l))
  {
    assert [l, l] == [l] + [l];
    assert [l] == [] + [l];
    forall p ensures Coverage([l, l], p) == 2 * multiset(GetPoints(l))[p] {
      CoverageSnoc([], l, p);
      CoverageSnoc([l], l, p);
    }
    PointsOfSnoc([], l);
    PointsOfSnoc([l], l);
  }

  // ---------------------------------------------------------------- parsing

  /** `splitn(2, pat)`: the part before the first `pat`, and the rest after it if there is one. */
  function SplitN2(s: string, pat: string): (string, Option<string>) {
    match SplitOnce(s, pat)
    case None => (s, None)
    case Some((a, b)) => (a, Some(b))
  }

  /** The `usize` of an optional piece. */
  function ParsePiece(piece: Option<string>): Option<nat> {
    match piece
    case None => None
    case Some(s) => ParseUsize(s)
  }

  /** `VentsLine::from_str`: "x1,y1 -> x2,y2". The first piece of a `splitn` always exists, so
      "No 'from' point" can never be returned; a line with no arrow has no 'to' point. */
  function ParseVentsLine(data: string): (r: Result<VentsLine, string>)
    ensures r.Ok? ==> r.value.from.x < USIZE_LIMIT && r.value.from.y < USIZE_LIMIT
    ensures r.Ok? ==> r.value.to.x < USIZE_LIMIT && r.value.to.y < USIZE_LIMIT
    ensures r.Err? ==> r.error in {"No 'to' point", "No 'from' x", "No 'from' y", "No 'to' x", "No 'to' y"}
  {
    var (from, to) := SplitN2(data, " -> ");
    if to.None? then Err("No 'to' point")
    else
      var (fromX, fromY) := SplitN2(from, ",");
      var (toX, toY) := SplitN2(to.value, ",");
      match ParseUsize(fromX)
      case None => Err("No 'from' x")
      case Some(x1) =>
        match ParsePiece(fromY)
        case None => Err("No 'from' y")
        case Some(y1) =>
          match ParseUsize(toX)
          case None => Err("No 'to' x")
          case Some(x2) =>
            match ParsePiece(toY)
            case None => Err("No 'to' y")
            case Some(y2) => Ok(VentsLine(Point(x1, y1), Point(x2, y2)))
  }

  function ShowPoint(p: Point): string {
    ShowNat(p.x) + "," + ShowNat(p.y)
  }

  /** The input line a vents line is written as. */
  function ShowVentsLine(l: VentsLine): string {
    ShowPoint(l.from) + " -> " + ShowPoint(l.to)
  }

  lemma DigitsHaveNo(s: string, c: char)
    requires AllDigits(s) && !IsDigit(c)
    ensures c !in s
  {
  }

  lemma SplitPoint(p: Point)
    requires p.x < USIZE_LIMIT && p.y < USIZE_LIMIT
    ensures SplitN2(ShowPoint(p), ",") == (ShowNat(p.x), Some(ShowNat(p.y)))
    ensures ' ' !in ShowPoint(p)
  {
    DigitsHaveNo(ShowNat(p.x), ',');
    SplitOnceConcat(ShowNat(p.x), ",", ShowNat(p.y));
    DigitsHaveNo(ShowNat(p.x), ' ');
    DigitsHaveNo(ShowNat(p.y), ' ');
  }

  /** Parsing the written form of a line gives the line back. */
  lemma ParseShowVentsLine(l: VentsLine)
    requires l.from.x < USIZE_LIMIT && l.from.y < USIZE_LIMIT
    requires l.to.x < USIZE_LIMIT && l.to.y < USIZE_LIMIT
    ensures ParseVentsLine(ShowVentsLine(l)) == Ok(l)
  {
    SplitPoint(l.from);
    SplitPoint(l.to);
    SplitOnceConcat(ShowPoint(l.from), " -> ", ShowPoint(l.to));
    ParseUsizeShowNat(l.from.x);
    ParseUsizeShowNat(l.from.y);
    ParseUsizeShowNat(l.to.x);
    ParseUsizeShowNat(l.to.y);
  }

  /** A line without the arrow has no 'to' point. */
  lemma NoArrow(a: string)
    requires forall k :: 0 <= k <= |a| ==> !OccursAt(a, " -> ", k)
    ensures ParseVentsLine(a) == Err("No 'to' point")
  {
  }

  /** A `from` point without its comma, whose `x` is a number, has no `y`, whatever follows. */
  lemma MissingFromY(b: string, t: string)
    requires ' ' !in b && ',' !in b && ParseUsize(b).Some?
    ensures ParseVentsLine(b + " -> " + t) == Err("No 'from' y")
  {
    SplitOnceConcat(b, " -> ", t);
    assert SplitOnce(b, ",") == None by {
      forall k | 0 <= k <= |b| ensures !OccursAt(b, ",", k) {
        if k < |b| {
          assert b[k..k + 1][0] == b[k] && b[k] in b;
        }
      }
    }
    assert SplitN2(b, ",") == (b, None);
  }
}

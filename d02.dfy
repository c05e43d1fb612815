/** Day 2 (src/d02.rs): steering commands and the two ways of folding them into a position. */
module D02 {
  import opened Common
  import opened Text
  import opened Seqs

  datatype Command = Forward(distance: nat) | Down(distance: nat) | Up(distance: nat)

  /** `Command::from_str`: trim, split on ASCII whitespace, then the direction word and the
      distance; the distance is parsed before the direction is examined, and extra words are ignored. */
  function ParseCommand(line: string): (r: Result<Command, string>)
    ensures r.Ok? ==> r.value.distance < USIZE_LIMIT
  {
    var words := SplitAsciiWhitespace(Trim(line));
    if |words| == 0 then Err("No direction")
    else if |words| == 1 then Err("No distance")
    else
      match ParseUsize(words[1])
      case None => Err("Invalid distance")
      case Some(n) =>
        if words[0] == "forward" then Ok(Forward(n))
        else if words[0] == "down" then Ok(Down(n))
        else if words[0] == "up" then Ok(Up(n))
        else Err("Invalid direction")
  }

  function DirectionWord(c: Command): string {
    match c
    case Forward(_) => "forward"
    case Down(_) => "down"
    case Up(_) => "up"
  }

  /** The input line a command is written as, e.g. "forward 5". */
  function ShowCommand(c: Command): string {
    Unwords([DirectionWord(c), ShowNat(c.distance)])
  }

  lemma DigitsAreWord(s: string)
    requires s != [] && AllDigits(s)
    ensures IsWord(s)
    ensures !IsWhitespace(s[0]) && !IsWhitespace(s[|s| - 1])
  {
    assert IsDigit(s[0]) && IsDigit(s[|s| - 1]);
  }

  /** A word `w` followed by a space and `t` splits into `w` and `t`, and trimming leaves it alone. */
  lemma WordsOfPair(w: string, t: string)
    requires IsWord(w) && IsWord(t) && !IsWhitespace(w[0]) && !IsWhitespace(t[|t| - 1])
    ensures SplitAsciiWhitespace(Trim(Unwords([w, t]))) == [w, t]
  {
    var s := Unwords([w, t]);
    assert [w, t][1..] == [t];
    assert Unwords([t]) == t;
    assert s == w + " " + t;
    assert s[0] == w[0] && s[|s| - 1] == t[|t| - 1];
    TrimUnchanged(s);
    SplitUnwords([w, t]);
  }

  /** Parsing the written form of a command gives the command back. */
  lemma ParseShowCommand(c: Command)
    requires c.distance < USIZE_LIMIT
    ensures ParseCommand(ShowCommand(c)) == Ok(c)
  {
    var d := ShowNat(c.distance);
    DigitsAreWord(d);
    WordsOfPair(DirectionWord(c), d);
    ParseUsizeShowNat(c.distance);
  }

  /** A first word other than the three directions, followed by a valid distance, is refused. */
  lemma UnknownDirection(w: string, n: nat)
    requires IsWord(w) && !IsWhitespace(w[0]) && w !in {"forward", "down", "up"}
    requires n < USIZE_LIMIT
    ensures ParseCommand(Unwords([w, ShowNat(n)])) == Err("Invalid direction")
  {
    DigitsAreWord(ShowNat(n));
    WordsOfPair(w, ShowNat(n));
    ParseUsizeShowNat(n);
  }

  /** A direction with nothing after it has no distance. */
  lemma MissingDistance(w: string)
    requires IsWord(w) && !IsWhitespace(w[0]) && !IsWhitespace(w[|w| - 1])
    ensures ParseCommand(w) == Err("No distance")
  {
    TrimUnchanged(w);
    SplitUnwords([w]);
  }

  /** A second word that is not a `usize` is refused, whatever the first word is. */
  lemma InvalidDistance(w: string, t: string)
    requires IsWord(w) && IsWord(t) && !IsWhitespace(w[0]) && !IsWhitespace(t[|t| - 1])
    requires ParseUsize(t).None?
    ensures ParseCommand(Unwords([w, t])) == Err("Invalid distance")
  {
    WordsOfPair(w, t);
  }

  /** An empty line, or one made only of whitespace, has no direction word. */
  lemma BlankLine(line: string)
    requires forall k :: 0 <= k < |line| ==> IsWhitespace(line[k])
    ensures ParseCommand(line) == Err("No direction")
  {
    TrimBlank(line);
  }

  // ---------------------------------------------------------------- positions

  function ForwardAmount(c: Command): int { if c.Forward? then c.distance else 0 }
  function DownAmount(c: Command): int { if c.Down? then c.distance else 0 }
  function UpAmount(c: Command): int { if c.Up? then c.distance else 0 }

  /** Down minus up over the commands: the depth of the direct policy and the aim of the other. */
  function NetDown(cs: seq<Command>): int {
    SumBy(cs, DownAmount) - SumBy(cs, UpAmount)
  }

  /** No prefix of the commands rises above the surface. The source keeps depth and aim in
      `usize`, so a command list that breaks this makes `depth - v` or `aim - v` underflow. */
  ghost predicate StaysSubmerged(cs: seq<Command>) {
    forall k :: 0 <= k <= |cs| ==> NetDown(cs[..k]) >= 0
  }

  lemma SubmergedPrefix(cs: seq<Command>, n: nat)
    requires StaysSubmerged(cs) && n <= |cs|
    ensures StaysSubmerged(cs[..n])
  {
    forall k | 0 <= k <= n ensures NetDown(cs[..n][..k]) >= 0 {
      assert cs[..n][..k] == cs[..k];
    }
  }

  datatype Position = Position(horizontal: nat, depth: nat)

  /** `calculate_submarine_position`: forward moves ahead, down and up change depth. */
  function FinalPosition(cs: seq<Command>): (r: Position)
    requires StaysSubmerged(cs)
    ensures r.horizontal == SumBy(cs, ForwardAmount)
    ensures r.depth == NetDown(cs)
    decreases |cs|
  {
    if cs == [] then Position(0, 0)
    else
      var n := |cs|;
      SubmergedPrefix(cs, n - 1);
      assert cs[..n] == cs;
      var p := FinalPosition(cs[..n - 1]);
      match cs[n - 1]
      case Forward(v) => Position(p.horizontal + v, p.depth)
      case Down(v) => Position(p.horizontal, p.depth + v)
      case Up(v) => Position(p.horizontal, p.depth - v)
  }

  /** The state of the fold in `calculate_submarine_position_with_aim`. */
  datatype AimState = AimState(horizontal: nat, depth: nat, aim: nat)

  /** The depth the aim policy reaches: each forward move of `v` goes down by `v` times the
      net down of the commands before it. */
  function AimedDepth(cs: seq<Command>): int
    decreases |cs|
  {
    if cs == [] then 0
    else
      var init := cs[..|cs| - 1];
      AimedDepth(init) + NetDown(init) * ForwardAmount(cs[|cs| - 1])
  }

  function AimFold(cs: seq<Command>): (r: AimState)
    requires StaysSubmerged(cs)
    ensures r.horizontal == SumBy(cs, ForwardAmount)
    ensures r.aim == NetDown(cs)
    ensures r.depth == AimedDepth(cs)
    decreases |cs|
  {
    if cs == [] then AimState(0, 0, 0)
    else
      var n := |cs|;
      SubmergedPrefix(cs, n - 1);
      assert cs[..n] == cs;
      var s := AimFold(cs[..n - 1]);
      match cs[n - 1]
      case Forward(v) => AimState(s.horizontal + v, s.depth + s.aim * v, s.aim)
      case Down(v) => AimState(s.horizontal, s.depth, s.aim + v)
      case Up(v) => AimState(s.horizontal, s.depth, s.aim - v)
  }

  /** `calculate_submarine_position_with_aim`: the fold's position, the aim dropped. */
  function FinalPositionWithAim(cs: seq<Command>): (r: Position)
    requires StaysSubmerged(cs)
    ensures r.horizontal == SumBy(cs, ForwardAmount)
    ensures r.depth == AimedDepth(cs)
  {
    var s := AimFold(cs);
    Position(s.horizontal, s.depth)
  }

  /** One more command under the aim policy: down and up leave the horizontal position and
      the depth alone, forward leaves the aim alone and goes down by aim times the distance. */
  lemma AimStep(cs: seq<Command>, c: Command)
    requires StaysSubmerged(cs + [c])
    ensures StaysSubmerged(cs)
    ensures c.Forward? ==>
              AimFold(cs + [c]) == AimState(AimFold(cs).horizontal + c.distance,
                                            AimFold(cs).depth + AimFold(cs).aim * c.distance, AimFold(cs).aim)
    ensures c.Down? ==>
              AimFold(cs + [c]) == AimState(AimFold(cs).horizontal, AimFold(cs).depth, AimFold(cs).aim + c.distance)
    ensures c.Up? ==>
              AimFold(cs + [c]) == AimState(AimFold(cs).horizontal, AimFold(cs).depth, AimFold(cs).aim - c.distance)
  {
    SubmergedPrefix(cs + [c], |cs|);
    assert (cs + [c])[..|cs|] == cs;
  }

  lemma NetDownSnoc(cs: seq<Command>, c: Command)
    ensures NetDown(cs + [c]) == NetDown(cs) + DownAmount(c) - UpAmount(c)
  {
    assert (cs + [c])[..|cs|] == cs;
  }

  /** The worked example: forward 5, down 5, forward 8, up 3, down 8, forward 2
      ends 15 ahead at depth 10 directly, and at depth 60 with aim. */
  lemma Example()
    ensures var cs := [Forward(5), Down(5), Forward(8), Up(3), Down(8), Forward(2)];
      StaysSubmerged(cs)
      && FinalPosition(cs) == Position(15, 10)
      && FinalPositionWithAim(cs) == Position(15, 60)
  {
    var cs := [Forward(5), Down(5), Forward(8), Up(3), Down(8), Forward(2)];
    var ps := [cs[..0], cs[..1], cs[..2], cs[..3], cs[..4], cs[..5], cs[..6]];
    forall k | 0 <= k < 6 ensures ps[k + 1] == ps[k] + [cs[k]] && ps[k + 1][..k] == ps[k] {
      assert cs[..k + 1] == cs[..k] + [cs[k]];
    }
    assert NetDown(ps[0]) == 0;
    NetDownSnoc(ps[0], cs[0]);
    NetDownSnoc(ps[1], cs[1]);
    NetDownSnoc(ps[2], cs[2]);
    NetDownSnoc(ps[3], cs[3]);
    NetDownSnoc(ps[4], cs[4]);
    NetDownSnoc(ps[5], cs[5]);
    assert [NetDown(ps[0]), NetDown(ps[1]), NetDown(ps[2]), NetDown(ps[3]), NetDown(ps[4]), NetDown(ps[5]), NetDown(ps[6])]
        == [0, 0, 5, 5, 2, 10, 10];
    assert cs[..6] == cs;
    assert StaysSubmerged(cs);
    SubmergedPrefix(cs, 1);
    SubmergedPrefix(cs, 2);
    SubmergedPrefix(cs, 3);
    SubmergedPrefix(cs, 4);
    SubmergedPrefix(cs, 5);
    assert AimFold(ps[1]) == AimState(5, 0, 0);
    assert AimFold(ps[2]) == AimState(5, 0, 5);
    assert AimFold(ps[3]) == AimState(13, 40, 5);
    assert AimFold(ps[4]) == AimState(13, 40, 2);
    assert AimFold(ps[5]) == AimState(13, 40, 10);
    assert AimFold(cs) == AimState(15, 60, 10);
    assert FinalPosition(ps[1]) == Position(5, 0);
    assert FinalPosition(ps[2]) == Position(5, 5);
    assert FinalPosition(ps[3]) == Position(13, 5);
    assert FinalPosition(ps[4]) == Position(13, 2);
    assert FinalPosition(ps[5]) == Position(13, 10);
  }
}

/** Day 10 (src/d10.rs): a bracket-stack checker for navigation lines, the syntax-error score of
    corrupted lines and the base-5 completion score of incomplete ones. */
module D10 {
  import opened Common
  import opened Seqs

  // ---------------------------------------------------------------- brackets

  predicate IsOpener(c: char) {
    c == '(' || c == '[' || c == '{' || c == '<'
  }

  predicate IsCloser(c: char) {
    c == ')' || c == ']' || c == '}' || c == '>'
  }

  /** The closer an opener pushes onto the stack of expected closers. */
  function Closer(c: char): (r: char)
    requires IsOpener(c)
    ensures IsCloser(r)
  {
    match c
    case '(' => ')'
    case '[' => ']'
    case '{' => '}'
    case _ => '>'
  }

  /** `char_to_score`: the syntax-error points of a corrupted closer. */
  function CharToScore(c: char): nat {
    match c
    case ')' => 3
    case ']' => 57
    case '}' => 1197
    case '>' => 25137
    case _ => 0
  }

  lemma CharToScoreOfClosers(c: char)
    ensures CharToScore(c) > 0 <==> IsCloser(c)
    ensures CharToScore(c) <= 25137
  {
  }

  // ---------------------------------------------------------------- the stack machine

  /** One character of the loop of `find_corrupted_char` / `analyze_chars`: an opener pushes its
      closer; a closer pops the top and fails when the top is a different closer, and is ignored
      on an empty stack; any other character is ignored. */
  function Step(stack: seq<char>, c: char): Result<seq<char>, char> {
    if IsOpener(c) then Ok(stack + [Closer(c)])
    else if IsCloser(c) then
      if stack == [] then Ok(stack)
      else if stack[|stack| - 1] != c then Err(c)
      else Ok(stack[..|stack| - 1])
    else Ok(stack)
  }

  /** The machine run over `chars` from `stack`, stopping at the first failure. */
  function AnalyzeFrom(stack: seq<char>, chars: seq<char>): Result<seq<char>, char>
    decreases |chars|
  {
    if chars == [] then Ok(stack)
    else match AnalyzeFrom(stack, chars[..|chars| - 1])
      case Err(c) => Err(c)
      case Ok(s) => Step(s, chars[|chars| - 1])
  }

  /** `analyze_chars` as a function: `Err` with the corrupted closer, or `Ok` with the stack. */
  function Analyze(chars: seq<char>): Result<seq<char>, char> {
    AnalyzeFrom([], chars)
  }

  /** Continuing a run on more characters. */
  function Then(r: Result<seq<char>, char>, chars: seq<char>): Result<seq<char>, char> {
    match r
    case Err(c) => Err(c)
    case Ok(s) => AnalyzeFrom(s, chars)
  }

  lemma {:induction false} AnalyzeFromConcat(stack: seq<char>, a: seq<char>, b: seq<char>)
    ensures AnalyzeFrom(stack, a + b) == Then(AnalyzeFrom(stack, a), b)
    decreases |b|
  {
    if b == [] {
      assert a + b == a;
    } else {
      assert (a + b)[..|a + b| - 1] == a + b[..|b| - 1];
      AnalyzeFromConcat(stack, a, b[..|b| - 1]);
    }
  }

  lemma AnalyzeSnoc(chars: seq<char>, c: char)
    ensures Analyze(chars + [c]) == Then(Analyze(chars), [c])
  {
    AnalyzeFromConcat([], chars, [c]);
  }

  /** Once a prefix fails, the whole line fails with the same closer. */
  lemma ErrorPersists(chars: seq<char>, i: nat)
    requires i <= |chars| && Analyze(chars[..i]).Err?
    ensures Analyze(chars) == Analyze(chars[..i])
  {
    AnalyzeFromConcat([], chars[..i], chars[i..]);
    assert chars[..i] + chars[i..] == chars;
  }

  predicate AllClosers(s: seq<char>) {
    forall k :: 0 <= k < |s| ==> IsCloser(s[k])
  }

  /** The stack only ever holds closers. */
  lemma {:induction false} StackOfClosers(stack: seq<char>, chars: seq<char>)
    requires AllClosers(stack) && AnalyzeFrom(stack, chars).Ok?
    ensures AllClosers(AnalyzeFrom(stack, chars).value)
    decreases |chars|
  {
    if chars != [] {
      StackOfClosers(stack, chars[..|chars| - 1]);
    }
  }

  /** A corrupted line fails at some position `i`: the line is fine up to there, and the closer at
      `i` differs from the popped expectation; the reported character is that closer. */
  lemma {:induction false} CorruptedAt(chars: seq<char>) returns (i: nat, s: seq<char>)
    requires Analyze(chars).Err?
    ensures i < |chars| && Analyze(chars[..i]) == Ok(s)
    ensures IsCloser(chars[i]) && s != [] && s[|s| - 1] != chars[i]
    ensures Analyze(chars) == Err(chars[i])
    decreases |chars|
  {
    var init := chars[..|chars| - 1];
    if Analyze(init).Err? {
      i, s := CorruptedAt(init);
      assert chars[..i] == init[..i];
    } else {
      i, s := |chars| - 1, Analyze(init).value;
      assert chars[..i] == init;
    }
  }

  lemma CorruptedIsCloser(chars: seq<char>)
    requires Analyze(chars).Err?
    ensures IsCloser(Analyze(chars).error)
  {
    var i, s := CorruptedAt(chars);
  }

  /** Characters that are not brackets, and closers arriving on an empty stack, change nothing. */
  lemma Ignored(chars: seq<char>, c: char)
    requires Analyze(chars).Ok?
    requires (!IsOpener(c) && !IsCloser(c)) || (IsCloser(c) && Analyze(chars).value == [])
    ensures Analyze(chars + [c]) == Analyze(chars)
  {
    AnalyzeSnoc(chars, c);
  }

  // ---------------------------------------------------------------- well-nested chunks

  /** A chunk: an opener, the chunks inside it, and the matching closer. */
  datatype Chunk = Chunk(open: char, inner: seq<Chunk>)

  predicate ValidChunk(ch: Chunk)
    decreases ch
  {
    IsOpener(ch.open) && forall k :: 0 <= k < |ch.inner| ==> ValidChunk(ch.inner[k])
  }

  predicate ValidChunks(chs: seq<Chunk>) {
    forall k :: 0 <= k < |chs| ==> ValidChunk(chs[k])
  }

  function RenderChunk(ch: Chunk): seq<char>
    requires ValidChunk(ch)
    decreases ch, 1
  {
    [ch.open] + Render(ch.inner) + [Closer(ch.open)]
  }

  /** The characters of a sequence of chunks, one after the other. */
  function Render(chs: seq<Chunk>): seq<char>
    requires ValidChunks(chs)
    decreases chs, 0
  {
    if chs == [] then [] else Render(chs[..|chs| - 1]) + RenderChunk(chs[|chs| - 1])
  }

  lemma {:induction false} RenderChunkBalanced(stack: seq<char>, ch: Chunk)
    requires ValidChunk(ch)
    ensures AnalyzeFrom(stack, RenderChunk(ch)) == Ok(stack)
    decreases ch, 1
  {
    var o, cl := ch.open, Closer(ch.open);
    assert AnalyzeFrom(stack, [o]) == Ok(stack + [cl]) by {
      assert [o][..0] == [];
    }
    RenderBalanced(stack + [cl], ch.inner);
    assert AnalyzeFrom(stack + [cl], [cl]) == Ok(stack) by {
      assert [cl][..0] == [];
      assert (stack + [cl])[..|stack|] == stack;
    }
    AnalyzeFromConcat(stack, [o], Render(ch.inner));
    AnalyzeFromConcat(stack, [o] + Render(ch.inner), [cl]);
  }

  /** Well-nested chunks leave the stack as they found it. */
  lemma {:induction false} RenderBalanced(stack: seq<char>, chs: seq<Chunk>)
    requires ValidChunks(chs)
    ensures AnalyzeFrom(stack, Render(chs)) == Ok(stack)
    decreases chs, 0
  {
    if chs != [] {
      var init := chs[..|chs| - 1];
      assert ValidChunks(init);
      RenderBalanced(stack, init);
      RenderChunkBalanced(stack, chs[|chs| - 1]);
      AnalyzeFromConcat(stack, Render(init), RenderChunk(chs[|chs| - 1]));
    }
  }

  /** A well-nested line is not corrupted and needs no completion. */
  lemma WellNestedLine(chs: seq<Chunk>)
    requires ValidChunks(chs)
    ensures Analyze(Render(chs)) == Ok([])
  {
    RenderBalanced([], chs);
  }

  /** A line whose openers `opens` are left unclosed: well-nested groups of chunks between them. */
  function UnclosedLine(opens: seq<char>, groups: seq<seq<Chunk>>): seq<char>
    requires |groups| == |opens| + 1
    requires forall k :: 0 <= k < |opens| ==> IsOpener(opens[k])
    requires forall k :: 0 <= k < |groups| ==> ValidChunks(groups[k])
    decreases |opens|
  {
    if opens == [] then Render(groups[0])
    else UnclosedLine(opens[..|opens| - 1], groups[..|opens|]) + [opens[|opens| - 1]] + Render(groups[|opens|])
  }

  function ClosersOf(opens: seq<char>): (r: seq<char>)
    requires forall k :: 0 <= k < |opens| ==> IsOpener(opens[k])
    ensures |r| == |opens| && AllClosers(r)
  {
    seq(|opens|, k requires 0 <= k < |opens| => Closer(opens[k]))
  }

  /** The stack of an incomplete line holds the closers of its unmatched openers, bottom to top
      in the order they were opened. */
  lemma {:induction false} UnclosedStack(opens: seq<char>, groups: seq<seq<Chunk>>)
    requires |groups| == |opens| + 1
    requires forall k :: 0 <= k < |opens| ==> IsOpener(opens[k])
    requires forall k :: 0 <= k < |groups| ==> ValidChunks(groups[k])
    ensures Analyze(UnclosedLine(opens, groups)) == Ok(ClosersOf(opens))
    decreases |opens|
  {
    if opens == [] {
      RenderBalanced([], groups[0]);
    } else {
      var n := |opens|;
      var o := opens[n - 1];
      var init, first := opens[..n - 1], groups[..n];
      assert forall k :: 0 <= k < |init| ==> init[k] == opens[k];
      assert forall k :: 0 <= k < |first| ==> first[k] == groups[k];
      var before := UnclosedLine(init, first);
      UnclosedStack(init, first);
      var s := ClosersOf(init);
      assert AnalyzeFrom(s, [o]) == Ok(s + [Closer(o)]) by {
        assert [o][..0] == [];
      }
      AnalyzeFromConcat([], before, [o]);
      RenderBalanced(s + [Closer(o)], groups[n]);
      AnalyzeFromConcat([], before + [o], Render(groups[n]));
      ClosersOfSnoc(opens);
    }
  }

  lemma ClosersOfSnoc(opens: seq<char>)
    requires opens != [] && forall k :: 0 <= k < |opens| ==> IsOpener(opens[k])
    ensures ClosersOf(opens) == ClosersOf(opens[..|opens| - 1]) + [Closer(opens[|opens| - 1])]
  {
  }

  function Reverse(s: seq<char>): (r: seq<char>)
    ensures |r| == |s| && forall k :: 0 <= k < |s| ==> r[k] == s[|s| - 1 - k]
    decreases |s|
  {
    if s == [] then [] else [s[|s| - 1]] + Reverse(s[..|s| - 1])
  }

  /** Popping the stack from the top gives the closers that complete the line. */
  lemma {:induction false} CompletionCloses(stack: seq<char>)
    requires AllClosers(stack)
    ensures AnalyzeFrom(stack, Reverse(stack)) == Ok([])
    decreases |stack|
  {
    if stack != [] {
      var top, rest := stack[|stack| - 1], stack[..|stack| - 1];
      assert AnalyzeFrom(stack, [top]) == Ok(rest) by {
        assert [top][..0] == [];
      }
      CompletionCloses(rest);
      AnalyzeFromConcat(stack, [top], Reverse(rest));
    }
  }

  lemma Completion(chars: seq<char>)
    requires Analyze(chars).Ok?
    ensures Analyze(chars + Reverse(Analyze(chars).value)) == Ok([])
  {
    var s := Analyze(chars).value;
    StackOfClosers([], chars);
    CompletionCloses(s);
    AnalyzeFromConcat([], chars, Reverse(s));
  }

  // ---------------------------------------------------------------- the two scans

  /** `find_corrupted_char`: the first closer that does not match, if any. */
  method FindCorruptedChar(chars: seq<char>) returns (r: Option<char>)
    ensures r.Some? <==> Analyze(chars).Err?
    ensures r.Some? ==> Analyze(chars) == Err(r.value)
  {
    var expectedClosingChars: seq<char> := [];
    for i := 0 to |chars|
      invariant Analyze(chars[..i]) == Ok(expectedClosingChars)
    {
      var c := chars[i];
      assert chars[..i + 1] == chars[..i] + [c];
      AnalyzeSnoc(chars[..i], c);
      assert [c][..0] == [];
      match c {
        case '(' => expectedClosingChars := expectedClosingChars + [')'];
        case '[' => expectedClosingChars := expectedClosingChars + [']'];
        case '{' => expectedClosingChars := expectedClosingChars + ['}'];
        case '<' => expectedClosingChars := expectedClosingChars + ['>'];
        case ')' | ']' | '}' | '>' =>
          if expectedClosingChars != [] {
            var e := expectedClosingChars[|expectedClosingChars| - 1];
            expectedClosingChars := expectedClosingChars[..|expectedClosingChars| - 1];
            if e != c {
              ErrorPersists(chars, i + 1);
              return Some(c);
            }
          }
        case _ =>
      }
    }
    assert chars[..|chars|] == chars;
    return None;
  }

  /** `analyze_chars`: the corrupted closer, or the stack of expected closers. */
  method AnalyzeChars(chars: seq<char>) returns (r: Result<seq<char>, char>)
    ensures r == Analyze(chars)
  {
    var expectedClosingChars: seq<char> := [];
    for i := 0 to |chars|
      invariant Analyze(chars[..i]) == Ok(expectedClosingChars)
    {
      var c := chars[i];
      assert chars[..i + 1] == chars[..i] + [c];
      AnalyzeSnoc(chars[..i], c);
      assert [c][..0] == [];
      match c {
        case '(' => expectedClosingChars := expectedClosingChars + [')'];
        case '[' => expectedClosingChars := expectedClosingChars + [']'];
        case '{' => expectedClosingChars := expectedClosingChars + ['}'];
        case '<' => expectedClosingChars := expectedClosingChars + ['>'];
        case ')' | ']' | '}' | '>' =>
          if expectedClosingChars != [] {
            var e := expectedClosingChars[|expectedClosingChars| - 1];
            expectedClosingChars := expectedClosingChars[..|expectedClosingChars| - 1];
            if e != c {
              ErrorPersists(chars, i + 1);
              return Err(c);
            }
          }
        case _ =>
      }
    }
    assert chars[..|chars|] == chars;
    return Ok(expectedClosingChars);
  }

  // ---------------------------------------------------------------- part 1

  /** The points of one line: those of its corrupted closer, or 0. */
  function LineErrorScore(chars: seq<char>): int {
    match Analyze(chars)
    case Err(c) => CharToScore(c)
    case Ok(_) => 0
  }

  /** `calculate_corrupted_chars`: the sum over all lines, between 0 and 25137 a line, and 0
      when no line is corrupted. */
  function CalculateCorruptedChars(data: seq<seq<char>>): (r: int)
    ensures 0 <= r <= 25137 * |data|
    ensures (forall k :: 0 <= k < |data| ==> Analyze(data[k]).Ok?) ==> r == 0
  {
    CorruptedCharsBounds(data);
    SumBy(data, LineErrorScore)
  }

  /** Each line adds one of 0, 3, 57, 1197 and 25137, and a line that is not corrupted adds 0. */
  lemma LineErrorScoreValues(chars: seq<char>)
    ensures LineErrorScore(chars) in {0, 3, 57, 1197, 25137}
    ensures Analyze(chars).Ok? ==> LineErrorScore(chars) == 0
    ensures Analyze(chars).Err? ==> LineErrorScore(chars) > 0
  {
    if Analyze(chars).Err? {
      CorruptedIsCloser(chars);
    }
  }

  lemma {:induction false} CorruptedCharsBounds(data: seq<seq<char>>)
    ensures 0 <= SumBy(data, LineErrorScore) <= 25137 * |data|
    ensures (forall k :: 0 <= k < |data| ==> Analyze(data[k]).Ok?) ==> SumBy(data, LineErrorScore) == 0
    decreases |data|
  {
    if data != [] {
      var init := data[..|data| - 1];
      CorruptedCharsBounds(init);
      LineErrorScoreValues(data[|data| - 1]);
      assert SumBy(data, LineErrorScore) == SumBy(init, LineErrorScore) + LineErrorScore(data[|data| - 1]);
      if forall k :: 0 <= k < |data| ==> Analyze(data[k]).Ok? {
        assert forall k :: 0 <= k < |init| ==> Analyze(init[k]).Ok? by {
          assert forall k :: 0 <= k < |init| ==> init[k] == data[k];
        }
      }
    }
  }

  /** The total does not depend on the order of the lines. */
  lemma CorruptedCharsOrderFree(a: seq<seq<char>>, b: seq<seq<char>>)
    requires multiset(a) == multiset(b)
    ensures CalculateCorruptedChars(a) == CalculateCorruptedChars(b)
  {
    SumByPermutation(a, b, LineErrorScore);
  }

  // ---------------------------------------------------------------- part 2

  function ClosingPoints(c: char): nat {
    match c
    case ')' => 1
    case ']' => 2
    case '}' => 3
    case '>' => 4
    case _ => 0
  }

  /** The completion score of a stack: the closers read from the top, each step multiplying by 5
      and adding the closer's points; the bottom closer is the lowest base-5 digit. */
  function StackScore(stack: seq<char>): nat
    decreases |stack|
  {
    if stack == [] then 0 else ClosingPoints(stack[0]) + 5 * StackScore(stack[1..])
  }

  /** `calculate_score`: pops the stack from the top until it is empty. */
  method CalculateScore(input: seq<char>) returns (totalScore: nat)
    ensures totalScore == StackScore(input)
  {
    totalScore := 0;
    var rest := input;
    while rest != []
      invariant rest == input[..|rest|]
      invariant totalScore == StackScore(input[|rest|..])
      decreases |rest|
    {
      var x := rest[|rest| - 1];
      rest := rest[..|rest| - 1];
      totalScore := totalScore * 5;
      match x {
        case ')' => totalScore := totalScore + 1;
        case ']' => totalScore := totalScore + 2;
        case '}' => totalScore := totalScore + 3;
        case '>' => totalScore := totalScore + 4;
        case _ =>
      }
      assert input[|rest|..][1..] == input[|rest| + 1..];
    }
  }

  /** A stack of closers scores 0 exactly when it is empty, and its score gives it back: the
      lowest base-5 digit is the bottom closer and the rest is the score of the stack above it. */
  lemma StackScoreDigits(stack: seq<char>)
    requires AllClosers(stack)
    ensures StackScore(stack) == 0 <==> stack == []
    ensures stack != [] ==> StackScore(stack) % 5 == ClosingPoints(stack[0])
    ensures stack != [] ==> StackScore(stack) / 5 == StackScore(stack[1..])
  {
  }

  /** Different stacks of closers score differently. */
  lemma {:induction false} StackScoreInjective(a: seq<char>, b: seq<char>)
    requires AllClosers(a) && AllClosers(b) && StackScore(a) == StackScore(b)
    ensures a == b
    decreases |a|
  {
    StackScoreDigits(a);
    StackScoreDigits(b);
    if a != [] {
      assert AllClosers(a[1..]) && AllClosers(b[1..]);
      StackScoreInjective(a[1..], b[1..]);
      assert a == [a[0]] + a[1..] && b == [b[0]] + b[1..];
    }
  }

  /** The score of a line that is not corrupted; nothing for a corrupted one. */
  function LineCompletion(line: seq<char>): (r: seq<nat>)
    ensures |r| <= 1
  {
    match Analyze(line)
    case Ok(s) => [StackScore(s)]
    case Err(_) => []
  }

  /** The scores of the lines that are not corrupted, in order. */
  function CompletionScores(data: seq<seq<char>>): (r: seq<nat>)
    ensures |r| <= |data|
    decreases |data|
  {
    if data == [] then [] else CompletionScores(data[..|data| - 1]) + LineCompletion(data[|data| - 1])
  }

  lemma {:induction false} CompletionScoresNonEmpty(data: seq<seq<char>>, k: nat)
    requires k < |data| && Analyze(data[k]).Ok?
    ensures CompletionScores(data) != []
    decreases |data|
  {
    if k < |data| - 1 {
      CompletionScoresNonEmpty(data[..|data| - 1], k);
    }
  }

  /** A balanced line joins the list with score 0. */
  lemma BalancedLineScoresZero(data: seq<seq<char>>, line: seq<char>)
    requires Analyze(line) == Ok([])
    ensures CompletionScores(data + [line]) == CompletionScores(data) + [0]
  {
    assert (data + [line])[..|data|] == data;
  }

  /** `find_middle_completions_score`: the middle of the sorted completion scores. */
  method FindMiddleCompletionsScore(data: seq<seq<char>>) returns (r: nat)
    requires exists k :: 0 <= k < |data| && Analyze(data[k]).Ok?
    ensures CompletionScores(data) != []
    ensures r == SortAscending(CompletionScores(data))[|CompletionScores(data)| / 2]
  {
    var scores: seq<nat> := [];
    for i := 0 to |data|
      invariant scores == CompletionScores(data[..i])
    {
      var row := data[i];
      assert data[..i + 1][..i] == data[..i];
      var analysis := AnalyzeChars(row);
      match analysis {
        case Ok(xs) =>
          var score := CalculateScore(xs);
          scores := scores + [score];
        case Err(_) =>
      }
    }
    assert data[..|data|] == data;
    var k :| 0 <= k < |data| && Analyze(data[k]).Ok?;
    CompletionScoresNonEmpty(data, k);
    var index := |scores| / 2;
    scores := SortAscending(scores);
    r := scores[index];
  }

  function AtMost(r: nat): nat -> int {
    x => if x <= r then 1 else 0
  }

  function AtLeast(r: nat): nat -> int {
    x => if x >= r then 1 else 0
  }

  lemma {:induction false} CountAll(s: seq<nat>, f: nat -> int)
    requires forall k :: 0 <= k < |s| ==> f(s[k]) == 1
    ensures SumBy(s, f) == |s|
    decreases |s|
  {
    if s != [] {
      CountAll(s[..|s| - 1], f);
    }
  }

  lemma {:induction false} CountNonNegative(s: seq<nat>, f: nat -> int)
    requires forall x :: 0 <= f(x) <= 1
    ensures SumBy(s, f) >= 0
    decreases |s|
  {
    if s != [] {
      CountNonNegative(s[..|s| - 1], f);
    }
  }

  /** In an ascending sequence the first `i + 1` elements are at most the `i`-th. */
  lemma CountBelow(sorted: seq<nat>, i: nat)
    requires i < |sorted| && forall a, b :: 0 <= a < b < |sorted| ==> sorted[a] <= sorted[b]
    ensures SumBy(sorted, AtMost(sorted[i])) > i
  {
    var m := sorted[i];
    assert sorted == sorted[..i + 1] + sorted[i + 1..];
    SumByConcat(sorted[..i + 1], sorted[i + 1..], AtMost(m));
    CountAll(sorted[..i + 1], AtMost(m));
    CountNonNegative(sorted[i + 1..], AtMost(m));
  }

  /** In an ascending sequence the elements from the `i`-th on are at least the `i`-th. */
  lemma CountAbove(sorted: seq<nat>, i: nat)
    requires i < |sorted| && forall a, b :: 0 <= a < b < |sorted| ==> sorted[a] <= sorted[b]
    ensures SumBy(sorted, AtLeast(sorted[i])) >= |sorted| - i
  {
    var m := sorted[i];
    assert sorted == sorted[..i] + sorted[i..];
    SumByConcat(sorted[..i], sorted[i..], AtLeast(m));
    CountAll(sorted[i..], AtLeast(m));
    CountNonNegative(sorted[..i], AtLeast(m));
  }

  /** The middle of the sorted scores is a median: more than half of the scores are at most it,
      and at least half are at least it. */
  lemma MiddleIsMedian(scores: seq<nat>)
    requires scores != []
    ensures var m := SortAscending(scores)[|scores| / 2];
      && m in scores
      && SumBy(scores, AtMost(m)) > |scores| / 2
      && SumBy(scores, AtLeast(m)) >= |scores| - |scores| / 2
  {
    var sorted := SortAscending(scores);
    var i := |scores| / 2;
    var m := sorted[i];
    assert m in multiset(sorted);
    CountBelow(sorted, i);
    CountAbove(sorted, i);
    SumByPermutation(scores, sorted, AtMost(m));
    SumByPermutation(scores, sorted, AtLeast(m));
  }

  // ---------------------------------------------------------------- an example line

  lemma UnclosedLinePrefix(opens: seq<char>, groups: seq<seq<Chunk>>, n: nat)
    requires n < |opens| && |groups| == |opens| + 1
    requires forall k :: 0 <= k < |opens| ==> IsOpener(opens[k])
    requires forall k :: 0 <= k < |groups| ==> ValidChunks(groups[k])
    ensures UnclosedLine(opens[..n + 1], groups[..n + 2]) ==
              UnclosedLine(opens[..n], groups[..n + 1]) + [opens[n]] + Render(groups[n + 1])
  {
    assert opens[..n + 1][..n] == opens[..n];
    assert groups[..n + 2][..n + 1] == groups[..n + 1];
  }

  const PARENS := Chunk('(', [])
  const SQUARE := Chunk('[', [])
  const EXAMPLE_OPENS := "[({([[{{"
  const EXAMPLE_GROUPS: seq<seq<Chunk>> :=
    [[], [], [], [], [Chunk('<', [Chunk('(', [PARENS]), SQUARE])], [], [], [SQUARE],
     [Chunk('<', [PARENS, Chunk('<', [])])]]

  lemma ExampleGroups()
    ensures ValidChunks(EXAMPLE_GROUPS[4]) && Render(EXAMPLE_GROUPS[4]) == "<(())[]>"
    ensures ValidChunks(EXAMPLE_GROUPS[7]) && Render(EXAMPLE_GROUPS[7]) == "[]"
    ensures ValidChunks(EXAMPLE_GROUPS[8]) && Render(EXAMPLE_GROUPS[8]) == "<()<>>"
  {
    assert Render([PARENS]) == "()" by { assert [PARENS][..0] == []; }
    assert RenderChunk(Chunk('(', [PARENS])) == "(())";
    assert Render([Chunk('(', [PARENS]), SQUARE]) == "(())[]" by {
      assert [Chunk('(', [PARENS]), SQUARE][..1] == [Chunk('(', [PARENS])];
      assert [Chunk('(', [PARENS])][..0] == [];
    }
    assert EXAMPLE_GROUPS[4][..0] == [];
    assert EXAMPLE_GROUPS[7][..0] == [];
    assert Render([PARENS, Chunk('<', [])]) == "()<>" by {
      assert [PARENS, Chunk('<', [])][..1] == [PARENS];
      assert [PARENS][..0] == [];
    }
    assert EXAMPLE_GROUPS[8][..0] == [];
  }

  lemma ExampleGroupsValid()
    ensures forall k :: 0 <= k < |EXAMPLE_GROUPS| ==> ValidChunks(EXAMPLE_GROUPS[k])
  {
    ExampleGroups();
  }

  lemma ExampleLineFront()
    ensures forall k :: 0 <= k < |EXAMPLE_GROUPS| ==> ValidChunks(EXAMPLE_GROUPS[k])
    ensures UnclosedLine(EXAMPLE_OPENS[..4], EXAMPLE_GROUPS[..5]) == "[({(<(())[]>"
  {
    var opens, groups := EXAMPLE_OPENS, EXAMPLE_GROUPS;
    ExampleGroupsValid();
    ExampleGroups();
    assert UnclosedLine(opens[..0], groups[..1]) == [];
    UnclosedLinePrefix(opens, groups, 0);
    UnclosedLinePrefix(opens, groups, 1);
    UnclosedLinePrefix(opens, groups, 2);
    UnclosedLinePrefix(opens, groups, 3);
  }

  lemma ExampleLineMiddle()
    ensures forall k :: 0 <= k < |EXAMPLE_GROUPS| ==> ValidChunks(EXAMPLE_GROUPS[k])
    ensures UnclosedLine(EXAMPLE_OPENS[..6], EXAMPLE_GROUPS[..7]) == "[({(<(())[]>[["
  {
    var opens, groups := EXAMPLE_OPENS, EXAMPLE_GROUPS;
    ExampleLineFront();
    UnclosedLinePrefix(opens, groups, 4);
    UnclosedLinePrefix(opens, groups, 5);
  }

  lemma ExampleLine()
    ensures forall k :: 0 <= k < |EXAMPLE_GROUPS| ==> ValidChunks(EXAMPLE_GROUPS[k])
    ensures UnclosedLine(EXAMPLE_OPENS, EXAMPLE_GROUPS) == "[({(<(())[]>[[{[]{<()<>>"
  {
    var opens, groups := EXAMPLE_OPENS, EXAMPLE_GROUPS;
    ExampleLineMiddle();
    ExampleGroups();
    UnclosedLinePrefix(opens, groups, 6);
    UnclosedLinePrefix(opens, groups, 7);
    assert opens[..8] == opens && groups[..9] == groups;
  }

  lemma ExampleScore()
    ensures Reverse("])})]]}}") == "}}]])})]"
    ensures StackScore("])})]]}}") == 288957
  {
    var stack := "])})]]}}";
    assert StackScore(stack[7..]) == 3;
    assert StackScore(stack[6..]) == 18 by { assert stack[6..][1..] == stack[7..]; }
    assert StackScore(stack[5..]) == 92 by { assert stack[5..][1..] == stack[6..]; }
    assert StackScore(stack[4..]) == 462 by { assert stack[4..][1..] == stack[5..]; }
    assert StackScore(stack[3..]) == 2311 by { assert stack[3..][1..] == stack[4..]; }
    assert StackScore(stack[2..]) == 11558 by { assert stack[2..][1..] == stack[3..]; }
    assert StackScore(stack[1..]) == 57791 by { assert stack[1..][1..] == stack[2..]; }
    assert stack[0..] == stack;
  }

  /** An incomplete line of the puzzle statement: its expected closers, the completion, and the
      completion's score. */
  lemma ExampleIncomplete()
    ensures Analyze("[({(<(())[]>[[{[]{<()<>>") == Ok("])})]]}}")
    ensures Reverse("])})]]}}") == "}}]])})]"
    ensures StackScore("])})]]}}") == 288957
  {
    ExampleLine();
    UnclosedStack(EXAMPLE_OPENS, EXAMPLE_GROUPS);
    assert ClosersOf(EXAMPLE_OPENS) == "])})]]}}";
    ExampleScore();
  }
}

/** Day 8 (src/d08.rs): decoding scrambled seven-segment displays. Each entry lists the
    ten digit patterns of one display, wired in an unknown order, and the four patterns shown. */
module D08 {
  import opened Common
  import opened Text
  import opened Seqs

  /** The lit wires of one digit, in any order. */
  type Pattern = seq<char>

  datatype Entry = Entry(test: seq<Pattern>, output: seq<Pattern>)

  const SEPARATOR: string := " | "
  const DIGITS: nat := 10

  // ---------------------------------------------------------------- parsing

  /** `Entry::from_str`: the words before the first `" | "` are the test patterns and the words
      after it the output. It never returns an error; without a separator the second `unwrap`
      panics, hence the precondition. */
  function ParseEntry(s: string): (e: Entry)
    requires SplitOnce(s, SEPARATOR).Some?
    ensures forall k :: 0 <= k < |e.test| ==> IsWord(e.test[k])
    ensures forall k :: 0 <= k < |e.output| ==> IsWord(e.output[k])
  {
    var halves := SplitOnce(s, SEPARATOR).value;
    Entry(SplitAsciiWhitespace(halves.0), SplitAsciiWhitespace(halves.1))
  }

  /** A pattern that can be written on an input line: a word without a bar. */
  predicate Printable(p: Pattern) {
    IsWord(p) && '|' !in p
  }

  function ShowEntry(e: Entry): string {
    Unwords(e.test) + SEPARATOR + Unwords(e.output)
  }

  /** Writing an entry as an input line and parsing it gives the entry back. */
  lemma ParseShowEntry(e: Entry)
    requires forall k :: 0 <= k < |e.test| ==> Printable(e.test[k])
    requires forall k :: 0 <= k < |e.output| ==> Printable(e.output[k])
    ensures SplitOnce(ShowEntry(e), SEPARATOR).Some?
    ensures ParseEntry(ShowEntry(e)) == e
  {
    UnwordsWithout(e.test, '|');
    SplitOnceConcatSecond(Unwords(e.test), SEPARATOR, Unwords(e.output));
    SplitUnwords(e.test);
    SplitUnwords(e.output);
  }

  // ---------------------------------------------------------------- part 1

  /** Only the digits 1, 7, 4 and 8 light two, three, four and seven segments. */
  predicate HasUniqueLength(p: Pattern) {
    |p| == 2 || |p| == 3 || |p| == 4 || |p| == 7
  }

  /** The `filter(..).collect().len()` over one entry's output. */
  function CountUniqueLengths(patterns: seq<Pattern>): (n: nat)
    ensures n <= |patterns|
    decreases |patterns|
  {
    if patterns == [] then 0
    else
      var last := patterns[|patterns| - 1];
      CountUniqueLengths(patterns[..|patterns| - 1]) + (if HasUniqueLength(last) then 1 else 0)
  }

  ghost function UniqueLengthPositions(patterns: seq<Pattern>): set<nat> {
    set k: nat | k < |patterns| && HasUniqueLength(patterns[k])
  }

  lemma {:induction false} CountUniqueLengthsIsCount(patterns: seq<Pattern>)
    ensures CountUniqueLengths(patterns) == |UniqueLengthPositions(patterns)|
    decreases |patterns|
  {
    if patterns == [] {
      assert UniqueLengthPositions(patterns) == {};
    } else {
      var n := |patterns|;
      var init := patterns[..n - 1];
      CountUniqueLengthsIsCount(init);
      if HasUniqueLength(patterns[n - 1]) {
        assert UniqueLengthPositions(patterns) == UniqueLengthPositions(init) + {n - 1};
      } else {
        assert UniqueLengthPositions(patterns) == UniqueLengthPositions(init);
      }
    }
  }

  /** Every output pattern of every entry, entry after entry. */
  function AllOutputs(data: seq<Entry>): seq<Pattern>
    decreases |data|
  {
    if data == [] then [] else AllOutputs(data[..|data| - 1]) + data[|data| - 1].output
  }

  /** `calculate_known_digits`: the outputs of every entry that have a unique length, so no
      more than there are outputs. */
  function CalculateKnownDigits(data: seq<Entry>): (n: nat)
    ensures n <= |AllOutputs(data)|
    decreases |data|
  {
    if data == [] then 0
    else CalculateKnownDigits(data[..|data| - 1]) + CountUniqueLengths(data[|data| - 1].output)
  }

  lemma {:induction false} CountUniqueLengthsAppend(a: seq<Pattern>, b: seq<Pattern>)
    ensures CountUniqueLengths(a + b) == CountUniqueLengths(a) + CountUniqueLengths(b)
    decreases |b|
  {
    if b != [] {
      var init := b[..|b| - 1];
      CountUniqueLengthsAppend(a, init);
      assert (a + b)[..|a + b| - 1] == a + init;
    } else {
      assert a + b == a;
    }
  }

  /** Summing entry by entry counts the same patterns as one pass over all the outputs. */
  lemma {:induction false} CalculateKnownDigitsIsOutputCount(data: seq<Entry>)
    ensures CalculateKnownDigits(data) == CountUniqueLengths(AllOutputs(data))
    decreases |data|
  {
    if data != [] {
      CalculateKnownDigitsIsOutputCount(data[..|data| - 1]);
      CountUniqueLengthsAppend(AllOutputs(data[..|data| - 1]), data[|data| - 1].output);
    }
  }

  // ---------------------------------------------------------------- the operations on patterns

  /** The set of wires a pattern lights. */
  function Chars(p: Pattern): (r: set<char>)
    ensures forall c :: c in r <==> c in p
  {
    set k | 0 <= k < |p| :: p[k]
  }

  /** `are_patterns_equal`: the same wires, whatever their order or repetition. */
  function PatternsEqual(a: Pattern, b: Pattern): (r: bool)
    ensures r <==> forall c :: c in a <==> c in b
  {
    Chars(a) == Chars(b)
  }

  /** Pattern equality is an equivalence that ignores the order and repetition of wires. */
  lemma PatternsEqualProperties(a: Pattern, b: Pattern, c: Pattern)
    ensures PatternsEqual(a, a)
    ensures PatternsEqual(a, b) == PatternsEqual(b, a)
    ensures PatternsEqual(a, b) && PatternsEqual(b, c) ==> PatternsEqual(a, c)
    ensures PatternsEqual(a + b, b + a)
    ensures a != [] ==> PatternsEqual(a, a + [a[0]])
  {
  }

  /** The characters of `from` that `input` lacks, counted with repetition: the length of the
      `filter(|x| !input.contains(x))` collections of `is_three`, `is_five`, `is_nine` and `is_six`. */
  function MissingCount(from: Pattern, input: Pattern): (n: nat)
    ensures n <= |from|
    ensures n == 0 <==> forall k :: 0 <= k < |from| ==> from[k] in input
    decreases |from|
  {
    if from == [] then 0
    else
      var last := from[|from| - 1];
      MissingCount(from[..|from| - 1], input) + (if last in input then 0 else 1)
  }

  predicate IsThree(input: Pattern, mappings: seq<Pattern>)
    requires |mappings| == DIGITS
  {
    MissingCount(mappings[1], input) == 0
  }

  predicate IsFive(input: Pattern, mappings: seq<Pattern>)
    requires |mappings| == DIGITS
  {
    MissingCount(mappings[4], input) == 1
  }

  predicate IsNine(input: Pattern, mappings: seq<Pattern>)
    requires |mappings| == DIGITS
  {
    MissingCount(mappings[5], input) == 0 && MissingCount(mappings[1], input) == 0
  }

  predicate IsSix(input: Pattern, mappings: seq<Pattern>)
    requires |mappings| == DIGITS
  {
    MissingCount(mappings[5], input) == 0
  }

  /** The lengths `parse_entries_and_sum` handles; any other length panics. */
  predicate ValidLength(p: Pattern) {
    2 <= |p| <= 7
  }

  predicate ValidLengths(ps: seq<Pattern>) {
    forall k :: 0 <= k < |ps| ==> ValidLength(ps[k])
  }

  /** The digit a test pattern is taken for, given the patterns found so far. */
  function Slot(mappings: seq<Pattern>, p: Pattern): (d: nat)
    requires |mappings| == DIGITS && ValidLength(p)
    ensures d < DIGITS
  {
    if |p| == 2 then 1
    else if |p| == 3 then 7
    else if |p| == 4 then 4
    else if |p| == 5 then (if IsThree(p, mappings) then 3 else if IsFive(p, mappings) then 5 else 2)
    else if |p| == 6 then (if IsNine(p, mappings) then 9 else if IsSix(p, mappings) then 6 else 0)
    else 8
  }

  /** The loop over the sorted test patterns: each one overwrites the slot of its digit. */
  function Classify(mappings: seq<Pattern>, ps: seq<Pattern>): (r: seq<Pattern>)
    requires |mappings| == DIGITS && ValidLengths(ps)
    ensures |r| == DIGITS
    decreases |ps|
  {
    if ps == [] then mappings
    else Classify(mappings[Slot(mappings, ps[0]) := ps[0]], ps[1..])
  }

  function PatternLength(p: Pattern): int { |p| }

  const NO_MAPPINGS: seq<Pattern> := [[], [], [], [], [], [], [], [], [], []]

  /** `sort_unstable_by_key(|a| a.len())`, one admissible order: equal lengths keep their order. */
  function SortByLength(ps: seq<Pattern>): (r: seq<Pattern>)
    requires ValidLengths(ps)
    ensures |r| == |ps| && multiset(r) == multiset(ps)
    ensures SortedBy(r, PatternLength) && ValidLengths(r)
  {
    PermutedLengths(ps, SortBy(ps, PatternLength));
    SortBy(ps, PatternLength)
  }

  lemma PermutedLengths(ps: seq<Pattern>, r: seq<Pattern>)
    requires ValidLengths(ps) && multiset(r) == multiset(ps)
    ensures ValidLengths(r)
  {
    forall k | 0 <= k < |r| ensures ValidLength(r[k]) {
      assert r[k] in multiset(ps);
    }
  }

  /** The ten patterns the classification ends with. */
  function Mappings(test: seq<Pattern>): (r: seq<Pattern>)
    requires ValidLengths(test)
    ensures |r| == DIGITS
  {
    Classify(NO_MAPPINGS, SortByLength(test))
  }

  /** The first slot whose pattern has the same wires, from `i` on. */
  function MatchFrom(pattern: Pattern, mappings: seq<Pattern>, i: nat): (r: Option<nat>)
    requires i <= |mappings|
    ensures r.Some? ==> i <= r.value < |mappings| && PatternsEqual(pattern, mappings[r.value])
    ensures r.Some? ==> forall j :: i <= j < r.value ==> !PatternsEqual(pattern, mappings[j])
    ensures r.None? ==> forall j :: i <= j < |mappings| ==> !PatternsEqual(pattern, mappings[j])
    decreases |mappings| - i
  {
    if i == |mappings| then None
    else if PatternsEqual(pattern, mappings[i]) then Some(i)
    else MatchFrom(pattern, mappings, i + 1)
  }

  function MatchIndex(pattern: Pattern, mappings: seq<Pattern>): Option<nat> {
    MatchFrom(pattern, mappings, 0)
  }

  /** `parse_pattern`: the decimal rendering of the lowest matching slot. */
  method ParsePattern(pattern: Pattern, mappings: seq<Pattern>) returns (r: Option<string>)
    ensures MatchIndex(pattern, mappings).None? ==> r.None?
    ensures MatchIndex(pattern, mappings).Some? ==> r == Some(ShowNat(MatchIndex(pattern, mappings).value))
  {
    for index := 0 to |mappings|
      invariant forall j :: 0 <= j < index ==> !PatternsEqual(pattern, mappings[j])
    {
      if PatternsEqual(pattern, mappings[index]) {
        return Some(ShowNat(index));
      }
    }
    return None;
  }

  /** The fold over the output patterns: their digits, written one after the other. */
  function DecodeDigits(output: seq<Pattern>, mappings: seq<Pattern>): Option<string>
    decreases |output|
  {
    if output == [] then Some("")
    else
      match DecodeDigits(output[..|output| - 1], mappings)
      case None => None
      case Some(digits) =>
        match MatchIndex(output[|output| - 1], mappings)
        case None => None
        case Some(index) => Some(digits + ShowNat(index))
  }

  /** The fold succeeds exactly when every output pattern has a slot. */
  lemma {:induction false} DecodeDigitsFound(output: seq<Pattern>, mappings: seq<Pattern>)
    ensures DecodeDigits(output, mappings).Some? <==> forall k :: 0 <= k < |output| ==> MatchIndex(output[k], mappings).Some?
    decreases |output|
  {
    if output != [] {
      var init := output[..|output| - 1];
      DecodeDigitsFound(init, mappings);
      assert forall k :: 0 <= k < |init| ==> init[k] == output[k];
    }
  }

  /** What `parse_entries_and_sum` demands of an entry to finish without a panic: test lengths
      from 2 to 7, every output pattern found, and the digits an unsigned 64-bit number. */
  predicate Decodable(e: Entry) {
    && ValidLengths(e.test)
    && DecodeDigits(e.output, Mappings(e.test)).Some?
    && ParseUsize(DecodeDigits(e.output, Mappings(e.test)).value).Some?
  }

  function EntryValue(e: Entry): nat
    requires Decodable(e)
  {
    ParseUsize(DecodeDigits(e.output, Mappings(e.test)).value).value
  }

  function SumOfEntries(data: seq<Entry>): nat
    requires forall k :: 0 <= k < |data| ==> Decodable(data[k])
    decreases |data|
  {
    if data == [] then 0 else SumOfEntries(data[..|data| - 1]) + EntryValue(data[|data| - 1])
  }

  lemma SumOfEntriesSnoc(data: seq<Entry>, i: nat)
    requires i < |data| && forall k :: 0 <= k < |data| ==> Decodable(data[k])
    ensures SumOfEntries(data[..i + 1]) == SumOfEntries(data[..i]) + EntryValue(data[i])
  {
    assert data[..i + 1][..i] == data[..i];
  }

  /** The classification loop of `parse_entries_and_sum` for one entry. */
  method BuildMappings(test: seq<Pattern>) returns (mappings: seq<Pattern>)
    requires ValidLengths(test)
    ensures mappings == Mappings(test)
  {
    mappings := NO_MAPPINGS;
    var testData := SortByLength(test);
    for j := 0 to |testData|
      invariant |mappings| == DIGITS
      invariant Classify(mappings, testData[j..]) == Mappings(test)
    {
      var testPattern := testData[j];
      if |testPattern| == 2 { mappings := mappings[1 := testPattern]; }
      else if |testPattern| == 3 { mappings := mappings[7 := testPattern]; }
      else if |testPattern| == 4 { mappings := mappings[4 := testPattern]; }
      else if |testPattern| == 5 {
        if IsThree(testPattern, mappings) { mappings := mappings[3 := testPattern]; }
        else if IsFive(testPattern, mappings) { mappings := mappings[5 := testPattern]; }
        else { mappings := mappings[2 := testPattern]; }
      }
      else if |testPattern| == 6 {
        if IsNine(testPattern, mappings) { mappings := mappings[9 := testPattern]; }
        else if IsSix(testPattern, mappings) { mappings := mappings[6 := testPattern]; }
        else { mappings := mappings[0 := testPattern]; }
      }
      else { mappings := mappings[8 := testPattern]; }
      assert testData[j..][1..] == testData[j + 1..];
    }
    assert testData[|testData|..] == [];
  }

  /** The output fold of `parse_entries_and_sum` for one entry. */
  method DecodeOutput(output: seq<Pattern>, mappings: seq<Pattern>) returns (digits: string)
    requires DecodeDigits(output, mappings).Some?
    ensures Some(digits) == DecodeDigits(output, mappings)
  {
    DecodeDigitsFound(output, mappings);
    digits := "";
    for j := 0 to |output|
      invariant DecodeDigits(output[..j], mappings) == Some(digits)
    {
      assert output[..j + 1][..j] == output[..j];
      var digit := ParsePattern(output[j], mappings);
      digits := digits + digit.value;
    }
    assert output[..|output|] == output;
  }

  /** `parse_entries_and_sum`. */
  method ParseEntriesAndSum(data: seq<Entry>) returns (result: nat)
    requires forall k :: 0 <= k < |data| ==> Decodable(data[k])
    ensures result == SumOfEntries(data)
  {
    result := 0;
    for i := 0 to |data|
      invariant result == SumOfEntries(data[..i])
    {
      var entry := data[i];
      var mappings := BuildMappings(entry.test);
      var output := DecodeOutput(entry.output, mappings);
      var value := ParseUsize(output).value;
      SumOfEntriesSnoc(data, i);
      result := result + value;
    }
    assert data[..|data|] == data;
  }

  // ---------------------------------------------------------------- why the classification is right

  /** The seven segments, and the segments of each digit on an unscrambled display. */
  const SEGMENTS: set<char> := {'a', 'b', 'c', 'd', 'e', 'f', 'g'}

  const SEGMENT_SETS: seq<set<char>> := [
    {'a', 'b', 'c', 'e', 'f', 'g'}, {'c', 'f'}, {'a', 'c', 'd', 'e', 'g'}, {'a', 'c', 'd', 'f', 'g'},
    {'b', 'c', 'd', 'f'}, {'a', 'b', 'd', 'f', 'g'}, {'a', 'b', 'd', 'e', 'f', 'g'}, {'a', 'c', 'f'},
    {'a', 'b', 'c', 'd', 'e', 'f', 'g'}, {'a', 'b', 'c', 'd', 'f', 'g'}]

  /** A way of wiring the seven segments: no two segments share a wire. */
  ghost predicate Wiring(w: char -> char) {
    forall x, y :: x in SEGMENTS && y in SEGMENTS && w(x) == w(y) ==> x == y
  }

  ghost function Image(w: char -> char, s: set<char>): set<char> {
    set c | c in s :: w(c)
  }

  /** Pattern `p` lights, under wiring `w`, exactly the wires of digit `d`. */
  ghost predicate Shows(w: char -> char, p: Pattern, d: nat) {
    d < DIGITS && Chars(p) == Image(w, SEGMENT_SETS[d])
  }

  predicate NoRepeats(p: Pattern) {
    forall i, j :: 0 <= i < j < |p| ==> p[i] != p[j]
  }

  /** The ten test patterns of a display, listed by digit. */
  ghost predicate TenDigits(w: char -> char, pats: seq<Pattern>) {
    |pats| == DIGITS && forall d :: 0 <= d < DIGITS ==> Shows(w, pats[d], d) && NoRepeats(pats[d])
  }

  lemma SegmentSetsFacts()
    ensures forall d :: 0 <= d < DIGITS ==> SEGMENT_SETS[d] <= SEGMENTS
    ensures |SEGMENT_SETS[0]| == 6 && |SEGMENT_SETS[1]| == 2 && |SEGMENT_SETS[2]| == 5 && |SEGMENT_SETS[3]| == 5
    ensures |SEGMENT_SETS[4]| == 4 && |SEGMENT_SETS[5]| == 5 && |SEGMENT_SETS[6]| == 6 && |SEGMENT_SETS[7]| == 3
    ensures |SEGMENT_SETS[8]| == 7 && |SEGMENT_SETS[9]| == 6
  {
  }

  /** The segment differences the classification tests. */
  lemma SegmentDifferences()
    ensures |SEGMENT_SETS[1] - SEGMENT_SETS[3]| == 0 && |SEGMENT_SETS[1] - SEGMENT_SETS[2]| == 1
    ensures |SEGMENT_SETS[1] - SEGMENT_SETS[5]| == 1
    ensures |SEGMENT_SETS[4] - SEGMENT_SETS[5]| == 1 && |SEGMENT_SETS[4] - SEGMENT_SETS[2]| == 2
    ensures |SEGMENT_SETS[5] - SEGMENT_SETS[9]| == 0 && |SEGMENT_SETS[1] - SEGMENT_SETS[9]| == 0
    ensures |SEGMENT_SETS[5] - SEGMENT_SETS[6]| == 0 && |SEGMENT_SETS[1] - SEGMENT_SETS[6]| == 1
    ensures |SEGMENT_SETS[5] - SEGMENT_SETS[0]| == 1
  {
    assert SEGMENT_SETS[1] - SEGMENT_SETS[3] == {};
    assert SEGMENT_SETS[1] - SEGMENT_SETS[2] == {'f'};
    assert SEGMENT_SETS[1] - SEGMENT_SETS[5] == {'c'};
    assert SEGMENT_SETS[4] - SEGMENT_SETS[5] == {'c'};
    assert SEGMENT_SETS[4] - SEGMENT_SETS[2] == {'b', 'f'};
    assert SEGMENT_SETS[5] - SEGMENT_SETS[9] == {};
    assert SEGMENT_SETS[1] - SEGMENT_SETS[9] == {};
    assert SEGMENT_SETS[5] - SEGMENT_SETS[6] == {};
    assert SEGMENT_SETS[1] - SEGMENT_SETS[6] == {'c'};
    assert SEGMENT_SETS[5] - SEGMENT_SETS[0] == {'d'};
  }

  /** No two digits light the same segments. */
  lemma SegmentSetsDistinct(a: nat, b: nat)
    requires a < DIGITS && b < DIGITS && SEGMENT_SETS[a] == SEGMENT_SETS[b]
    ensures a == b
  {
    SegmentSetsFacts();
    var s := SEGMENT_SETS;
    assert 'e' in s[0] && 'e' !in s[9] && 'c' in s[0] && 'c' !in s[6];
    assert 'e' in s[6] && 'e' !in s[9];
    assert 'e' in s[2] && 'e' !in s[3] && 'e' !in s[5] && 'c' in s[3] && 'c' !in s[5];
  }

  lemma ImageDifference(w: char -> char, a: set<char>, b: set<char>)
    requires Wiring(w) && a <= SEGMENTS && b <= SEGMENTS
    ensures Image(w, a) - Image(w, b) == Image(w, a - b)
  {
  }

  lemma {:induction false} ImageSize(w: char -> char, a: set<char>)
    requires Wiring(w) && a <= SEGMENTS
    ensures |Image(w, a)| == |a|
    decreases |a|
  {
    if a == {} {
      assert Image(w, a) == {};
    } else {
      var x :| x in a;
      ImageSize(w, a - {x});
      assert Image(w, a) == Image(w, a - {x}) + {w(x)};
      assert w(x) !in Image(w, a - {x});
    }
  }

  lemma ImageInjective(w: char -> char, a: set<char>, b: set<char>)
    requires Wiring(w) && a <= SEGMENTS && b <= SEGMENTS && Image(w, a) == Image(w, b)
    ensures a == b
  {
    ImageDifference(w, a, b);
    ImageDifference(w, b, a);
    ImageSize(w, a - b);
    ImageSize(w, b - a);
  }

  lemma {:induction false} NoRepeatsSize(p: Pattern)
    requires NoRepeats(p)
    ensures |Chars(p)| == |p|
    decreases |p|
  {
    if p != [] {
      var init := p[..|p| - 1];
      NoRepeatsSize(init);
      assert Chars(p) == Chars(init) + {p[|p| - 1]};
      assert p[|p| - 1] !in Chars(init);
    }
  }

  /** Without repeated wires, the count of missing wires is the size of the set difference. */
  lemma {:induction false} MissingCountOfSets(from: Pattern, input: Pattern)
    requires NoRepeats(from)
    ensures MissingCount(from, input) == |Chars(from) - Chars(input)|
    decreases |from|
  {
    if from == [] {
      assert Chars(from) == {};
    } else {
      var init := from[..|from| - 1];
      var last := from[|from| - 1];
      MissingCountOfSets(init, input);
      assert last !in Chars(init);
      CharsSnoc(from);
      DifferenceAddOne(Chars(init), Chars(input), last);
    }
  }

  lemma CharsSnoc(p: Pattern)
    requires p != []
    ensures Chars(p) == Chars(p[..|p| - 1]) + {p[|p| - 1]}
  {
  }

  lemma DifferenceAddOne(a: set<char>, b: set<char>, x: char)
    requires x !in a
    ensures |(a + {x}) - b| == |a - b| + (if x in b then 0 else 1)
  {
    if x in b {
      assert (a + {x}) - b == a - b;
    } else {
      assert (a + {x}) - b == (a - b) + {x};
    }
  }

  lemma TenDigitsMissing(w: char -> char, pats: seq<Pattern>, a: nat, b: nat)
    requires Wiring(w) && TenDigits(w, pats) && a < DIGITS && b < DIGITS
    ensures MissingCount(pats[a], pats[b]) == |SEGMENT_SETS[a] - SEGMENT_SETS[b]|
  {
    SegmentSetsFacts();
    MissingCountOfSets(pats[a], pats[b]);
    ImageDifference(w, SEGMENT_SETS[a], SEGMENT_SETS[b]);
    ImageSize(w, SEGMENT_SETS[a] - SEGMENT_SETS[b]);
  }

  lemma TenDigitsLength(w: char -> char, pats: seq<Pattern>, d: nat)
    requires Wiring(w) && TenDigits(w, pats) && d < DIGITS
    ensures |pats[d]| == |SEGMENT_SETS[d]|
  {
    SegmentSetsFacts();
    NoRepeatsSize(pats[d]);
    ImageSize(w, SEGMENT_SETS[d]);
  }

  /** A pattern showing digit `d` matches the slot of `d` and no other. */
  lemma ShowsMatches(w: char -> char, pats: seq<Pattern>, p: Pattern, d: nat, i: nat)
    requires Wiring(w) && TenDigits(w, pats) && Shows(w, p, d) && i < DIGITS
    ensures PatternsEqual(p, pats[i]) <==> i == d
  {
    SegmentSetsFacts();
    if PatternsEqual(p, pats[i]) {
      assert Chars(p) == Chars(pats[i]);
      ImageInjective(w, SEGMENT_SETS[d], SEGMENT_SETS[i]);
      SegmentSetsDistinct(d, i);
    }
  }

  lemma SlotOfFiveSegments(w: char -> char, pats: seq<Pattern>, m: seq<Pattern>, d: nat)
    requires Wiring(w) && TenDigits(w, pats) && (d == 2 || d == 3 || d == 5) && |m| == DIGITS
    requires m[1] == pats[1] && m[4] == pats[4] && |pats[d]| == 5
    ensures Slot(m, pats[d]) == d
  {
    SegmentDifferences();
    TenDigitsMissing(w, pats, 1, d);
    TenDigitsMissing(w, pats, 4, d);
  }

  lemma SlotOfSixSegments(w: char -> char, pats: seq<Pattern>, m: seq<Pattern>, d: nat)
    requires Wiring(w) && TenDigits(w, pats) && (d == 0 || d == 6 || d == 9) && |m| == DIGITS
    requires m[1] == pats[1] && m[5] == pats[5] && |pats[d]| == 6
    ensures Slot(m, pats[d]) == d
  {
    SegmentDifferences();
    TenDigitsMissing(w, pats, 5, d);
    TenDigitsMissing(w, pats, 1, d);
  }

  /** Once the slots of 1 and 4 hold their patterns (and of 5, for six-segment digits), a test
      pattern of digit `d` is taken for `d`. */
  lemma SlotOfDigit(w: char -> char, pats: seq<Pattern>, m: seq<Pattern>, d: nat)
    requires Wiring(w) && TenDigits(w, pats) && d < DIGITS && |m| == DIGITS
    requires |SEGMENT_SETS[d]| >= 5 ==> m[1] == pats[1] && m[4] == pats[4]
    requires |SEGMENT_SETS[d]| == 6 ==> m[5] == pats[5]
    ensures ValidLength(pats[d]) && Slot(m, pats[d]) == d
  {
    SegmentSetsFacts();
    TenDigitsLength(w, pats, d);
    if d == 2 || d == 3 || d == 5 {
      SlotOfFiveSegments(w, pats, m, d);
    } else if d == 0 || d == 6 || d == 9 {
      SlotOfSixSegments(w, pats, m, d);
    }
  }

  lemma TenDigitsDistinct(w: char -> char, pats: seq<Pattern>, a: nat, b: nat)
    requires Wiring(w) && TenDigits(w, pats) && a < DIGITS && b < DIGITS && pats[a] == pats[b]
    ensures a == b
  {
    SegmentSetsFacts();
    ImageInjective(w, SEGMENT_SETS[a], SEGMENT_SETS[b]);
    SegmentSetsDistinct(a, b);
  }

  /** In a list sorted by length, a pattern shorter than the one at `k` comes before `k`. */
  lemma ShorterComesFirst(pats: seq<Pattern>, s: seq<Pattern>, k: nat, e: nat)
    requires multiset(s) == multiset(pats) && SortedBy(s, PatternLength)
    requires k < |s| && e < |pats| && |pats[e]| < |s[k]|
    ensures exists i :: 0 <= i < k && s[i] == pats[e]
  {
    assert pats[e] in multiset(s);
    var i :| 0 <= i < |s| && s[i] == pats[e];
    assert k < i ==> PatternLength(s[k]) <= PatternLength(s[i]);
  }

  /** The pattern at `k` of a sorted list of a display's ten patterns goes to its own slot,
      once every pattern before it is in its slot. */
  lemma ClassifyStep(w: char -> char, pats: seq<Pattern>, s: seq<Pattern>, k: nat, m: seq<Pattern>) returns (d: nat)
    requires Wiring(w) && TenDigits(w, pats)
    requires |s| == DIGITS && multiset(s) == multiset(pats) && SortedBy(s, PatternLength) && ValidLengths(s)
    requires k < DIGITS && |m| == DIGITS
    requires forall i, e :: 0 <= i < k && 0 <= e < DIGITS && s[i] == pats[e] ==> m[e] == pats[e]
    ensures d < DIGITS && pats[d] == s[k] && Slot(m, s[k]) == d
    ensures forall i, e :: 0 <= i < k + 1 && 0 <= e < DIGITS && s[i] == pats[e] ==> m[d := s[k]][e] == pats[e]
  {
    var q := s[k];
    assert q in multiset(pats);
    d :| 0 <= d < DIGITS && pats[d] == q;
    SegmentSetsFacts();
    TenDigitsLength(w, pats, d);
    TenDigitsLength(w, pats, 1);
    TenDigitsLength(w, pats, 4);
    TenDigitsLength(w, pats, 5);
    if |q| >= 5 {
      ShorterComesFirst(pats, s, k, 1);
      ShorterComesFirst(pats, s, k, 4);
    }
    if |q| == 6 {
      ShorterComesFirst(pats, s, k, 5);
    }
    SlotOfDigit(w, pats, m, d);
    var next := m[d := q];
    forall i, e | 0 <= i < k + 1 && 0 <= e < DIGITS && s[i] == pats[e] ensures next[e] == pats[e] {
      if i == k {
        TenDigitsDistinct(w, pats, d, e);
      }
    }
  }

  /** Classifying the rest of a sorted list of a display's ten patterns, with every pattern
      before `k` already in its slot, puts every pattern in its slot. */
  lemma {:induction false} ClassifyTenDigits(w: char -> char, pats: seq<Pattern>, s: seq<Pattern>, k: nat, m: seq<Pattern>)
    requires Wiring(w) && TenDigits(w, pats)
    requires |s| == DIGITS && multiset(s) == multiset(pats) && SortedBy(s, PatternLength) && ValidLengths(s)
    requires k <= DIGITS && |m| == DIGITS
    requires forall i, d :: 0 <= i < k && 0 <= d < DIGITS && s[i] == pats[d] ==> m[d] == pats[d]
    ensures Classify(m, s[k..]) == pats
    decreases DIGITS - k
  {
    if k == DIGITS {
      forall d | 0 <= d < DIGITS ensures m[d] == pats[d] {
        assert pats[d] in multiset(s);
        var i :| 0 <= i < |s| && s[i] == pats[d];
      }
      assert s[k..] == [];
    } else {
      var d := ClassifyStep(w, pats, s, k, m);
      assert s[k..][1..] == s[k + 1..];
      ClassifyTenDigits(w, pats, s, k + 1, m[d := s[k]]);
    }
  }

  /** Outside genuine displays the order among equal lengths matters: two patterns of two
      segments compete for the slot of 1, and the later one stays there. */
  lemma EqualLengthOrderMatters()
    ensures ValidLengths(["ab", "cd"]) && Mappings(["ab", "cd"])[1] == "cd"
    ensures ValidLengths(["cd", "ab"]) && Mappings(["cd", "ab"])[1] == "ab"
  {
  }

  /** For any listing of a display's ten patterns, the classification puts each digit's pattern
      in that digit's slot, whatever order the sort leaves equal lengths in. */
  lemma MappingsOfTenDigits(w: char -> char, pats: seq<Pattern>, test: seq<Pattern>)
    requires Wiring(w) && TenDigits(w, pats) && multiset(test) == multiset(pats)
    ensures ValidLengths(test) && Mappings(test) == pats
  {
    SegmentSetsFacts();
    forall k | 0 <= k < |test| ensures ValidLength(test[k]) {
      assert test[k] in multiset(pats);
      var d :| 0 <= d < DIGITS && pats[d] == test[k];
      TenDigitsLength(w, pats, d);
    }
    var s := SortByLength(test);
    assert |s| == |multiset(s)| == |multiset(pats)| == DIGITS;
    ClassifyTenDigits(w, pats, s, 0, NO_MAPPINGS);
    assert s[0..] == s;
  }

  lemma MatchShown(w: char -> char, pats: seq<Pattern>, p: Pattern, d: nat)
    requires Wiring(w) && TenDigits(w, pats) && Shows(w, p, d)
    ensures MatchIndex(p, pats) == Some(d)
  {
    ShowsMatches(w, pats, p, d, d);
    var r := MatchIndex(p, pats);
    if r.Some? {
      ShowsMatches(w, pats, p, d, r.value);
    }
  }

  predicate DigitsBelowTen(ds: seq<nat>) {
    forall j :: 0 <= j < |ds| ==> ds[j] < DIGITS
  }

  /** The digits written out in decimal, one character each. */
  function DigitString(ds: seq<nat>): (r: string)
    requires DigitsBelowTen(ds)
    ensures |r| == |ds| && AllDigits(r)
    decreases |ds|
  {
    if ds == [] then "" else DigitString(ds[..|ds| - 1]) + [DigitChar(ds[|ds| - 1])]
  }

  /** Output patterns found at the slots `ds` decode to those digits. */
  lemma {:induction false} DecodeMatched(output: seq<Pattern>, pats: seq<Pattern>, ds: seq<nat>)
    requires |ds| == |output| && DigitsBelowTen(ds)
    requires forall j :: 0 <= j < |output| ==> MatchIndex(output[j], pats) == Some(ds[j])
    ensures DecodeDigits(output, pats) == Some(DigitString(ds))
    decreases |output|
  {
    if output != [] {
      var n := |output|;
      var init, digits := output[..n - 1], ds[..n - 1];
      forall j | 0 <= j < |init| ensures MatchIndex(init[j], pats) == Some(digits[j]) {
        assert init[j] == output[j] && digits[j] == ds[j];
      }
      assert DigitsBelowTen(digits) by {
        forall j | 0 <= j < |digits| ensures digits[j] < DIGITS { assert digits[j] == ds[j]; }
      }
      DecodeMatched(init, pats, digits);
      DecodeSnoc(output, pats, DigitString(digits), ds[n - 1]);
      assert digits + [ds[n - 1]] == ds;
    }
  }

  lemma DecodeSnoc(output: seq<Pattern>, pats: seq<Pattern>, digits: string, d: nat)
    requires output != [] && d < DIGITS
    requires DecodeDigits(output[..|output| - 1], pats) == Some(digits)
    requires MatchIndex(output[|output| - 1], pats) == Some(d)
    ensures DecodeDigits(output, pats) == Some(digits + [DigitChar(d)])
  {
  }

  /** Output patterns showing the digits `ds` decode to those digits. */
  lemma DecodeShown(w: char -> char, pats: seq<Pattern>, output: seq<Pattern>, ds: seq<nat>)
    requires Wiring(w) && TenDigits(w, pats) && |ds| == |output|
    requires forall j :: 0 <= j < |output| ==> Shows(w, output[j], ds[j])
    ensures DigitsBelowTen(ds) && DecodeDigits(output, pats) == Some(DigitString(ds))
  {
    forall j | 0 <= j < |output| ensures ds[j] < DIGITS && MatchIndex(output[j], pats) == Some(ds[j]) {
      MatchShown(w, pats, output[j], ds[j]);
    }
    DecodeMatched(output, pats, ds);
  }

  /** The value `parse_entries_and_sum` adds for a display's entry: the shown digits read as a
      decimal number. */
  lemma EntryValueOfDisplay(w: char -> char, pats: seq<Pattern>, test: seq<Pattern>, output: seq<Pattern>, ds: seq<nat>)
    requires Wiring(w) && TenDigits(w, pats) && multiset(test) == multiset(pats)
    requires |ds| == |output| && DigitsBelowTen(ds)
    requires forall j :: 0 <= j < |output| ==> Shows(w, output[j], ds[j])
    requires 0 < |ds| && DecimalValue(DigitString(ds)) < USIZE_LIMIT
    ensures Decodable(Entry(test, output))
    ensures EntryValue(Entry(test, output)) == DecimalValue(DigitString(ds))
  {
    MappingsOfTenDigits(w, pats, test);
    DecodeShown(w, pats, output, ds);
    var digits := DigitString(ds);
    assert digits[0] != '+' by { assert IsDigit(digits[0]); }
  }

  /** The digits among `ds` whose segment count no other digit shares. */
  function CountUniqueDigits(ds: seq<nat>): (n: nat)
    decreases |ds|
  {
    if ds == [] then 0
    else
      var last := ds[|ds| - 1];
      CountUniqueDigits(ds[..|ds| - 1]) + (if last == 1 || last == 4 || last == 7 || last == 8 then 1 else 0)
  }

  /** Part 1 counts exactly the output patterns that show 1, 4, 7 or 8. */
  lemma {:induction false} KnownDigitsOfDisplay(w: char -> char, output: seq<Pattern>, ds: seq<nat>)
    requires Wiring(w) && |ds| == |output|
    requires forall j :: 0 <= j < |output| ==> Shows(w, output[j], ds[j]) && NoRepeats(output[j])
    ensures CountUniqueLengths(output) == CountUniqueDigits(ds)
    decreases |output|
  {
    if output != [] {
      var n := |output|;
      var init, digits := output[..n - 1], ds[..n - 1];
      forall j | 0 <= j < |init| ensures Shows(w, init[j], digits[j]) && NoRepeats(init[j]) {
        assert init[j] == output[j] && digits[j] == ds[j];
      }
      KnownDigitsOfDisplay(w, init, digits);
      ShownUnique(w, output[n - 1], ds[n - 1]);
    }
  }

  /** A pattern has a segment count no other digit shares exactly when it shows 1, 4, 7 or 8. */
  lemma ShownUnique(w: char -> char, p: Pattern, d: nat)
    requires Wiring(w) && Shows(w, p, d) && NoRepeats(p)
    ensures HasUniqueLength(p) <==> d == 1 || d == 4 || d == 7 || d == 8
  {
    SegmentSetsFacts();
    NoRepeatsSize(p);
    ImageSize(w, SEGMENT_SETS[d]);
  }
}

/** The parts of Rust's `str` and integer parsing that the puzzle parsers use:
    `trim`, `split(char)`, `splitn(2, pattern)`, `split_ascii_whitespace` and
    `str::parse` for `usize` and `i32`. Strings are sequences of Unicode scalar values. */
module Text {
  import opened Common

  /** Rust's `char::is_whitespace`: the characters with the Unicode White_Space property. */
  predicate IsWhitespace(c: char) {
    ('\U{9}' <= c <= '\U{D}') || c == ' ' || c == '\U{85}' || c == '\U{A0}' || c == '\U{1680}'
    || ('\U{2000}' <= c <= '\U{200A}') || c == '\U{2028}' || c == '\U{2029}'
    || c == '\U{202F}' || c == '\U{205F}' || c == '\U{3000}'
  }

  /** Rust's `u8::is_ascii_whitespace`, the separator of `split_ascii_whitespace`
      (vertical tab is not one of them). */
  predicate IsAsciiWhitespace(c: char) {
    c == ' ' || c == '\t' || c == '\n' || c == '\U{C}' || c == '\r'
  }

  // ---------------------------------------------------------------- trim

  function TrimStart(s: string): (r: string)
    ensures |r| <= |s| && r == s[|s| - |r|..]
    ensures r == [] || !IsWhitespace(r[0])
    ensures forall i :: 0 <= i < |s| - |r| ==> IsWhitespace(s[i])
    decreases |s|
  {
    if s != [] && IsWhitespace(s[0]) then TrimStart(s[1..]) else s
  }

  function TrimEnd(s: string): (r: string)
    ensures |r| <= |s| && r == s[..|r|]
    ensures r == [] || !IsWhitespace(r[|r| - 1])
    ensures forall i :: |r| <= i < |s| ==> IsWhitespace(s[i])
    decreases |s|
  {
    if s != [] && IsWhitespace(s[|s| - 1]) then TrimEnd(s[..|s| - 1]) else s
  }

  /** `str::trim`: the longest infix that neither starts nor ends with whitespace. */
  function Trim(s: string): (r: string)
    ensures r == [] || (!IsWhitespace(r[0]) && !IsWhitespace(r[|r| - 1]))
  {
    TrimEnd(TrimStart(s))
  }

  /** Trimming a string made only of whitespace leaves nothing. */
  lemma TrimBlank(s: string)
    requires forall k :: 0 <= k < |s| ==> IsWhitespace(s[k])
    ensures Trim(s) == []
  {
  }

  lemma TrimUnchanged(s: string)
    requires s == [] || (!IsWhitespace(s[0]) && !IsWhitespace(s[|s| - 1]))
    ensures Trim(s) == s
  {
  }

  // ---------------------------------------------------------------- split on a character

  /** The index of the first `c` in `s`, or `|s|` when there is none. */
  function FirstIndex(s: string, c: char): (i: nat)
    ensures i <= |s| && (i < |s| ==> s[i] == c)
    ensures forall k :: 0 <= k < i ==> s[k] != c
    decreases |s|
  {
    if s == [] then 0 else if s[0] == c then 0 else 1 + FirstIndex(s[1..], c)
  }

  /** `s.split(sep)`: the pieces between separators, empty pieces included;
      there is always at least one piece and none holds the separator. */
  function Split(s: string, sep: char): (r: seq<string>)
    ensures |r| >= 1
    ensures forall k :: 0 <= k < |r| ==> sep !in r[k]
    decreases |s|
  {
    var i := FirstIndex(s, sep);
    if i == |s| then [s] else [s[..i]] + Split(s[i + 1..], sep)
  }

  /** A string ending in the separator splits with an empty last piece. */
  lemma {:induction false} SplitTrailingSeparator(s: string, sep: char)
    ensures var r := Split(s + [sep], sep); r[|r| - 1] == []
    decreases |s|
  {
    var t := s + [sep];
    var i := FirstIndex(t, sep);
    assert t[|s|] == sep;
    if i == |s| {
      assert t[i + 1..] == [];
      assert Split([], sep) == [[]];
      assert Split(t, sep) == [t[..i]] + [[]];
    } else {
      var u := t[i + 1..];
      assert u == s[i + 1..] + [sep];
      SplitTrailingSeparator(s[i + 1..], sep);
      assert Split(t, sep) == [t[..i]] + Split(u, sep);
    }
  }

  /** The inverse of `Split`: the pieces with one separator between neighbours. */
  function Join(pieces: seq<string>, sep: char): string
    requires |pieces| >= 1
  {
    if |pieces| == 1 then pieces[0] else pieces[0] + [sep] + Join(pieces[1..], sep)
  }

  lemma {:induction false} JoinSplit(s: string, sep: char)
    ensures Join(Split(s, sep), sep) == s
    decreases |s|
  {
    var i := FirstIndex(s, sep);
    if i < |s| {
      var rest := s[i + 1..];
      JoinSplit(rest, sep);
      JoinCons(s[..i], sep, Split(rest, sep));
      Around(s, i);
    }
  }

  lemma Around(s: string, i: nat)
    requires i < |s|
    ensures s == s[..i] + [s[i]] + s[i + 1..]
  {
  }

  lemma JoinCons(p: string, sep: char, rest: seq<string>)
    requires |rest| >= 1
    ensures Join([p] + rest, sep) == p + [sep] + Join(rest, sep)
  {
    assert ([p] + rest)[1..] == rest;
  }

  lemma {:induction false} SplitJoin(pieces: seq<string>, sep: char)
    requires |pieces| >= 1
    requires forall k :: 0 <= k < |pieces| ==> sep !in pieces[k]
    ensures Split(Join(pieces, sep), sep) == pieces
  {
    var s := Join(pieces, sep);
    if |pieces| == 1 {
      assert FirstIndex(s, sep) == |s|;
    } else {
      var p := pieces[0];
      var rest := Join(pieces[1..], sep);
      assert s == p + [sep] + rest;
      assert FirstIndex(s, sep) == |p| by {
        assert s[|p|] == sep;
        assert forall k :: 0 <= k < |p| ==> s[k] == p[k];
        FirstIndexAt(s, sep, |p|);
      }
      assert s[..|p|] == p;
      assert s[|p| + 1..] == rest;
      SplitJoin(pieces[1..], sep);
    }
  }

  lemma FirstIndexAt(s: string, c: char, i: nat)
    requires i < |s| && s[i] == c
    requires forall k :: 0 <= k < i ==> s[k] != c
    ensures FirstIndex(s, c) == i
  {
  }

  // ---------------------------------------------------------------- split on ASCII whitespace

  /** A piece of `split_ascii_whitespace`: non-empty and free of ASCII whitespace. */
  predicate IsWord(w: string) {
    w != [] && forall j :: 0 <= j < |w| ==> !IsAsciiWhitespace(w[j])
  }

  /** The length of the leading run of non-whitespace characters. */
  function WordEnd(s: string): (n: nat)
    ensures n <= |s| && (n < |s| ==> IsAsciiWhitespace(s[n]))
    ensures s != [] && !IsAsciiWhitespace(s[0]) ==> n > 0
    ensures forall k :: 0 <= k < n ==> !IsAsciiWhitespace(s[k])
    decreases |s|
  {
    if s == [] || IsAsciiWhitespace(s[0]) then 0 else 1 + WordEnd(s[1..])
  }

  /** `s.split_ascii_whitespace()`: the maximal runs of non-whitespace characters. */
  function SplitAsciiWhitespace(s: string): (r: seq<string>)
    ensures forall k :: 0 <= k < |r| ==> IsWord(r[k])
    decreases |s|
  {
    if s == [] then []
    else if IsAsciiWhitespace(s[0]) then SplitAsciiWhitespace(s[1..])
    else
      var n := WordEnd(s);
      [s[..n]] + SplitAsciiWhitespace(s[n..])
  }

  /** Words joined by single spaces. */
  function Unwords(words: seq<string>): string {
    if words == [] then [] else if |words| == 1 then words[0] else words[0] + " " + Unwords(words[1..])
  }

  lemma {:induction false} SplitUnwords(words: seq<string>)
    requires forall k :: 0 <= k < |words| ==> IsWord(words[k])
    ensures SplitAsciiWhitespace(Unwords(words)) == words
  {
    if |words| == 1 {
      var w := words[0];
      WordEndAll(w);
      assert w[..|w|] == w && w[|w|..] == [];
      assert Unwords(words) == w;
    } else if |words| > 1 {
      var w := words[0];
      var rest := Unwords(words[1..]);
      var s := w + " " + rest;
      assert s == Unwords(words);
      WordEndPrefix(w, " " + rest);
      assert s[..|w|] == w;
      assert s[|w|..] == " " + rest;
      assert (" " + rest)[1..] == rest;
      SplitUnwords(words[1..]);
    }
  }

  /** A character that is neither a space nor in any of the words is not in their join. */
  lemma {:induction false} UnwordsWithout(words: seq<string>, c: char)
    requires c != ' ' && forall k :: 0 <= k < |words| ==> c !in words[k]
    ensures c !in Unwords(words)
    decreases |words|
  {
    if |words| > 1 {
      UnwordsWithout(words[1..], c);
      assert c !in words[0];
    }
  }

  lemma {:induction false} WordEndAll(w: string)
    requires IsWord(w)
    ensures WordEnd(w) == |w|
    decreases |w|
  {
    if |w| > 1 {
      WordEndAll(w[1..]);
    }
  }

  lemma WordEndPrefix(w: string, t: string)
    requires IsWord(w) && t != [] && IsAsciiWhitespace(t[0])
    ensures WordEnd(w + t) == |w|
  {
    var s := w + t;
    assert forall k :: 0 <= k < |w| ==> s[k] == w[k];
    assert s[|w|] == t[0];
  }

  // ---------------------------------------------------------------- split once on a string pattern

  predicate OccursAt(s: string, pat: string, k: nat) {
    k + |pat| <= |s| && s[k..k + |pat|] == pat
  }

  /** The first position at or after `from` where `pat` occurs. */
  function FindFrom(s: string, pat: string, from: nat): (r: Option<nat>)
    requires from <= |s|
    ensures r.Some? ==> from <= r.value && OccursAt(s, pat, r.value)
    ensures r.Some? ==> forall k :: from <= k < r.value ==> !OccursAt(s, pat, k)
    ensures r.None? ==> forall k :: from <= k <= |s| ==> !OccursAt(s, pat, k)
    decreases |s| - from
  {
    if OccursAt(s, pat, from) then Some(from)
    else if from == |s| then None
    else FindFrom(s, pat, from + 1)
  }

  /** `s.splitn(2, pat)` in the two-piece case: the text before the first `pat` and after it;
      `None` when `pat` does not occur (then `splitn` yields the one piece `s`). */
  function SplitOnce(s: string, pat: string): (r: Option<(string, string)>)
    ensures r.Some? ==> s == r.value.0 + pat + r.value.1
    ensures r.None? <==> forall k :: 0 <= k <= |s| ==> !OccursAt(s, pat, k)
  {
    match FindFrom(s, pat, 0)
    case Some(i) =>
      assert s == s[..i] + s[i..i + |pat|] + s[i + |pat|..];
      Some((s[..i], s[i + |pat|..]))
    case None => None
  }

  lemma SplitOnceConcat(a: string, pat: string, b: string)
    requires pat != [] && pat[0] !in a
    ensures SplitOnce(a + pat + b, pat) == Some((a, b))
  {
    var s := a + pat + b;
    assert OccursAt(s, pat, |a|) by { assert s[|a|..|a| + |pat|] == pat; }
    forall k | 0 <= k < |a| ensures !OccursAt(s, pat, k) {
      assert s[k] == a[k] && a[k] in a;
    }
    var r := FindFrom(s, pat, 0);
    assert r == Some(|a|);
    assert s[..|a|] == a;
    assert s[|a| + |pat|..] == b;
  }

  /** The same when the second character of the pattern is absent from `a` and differs from the first. */
  lemma SplitOnceConcatSecond(a: string, pat: string, b: string)
    requires |pat| >= 2 && pat[0] != pat[1] && pat[1] !in a
    ensures SplitOnce(a + pat + b, pat) == Some((a, b))
  {
    var s := a + pat + b;
    assert OccursAt(s, pat, |a|) by { assert s[|a|..|a| + |pat|] == pat; }
    forall k | 0 <= k < |a| ensures !OccursAt(s, pat, k) {
      assert s[k..k + |pat|][1] == s[k + 1];
      if k + 1 < |a| {
        assert s[k + 1] == a[k + 1] && a[k + 1] in a;
      } else {
        assert s[k + 1] == pat[0];
      }
    }
    var r := FindFrom(s, pat, 0);
    assert r == Some(|a|);
    assert s[..|a|] == a;
    assert s[|a| + |pat|..] == b;
  }

  // ---------------------------------------------------------------- decimal numbers

  predicate IsDigit(c: char) { '0' <= c <= '9' }

  predicate AllDigits(s: string) { forall i :: 0 <= i < |s| ==> IsDigit(s[i]) }

  function DigitValue(c: char): nat
    requires IsDigit(c)
  {
    (c as int) - ('0' as int)
  }

  function DigitChar(d: nat): (c: char)
    requires d < 10
    ensures IsDigit(c) && DigitValue(c) == d
  {
    ('0' as int + d) as char
  }

  /** The value of a string of decimal digits, most significant first. */
  function DecimalValue(s: string): nat
    requires AllDigits(s)
    decreases |s|
  {
    if s == [] then 0 else DecimalValue(s[..|s| - 1]) * 10 + DigitValue(s[|s| - 1])
  }

  /** The shortest decimal rendering of `n` (Rust's `n.to_string()`). */
  function ShowNat(n: nat): (r: string)
    ensures r != [] && AllDigits(r)
  {
    if n < 10 then [DigitChar(n)] else ShowNat(n / 10) + [DigitChar(n % 10)]
  }

  lemma {:induction false} DecimalValueShowNat(n: nat)
    ensures DecimalValue(ShowNat(n)) == n
  {
    if n >= 10 {
      DecimalValueShowNat(n / 10);
      var s := ShowNat(n);
      assert s[..|s| - 1] == ShowNat(n / 10);
    }
  }

  /** 2^64: `usize` on the 64-bit targets this code runs on. */
  const USIZE_LIMIT: nat := 0x1_0000_0000_0000_0000

  /** `s.parse::<usize>()`: an optional `+`, then one or more ASCII digits, with a value below 2^64. */
  function ParseUsize(s: string): (r: Option<nat>)
    ensures r.Some? ==> r.value < USIZE_LIMIT
    ensures r.Some? ==> s != [] && forall i :: 0 <= i < |s| ==> !IsWhitespace(s[i]) && s[i] != '-'
  {
    var digits := if s != [] && s[0] == '+' then s[1..] else s;
    if digits == [] || !AllDigits(digits) then None
    else if DecimalValue(digits) < USIZE_LIMIT then Some(DecimalValue(digits))
    else None
  }

  lemma ParseUsizeShowNat(n: nat)
    requires n < USIZE_LIMIT
    ensures ParseUsize(ShowNat(n)) == Some(n)
  {
    DecimalValueShowNat(n);
  }

  /** Parsing every piece of a split line as a `usize`, stopping at the first failure with
      the caller's message (the `for`/`push` loops of days 4 and 6). */
  function ParseUsizes(pieces: seq<string>, error: string): (r: Result<seq<nat>, string>)
    ensures r.Ok? <==> forall k :: 0 <= k < |pieces| ==> ParseUsize(pieces[k]).Some?
    ensures r.Ok? ==> |r.value| == |pieces| && forall k :: 0 <= k < |pieces| ==> r.value[k] == ParseUsize(pieces[k]).value
    ensures r.Err? ==> r.error == error
    decreases |pieces|
  {
    if pieces == [] then Ok([])
    else
      var init := pieces[..|pieces| - 1];
      assert forall k :: 0 <= k < |init| ==> init[k] == pieces[k];
      match ParseUsizes(init, error)
      case Err(e) => Err(e)
      case Ok(ns) =>
        match ParseUsize(pieces[|pieces| - 1])
        case None => Err(error)
        case Some(n) => Ok(ns + [n])
  }

  /** A failure on a prefix is a failure on the whole line. */
  lemma ParseUsizesErrExtends(pieces: seq<string>, i: nat, error: string)
    requires i <= |pieces| && ParseUsizes(pieces[..i], error).Err?
    ensures ParseUsizes(pieces, error).Err?
  {
    var k :| 0 <= k < i && ParseUsize(pieces[..i][k]).None?;
    assert pieces[..i][k] == pieces[k];
  }

  const I32_MIN: int := -0x8000_0000
  const I32_MAX: int := 0x7FFF_FFFF

  /** `s.parse::<i32>()`: an optional `+` or `-`, then one or more ASCII digits, in i32's range. */
  function ParseI32(s: string): (r: Option<int>)
    ensures r.Some? ==> I32_MIN <= r.value <= I32_MAX
    ensures r.Some? ==> s != [] && forall i :: 0 <= i < |s| ==> !IsWhitespace(s[i])
  {
    var negative := s != [] && s[0] == '-';
    var digits := if s != [] && (s[0] == '+' || s[0] == '-') then s[1..] else s;
    if digits == [] || !AllDigits(digits) then None
    else
      var v: int := if negative then -(DecimalValue(digits) as int) else DecimalValue(digits);
      if I32_MIN <= v <= I32_MAX then Some(v) else None
  }

  /** Rust's `i.to_string()` for an integer. */
  function ShowInt(i: int): string {
    if i < 0 then "-" + ShowNat(-i) else ShowNat(i)
  }

  lemma ParseI32ShowInt(i: int)
    requires I32_MIN <= i <= I32_MAX
    ensures ParseI32(ShowInt(i)) == Some(i)
  {
    if i < 0 {
      DecimalValueShowNat(-i);
      assert ShowInt(i)[1..] == ShowNat(-i);
    } else {
      DecimalValueShowNat(i);
    }
  }
}

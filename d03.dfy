/** Day 3 (src/d03.rs): diagnostic bit strings, the per-position majority bit, the power
    consumption built from it, and the majority/minority filters of the life-support rating. */
module D03 {
  import opened Common
  import opened Text

  type Bit = b: nat | b <= 1

  /** One diagnostic record, most significant bit first. */
  type Record = seq<Bit>

  /** The fixed size of `ones_count` in `find_most_common_bits`. */
  const WIDTH: nat := 12

  // ---------------------------------------------------------------- parsing

  /** `u8::from_str_radix(&c.to_string(), 2)` for one character. */
  function BitOfChar(c: char): (r: Option<Bit>)
    ensures r.Some? <==> c == '0' || c == '1'
    ensures r.Some? ==> (r.value == 1 <==> c == '1')
  {
    if c == '0' then Some(0) else if c == '1' then Some(1) else None
  }

  /** `Bits::from_str`: one bit per character of the trimmed line; any other character
      stops the parse with "Invalid bit". */
  method ParseBits(line: string) returns (r: Result<Record, string>)
    ensures var t := Trim(line);
      && (r.Ok? <==> forall i :: 0 <= i < |t| ==> t[i] == '0' || t[i] == '1')
      && (r.Ok? ==> |r.value| == |t| && forall i :: 0 <= i < |t| ==> (r.value[i] == 1 <==> t[i] == '1'))
      && (r.Err? ==> r.error == "Invalid bit")
  {
    var t := Trim(line);
    var bits: Record := [];
    for i := 0 to |t|
      invariant |bits| == i
      invariant forall k :: 0 <= k < i ==> (t[k] == '0' || t[k] == '1') && (bits[k] == 1 <==> t[k] == '1')
    {
      match BitOfChar(t[i])
      case None =>
        return Err("Invalid bit");
      case Some(b) =>
        bits := bits + [b];
    }
    return Ok(bits);
  }

  // ---------------------------------------------------------------- most common bits

  /** The records that have a 1 at `index`. */
  function CountOnes(data: seq<Record>, index: nat): (n: nat)
    ensures n <= |data|
    decreases |data|
  {
    if data == [] then 0
    else
      var last := data[|data| - 1];
      CountOnes(data[..|data| - 1], index) + (if index < |last| && last[index] == 1 then 1 else 0)
  }

  /** The records that have a 0 at `index`. */
  function CountZeros(data: seq<Record>, index: nat): (n: nat)
    ensures n <= |data|
    decreases |data|
  {
    if data == [] then 0
    else
      var last := data[|data| - 1];
      CountZeros(data[..|data| - 1], index) + (if index < |last| && last[index] == 0 then 1 else 0)
  }

  /** Every record is long enough for `index`. */
  predicate LongerThan(data: seq<Record>, index: nat) {
    forall k :: 0 <= k < |data| ==> index < |data[k]|
  }

  /** No record is longer than `ones_count`; a longer one makes `ones_count[index]` panic. */
  predicate Fits(data: seq<Record>) {
    forall k :: 0 <= k < |data| ==> |data[k]| <= WIDTH
  }

  lemma {:induction false} OnesAndZeros(data: seq<Record>, index: nat)
    requires LongerThan(data, index)
    ensures CountOnes(data, index) + CountZeros(data, index) == |data|
    decreases |data|
  {
    if data != [] {
      OnesAndZeros(data[..|data| - 1], index);
    }
  }

  /** The majority bit at every position of `ones_count`, ties going to 1; a position no
      record reaches has no ones and no zeros, so it is a tie. */
  function MostCommonBits(data: seq<Record>): (r: Record)
    ensures |r| == WIDTH
  {
    seq(WIDTH, i requires 0 <= i < WIDTH => if CountOnes(data, i) >= CountZeros(data, i) then 1 else 0)
  }

  lemma CountsSnoc(data: seq<Record>, rec: Record, index: nat)
    ensures CountOnes(data + [rec], index) == CountOnes(data, index) + (if index < |rec| && rec[index] == 1 then 1 else 0)
    ensures CountZeros(data + [rec], index) == CountZeros(data, index) + (if index < |rec| && rec[index] == 0 then 1 else 0)
  {
    assert (data + [rec])[..|data|] == data;
  }

  /** `find_most_common_bits`: a signed counter per position, up for a 1 and down for a 0. */
  method FindMostCommonBits(data: seq<Record>) returns (r: Record)
    requires Fits(data)
    ensures r == MostCommonBits(data)
  {
    var onesCount := new int[WIDTH](_ => 0);
    for j := 0 to |data|
      invariant forall k :: 0 <= k < WIDTH ==> onesCount[k] == CountOnes(data[..j], k) - CountZeros(data[..j], k)
    {
      var bits := data[j];
      assert data[..j + 1] == data[..j] + [bits];
      forall k | 0 <= k < WIDTH {
        CountsSnoc(data[..j], bits, k);
      }
      for index := 0 to |bits|
        invariant forall k :: 0 <= k < index ==> onesCount[k] == CountOnes(data[..j + 1], k) - CountZeros(data[..j + 1], k)
        invariant forall k :: index <= k < WIDTH ==> onesCount[k] == CountOnes(data[..j], k) - CountZeros(data[..j], k)
      {
        if bits[index] == 1 {
          onesCount[index] := onesCount[index] + 1;
        } else {
          onesCount[index] := onesCount[index] - 1;
        }
      }
    }
    assert data[..|data|] == data;
    r := seq(WIDTH, i requires 0 <= i < WIDTH reads onesCount => if onesCount[i] >= 0 then 1 else 0);
  }

  // ---------------------------------------------------------------- numbers and power consumption

  function Pow2(n: nat): nat { if n == 0 then 1 else 2 * Pow2(n - 1) }

  /** The value of the bits read as a binary numeral, most significant bit first. */
  function BinaryValue(bits: Record): nat
    decreases |bits|
  {
    if bits == [] then 0 else BinaryValue(bits[..|bits| - 1]) * 2 + bits[|bits| - 1]
  }

  lemma {:induction false} BinaryValueBound(bits: Record)
    ensures BinaryValue(bits) < Pow2(|bits|)
    decreases |bits|
  {
    if bits != [] {
      BinaryValueBound(bits[..|bits| - 1]);
    }
  }

  /** `bits_to_usize`: the bits written out and read back in base 2; an empty record is not a
      numeral, and a value of 2^64 or more does not fit a `usize`. */
  function BitsToNumber(bits: Record): (r: Result<nat, string>)
    ensures r.Err? ==> r.error == "Invalid bits"
    ensures 0 < |bits| <= 64 ==> r == Ok(BinaryValue(bits))
  {
    NarrowFits(bits);
    if bits == [] then Err("Invalid bits")
    else if BinaryValue(bits) < USIZE_LIMIT then Ok(BinaryValue(bits))
    else Err("Invalid bits")
  }

  lemma NarrowFits(bits: Record)
    ensures |bits| <= 64 ==> BinaryValue(bits) < USIZE_LIMIT
  {
    BinaryValueBound(bits);
    if |bits| <= 64 { PowMonotone(|bits|, 64); }
  }

  lemma {:induction false} PowMonotone(m: nat, n: nat)
    requires m <= n
    ensures Pow2(m) <= Pow2(n)
    ensures Pow2(64) == USIZE_LIMIT
    decreases n
  {
    if m < n { PowMonotone(m, n - 1); }
    assert Pow2(64) == USIZE_LIMIT by {
      assert Pow2(8) == 256;
      assert Pow2(16) == 256 * 256 by { PowAdd(8, 8); }
      assert Pow2(32) == 65536 * 65536 by { PowAdd(16, 16); }
      PowAdd(32, 32);
    }
  }

  lemma {:induction false} PowAdd(a: nat, b: nat)
    ensures Pow2(a + b) == Pow2(a) * Pow2(b)
    decreases b
  {
    if b > 0 { PowAdd(a, b - 1); }
  }

  /** `b ^ 1` on every bit. */
  function Complement(bits: Record): (r: Record)
    ensures |r| == |bits|
    ensures forall i :: 0 <= i < |bits| ==> r[i] == 1 - bits[i]
  {
    seq(|bits|, i requires 0 <= i < |bits| => 1 - bits[i])
  }

  /** A numeral and its bitwise complement add up to all ones. */
  lemma {:induction false} ComplementSum(bits: Record)
    ensures BinaryValue(bits) + BinaryValue(Complement(bits)) == Pow2(|bits|) - 1
    decreases |bits|
  {
    if bits != [] {
      var n := |bits|;
      ComplementSum(bits[..n - 1]);
      assert Complement(bits)[..n - 1] == Complement(bits[..n - 1]);
    }
  }

  /** `calculate_power_consumption`: gamma from the majority bits, epsilon from their
      complement, so epsilon is 4095 - gamma. */
  method PowerConsumption(data: seq<Record>) returns (r: Result<nat, string>)
    requires Fits(data)
    ensures var gamma := BinaryValue(MostCommonBits(data));
      gamma < 4096 && r == Ok(gamma * (4095 - gamma))
  {
    var gammaRaw := FindMostCommonBits(data);
    var epsilonRaw := Complement(gammaRaw);
    ComplementSum(gammaRaw);
    BinaryValueBound(gammaRaw);
    assert Pow2(12) == 4096;
    var gamma := BitsToNumber(gammaRaw);
    var epsilon := BitsToNumber(epsilonRaw);
    r := Ok(gamma.value * epsilon.value);
  }

  // ---------------------------------------------------------------- life-support filters

  /** The two bit criteria of `calculate_life_support_rating`: `|b| b` and `|b| b ^ 1`. */
  datatype Criterion = MostCommon | LeastCommon

  function Select(c: Criterion, b: Bit): Bit {
    match c
    case MostCommon => b
    case LeastCommon => 1 - b
  }

  /** `a` is `b` with some elements deleted, order kept. */
  ghost predicate SubsequenceOf<T>(a: seq<T>, b: seq<T>)
    decreases |b|
  {
    if b == [] then a == []
    else
      (a != [] && a[|a| - 1] == b[|b| - 1] && SubsequenceOf(a[..|a| - 1], b[..|b| - 1]))
      || SubsequenceOf(a, b[..|b| - 1])
  }

  lemma {:induction false} SubsequenceReflexive<T>(a: seq<T>)
    ensures SubsequenceOf(a, a)
    decreases |a|
  {
    if a != [] { SubsequenceReflexive(a[..|a| - 1]); }
  }

  lemma {:induction false} SubsequenceTransitive<T>(a: seq<T>, b: seq<T>, c: seq<T>)
    requires SubsequenceOf(a, b) && SubsequenceOf(b, c)
    ensures SubsequenceOf(a, c)
    decreases |c|
  {
    if c != [] {
      var c' := c[..|c| - 1];
      if b != [] && b[|b| - 1] == c[|c| - 1] && SubsequenceOf(b[..|b| - 1], c') {
        var b' := b[..|b| - 1];
        if a != [] && a[|a| - 1] == b[|b| - 1] && SubsequenceOf(a[..|a| - 1], b') {
          SubsequenceTransitive(a[..|a| - 1], b', c');
        } else {
          SubsequenceTransitive(a, b', c');
        }
      } else {
        SubsequenceTransitive(a, b, c');
      }
    }
  }

  /** `remaining_data.retain(|bits| bits[index] == bit)`. */
  function Retain(data: seq<Record>, index: nat, bit: Bit): (r: seq<Record>)
    requires LongerThan(data, index)
    ensures forall k :: 0 <= k < |r| ==> r[k] in data
    ensures LongerThan(r, index)
    ensures forall k :: 0 <= k < |r| ==> r[k][index] == bit
    ensures |r| == if bit == 1 then CountOnes(data, index) else CountZeros(data, index)
    decreases |data|
  {
    if data == [] then []
    else
      var last := data[|data| - 1];
      Retain(data[..|data| - 1], index, bit) + (if last[index] == bit then [last] else [])
  }

  lemma {:induction false} RetainSubsequence(data: seq<Record>, index: nat, bit: Bit)
    requires LongerThan(data, index)
    ensures SubsequenceOf(Retain(data, index, bit), data)
    decreases |data|
  {
    if data != [] {
      var init := data[..|data| - 1];
      var last := data[|data| - 1];
      var r := Retain(data, index, bit);
      RetainSubsequence(init, index, bit);
      assert data[..|data| - 1] == init;
      if last[index] == bit {
        assert r == Retain(init, index, bit) + [last];
        assert r[..|r| - 1] == Retain(init, index, bit) && r[|r| - 1] == last;
      } else {
        assert r == Retain(init, index, bit);
      }
    }
  }

  /** The filter loop never indexes out of bounds: while more than one record remains, every
      remaining record fits `ones_count` and the position is inside `ones_count` and inside
      every remaining record. This is what the source needs of its input; otherwise
      `find_most_common_bits`, `most_common_bits[index]` or `bits[index]` panics. A lone record
      is read as it is, whatever its length, since the loop does not run. */
  ghost predicate FilterSafe(data: seq<Record>, index: nat, c: Criterion)
    decreases WIDTH - index
  {
    |data| > 1 ==>
      Fits(data) && index < WIDTH && LongerThan(data, index) &&
      FilterSafe(Retain(data, index, Select(c, MostCommonBits(data)[index])), index + 1, c)
  }

  lemma RetainFits(data: seq<Record>, index: nat, bit: Bit)
    requires Fits(data) && LongerThan(data, index)
    ensures Fits(Retain(data, index, bit))
  {
  }

  /** The records the filter loop leaves, starting at position `index`. */
  ghost function FilterOutcome(data: seq<Record>, index: nat, c: Criterion): (r: seq<Record>)
    requires FilterSafe(data, index, c)
    ensures |r| <= 1
    ensures SubsequenceOf(r, data)
    decreases WIDTH - index
  {
    if |data| <= 1 then
      SubsequenceReflexive(data);
      data
    else
      var bit := Select(c, MostCommonBits(data)[index]);
      var rest := Retain(data, index, bit);
      var r := FilterOutcome(rest, index + 1, c);
      RetainSubsequence(data, index, bit);
      SubsequenceTransitive(r, rest, data);
      r
  }

  /** The rating a criterion selects: the one record left, read as a number. */
  ghost function Rating(data: seq<Record>, c: Criterion): Result<nat, string>
    requires FilterSafe(data, 0, c)
  {
    var rest := FilterOutcome(data, 0, c);
    if rest == [] then Err("No remaining data") else BitsToNumber(rest[0])
  }

  /** `filter_data_for_life_support_rating`: keep the records whose bit at the current position
      is the criterion's pick from the remaining records' majority, one position at a time,
      until at most one is left; none left is "No remaining data". */
  method FilterForRating(data: seq<Record>, c: Criterion) returns (r: Result<nat, string>)
    requires FilterSafe(data, 0, c)
    ensures r == Rating(data, c)
  {
    var index := 0;
    var remaining := data;
    while |remaining| > 1
      invariant FilterSafe(remaining, index, c)
      invariant FilterOutcome(remaining, index, c) == FilterOutcome(data, 0, c)
      decreases WIDTH - index
    {
      var mostCommonBits := FindMostCommonBits(remaining);
      var bit := Select(c, mostCommonBits[index]);
      remaining := Retain(remaining, index, bit);
      index := index + 1;
    }
    if remaining == [] {
      return Err("No remaining data");
    }
    r := BitsToNumber(remaining[0]);
  }

  /** With the majority criterion a step never empties a set of two or more records:
      ties keep the ones, so the kept side is never the smaller one. */
  lemma MostCommonKeepsSome(data: seq<Record>, index: nat)
    requires |data| > 1 && index < WIDTH && LongerThan(data, index)
    ensures |Retain(data, index, MostCommonBits(data)[index])| >= 1
  {
    OnesAndZeros(data, index);
  }

  /** The minority criterion can empty the set: two records that agree on the first bit. */
  lemma LeastCommonCanEmpty()
    ensures var data: seq<Record> := [[1], [1]];
      FilterSafe(data, 0, LeastCommon) && FilterOutcome(data, 0, LeastCommon) == []
  {
    var data: seq<Record> := [[1], [1]];
    assert data[..1] == [[1]] && data[..1][..0] == [];
    assert CountOnes(data, 0) == 2 && CountZeros(data, 0) == 0;
    assert MostCommonBits(data)[0] == 1;
    assert Retain(data, 0, 0) == [];
  }

  /** A single record is read as it is, whatever its length: the filter loop does not run. */
  lemma LoneRecordRead(rec: Record, c: Criterion)
    ensures FilterSafe([rec], 0, c) && Rating([rec], c) == BitsToNumber(rec)
  {
  }

  /** `calculate_life_support_rating`: the oxygen rating (majority) times the CO2 scrubber
      rating (minority); the first filter's error is passed on before the second runs. */
  method LifeSupportRating(data: seq<Record>) returns (r: Result<nat, string>)
    requires FilterSafe(data, 0, MostCommon) && FilterSafe(data, 0, LeastCommon)
    ensures r.Ok? <==> Rating(data, MostCommon).Ok? && Rating(data, LeastCommon).Ok?
    ensures r.Ok? ==> r.value == Rating(data, MostCommon).value * Rating(data, LeastCommon).value
    ensures Rating(data, MostCommon).Err? ==> r == Rating(data, MostCommon)
    ensures Rating(data, MostCommon).Ok? && Rating(data, LeastCommon).Err? ==> r == Rating(data, LeastCommon)
  {
    var oxygenRate := FilterForRating(data, MostCommon);
    if oxygenRate.Err? {
      r := Err(oxygenRate.error);
      assert r == oxygenRate;
      return;
    }
    var scrubberRate := FilterForRating(data, LeastCommon);
    if scrubberRate.Err? {
      r := Err(scrubberRate.error);
      return;
    }
    r := Ok(Times(oxygenRate.value, scrubberRate.value));
  }

  // ---------------------------------------------------------------- when the filters are safe

  predicate Distinct(data: seq<Record>) {
    forall i, j :: 0 <= i < j < |data| ==> data[i] != data[j]
  }

  /** All records have length `len` and agree on the positions before `index`. */
  predicate Aligned(data: seq<Record>, len: nat, index: nat) {
    && (forall k :: 0 <= k < |data| ==> |data[k]| == len)
    && (forall k, p :: 0 <= k < |data| && 0 <= p < index && p < len ==> data[k][p] == data[0][p])
  }

  lemma {:induction false} RetainDistinct(data: seq<Record>, index: nat, bit: Bit)
    requires LongerThan(data, index) && Distinct(data)
    ensures Distinct(Retain(data, index, bit))
    decreases |data|
  {
    if data != [] {
      var init := data[..|data| - 1];
      var last := data[|data| - 1];
      RetainDistinct(init, index, bit);
      var r := Retain(init, index, bit);
      assert last !in init;
      assert last !in r;
    }
  }

  /** Two distinct records that agree before `index` differ somewhere at or after it. */
  lemma DistinctAlignedShort(data: seq<Record>, len: nat, index: nat)
    requires |data| > 1 && Distinct(data) && Aligned(data, len, index)
    ensures index < len
  {
    assert data[0] != data[1];
    assert |data[0]| == len && |data[1]| == len;
    var p :| 0 <= p < len && data[0][p] != data[1][p];
  }

  /** After the step at `index` the kept records also agree at `index`. */
  lemma RetainAligned(data: seq<Record>, len: nat, index: nat, bit: Bit)
    requires index < len && Aligned(data, len, index)
    ensures Aligned(Retain(data, index, bit), len, index + 1)
  {
    var rest := Retain(data, index, bit);
    forall k | 0 <= k < |rest| ensures |rest[k]| == len {
      var i :| 0 <= i < |data| && data[i] == rest[k];
    }
    forall k, p | 0 <= k < |rest| && 0 <= p < index + 1 && p < len ensures rest[k][p] == rest[0][p] {
      var i :| 0 <= i < |data| && data[i] == rest[k];
      var j :| 0 <= j < |data| && data[j] == rest[0];
      if p < index {
        assert data[i][p] == data[0][p] == data[j][p];
      }
    }
  }

  /** Distinct records of one length that fits `ones_count` never make the filter index out of
      bounds: two records that still agree on every position would be equal. */
  lemma {:induction false} DistinctRecordsAreSafe(data: seq<Record>, len: nat, index: nat, c: Criterion)
    requires len <= WIDTH && index <= len
    requires Distinct(data) && Aligned(data, len, index)
    ensures FilterSafe(data, index, c)
    decreases len - index
  {
    if |data| > 1 {
      DistinctAlignedShort(data, len, index);
      var bit := Select(c, MostCommonBits(data)[index]);
      RetainDistinct(data, index, bit);
      RetainAligned(data, len, index, bit);
      DistinctRecordsAreSafe(Retain(data, index, bit), len, index + 1, c);
    }
  }

  lemma DistinctRecordsFilterSafely(data: seq<Record>, len: nat, c: Criterion)
    requires len <= WIDTH && Distinct(data)
    requires forall k :: 0 <= k < |data| ==> |data[k]| == len
    ensures FilterSafe(data, 0, c)
  {
    DistinctRecordsAreSafe(data, len, 0, c);
  }
}

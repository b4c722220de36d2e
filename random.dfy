/** The random package: random identifiers over a 62-character alphabet and
    random numbers in a half-open range. The pseudo-random draws
    (`rand.Intn`, `rand.Int63n`) are inputs here; seeding is not modelled. */
module Random {
  import opened GoTypes

  /** `idChars`: the ten digits, then the upper-case and the lower-case
      letters. */
  const IdChars: string := Digits + Upper + Lower
  const Digits: string := "0123456789"
  const Upper: string := "ABCDEFGHIJKLMNOPQRSTUVWXYZ"
  const Lower: string := "abcdefghijklmnopqrstuvwxyz"
  const LenChar: nat := 62

  /** The position of a character in `IdChars`, computed from its code:
      digits first, then upper-case, then lower-case letters; -1 for any
      other character. */
  function CharIndex(c: char): int
  {
    if '0' <= c <= '9' then c as int - '0' as int
    else if 'A' <= c <= 'Z' then c as int - 'A' as int + 10
    else if 'a' <= c <= 'z' then c as int - 'a' as int + 36
    else -1
  }

  /** `lenChar` is the length of `idChars`, so every draw of
      `rand.Intn(lenChar)` indexes the alphabet, and `CharIndex` inverts
      the indexing. */
  lemma AlphabetIndexing(k: nat)
    requires k < LenChar
    ensures |IdChars| == LenChar && CharIndex(IdChars[k]) == k
  {
    if k < 10 {
      DigitAt(k);
      assert IdChars[k] == Digits[k];
    } else if k < 36 {
      UpperAt(k - 10);
      assert IdChars[k] == Upper[k - 10];
    } else {
      LowerAt(k - 36);
      assert IdChars[k] == Lower[k - 36];
    }
  }

  lemma DigitAt(j: nat)
    requires j < |Digits|
    ensures Digits[j] as int == '0' as int + j
  {
  }

  lemma UpperAt(j: nat)
    requires j < |Upper|
    ensures Upper[j] as int == 'A' as int + j
  {
  }

  lemma LowerAt(j: nat)
    requires j < |Lower|
    ensures Lower[j] as int == 'a' as int + j
  {
  }

  /** The alphabet has no repeated character, so distinct draws give
      distinct characters. */
  lemma AlphabetDistinct(i: nat, j: nat)
    requires i < LenChar && j < LenChar && i != j
    ensures IdChars[i] != IdChars[j]
  {
    AlphabetIndexing(i);
    AlphabetIndexing(j);
  }

  /** `RandomString(length)`, with `draws[i]` the result of the i-th call of
      `rand.Intn(lenChar)`. A negative length makes `make` panic, hence the
      first precondition. */
  method RandomString(length: int, draws: seq<int>) returns (s: string)
    requires 0 <= length
    requires length <= |draws| && forall i :: 0 <= i < length ==> 0 <= draws[i] < LenChar
    ensures |s| == length
    ensures forall i :: 0 <= i < length ==> s[i] == IdChars[draws[i]]
    ensures forall i :: 0 <= i < length ==> s[i] in IdChars && CharIndex(s[i]) == draws[i]
  {
    var bytes := new char[length];
    for i := 0 to length
      invariant forall k :: 0 <= k < i ==> bytes[k] == IdChars[draws[k]]
    {
      AlphabetIndexing(draws[i]);
      bytes[i] := IdChars[draws[i]];
    }
    s := bytes[..];
    forall i | 0 <= i < length
      ensures CharIndex(s[i]) == draws[i]
    {
      AlphabetIndexing(draws[i]);
    }
  }

  /** `RandomNumber(min, max)` as written, with `draw` the result of
      `rand.Int63n(max - min)`. The difference is taken in int64 and may
      wrap; `rand.Int63n` panics (None) when its argument is not positive. */
  function RandomNumberAsWritten(min: int64, max: int64, draw: int): (r: Option<int64>)
    requires 0 < WrapInt64(max as int - min as int) ==> 0 <= draw < WrapInt64(max as int - min as int) as int
    ensures r.None? <==> WrapInt64(max as int - min as int) <= 0
    ensures r.Some? && min < max ==> min <= r.value < max
  {
    var n := WrapInt64(max as int - min as int);
    if n <= 0 then None else Some(WrapInt64(draw + min as int))
  }

  /** For ranges wider than MaxInt64 the difference wraps negative, so the
      function panics although `min < max`. */
  lemma WideRangePanics(min: int64, max: int64, draw: int)
    requires min < max && max as int - min as int > MaxInt64
    ensures RandomNumberAsWritten(min, max, draw).None?
  {
    assert max as int - min as int - MinInt64 >= 0x1_0000_0000_0000_0000;
  }

  /** The smallest such range: from -1 up to MaxInt64. */
  lemma WideRangeExample()
    ensures RandomNumberAsWritten(-1, MaxInt64 as int64, 0).None?
  {
    WideRangePanics(-1, MaxInt64 as int64, 0);
  }

  /** `RandomNumber(min, max)` as evidently intended: a draw from the whole
      range [0, max - min), taken without wrap-around, shifted by min. */
  function RandomNumber(min: int64, max: int64, draw: int): (r: int64)
    requires min < max && 0 <= draw < max as int - min as int
    ensures min <= r < max
    ensures r as int - min as int == draw
  {
    (draw + min as int) as int64
  }

  /** Every value of the range is the result of exactly one draw. */
  lemma RandomNumberCoversRange(min: int64, max: int64, v: int64)
    requires min <= v < max
    ensures var d := v as int - min as int; 0 <= d < max as int - min as int && RandomNumber(min, max, d) == v
  {
  }

  /** Where the range fits, the program as written agrees with the
      intended one. */
  lemma AsWrittenAgreesOnNarrowRanges(min: int64, max: int64, draw: int)
    requires min < max && max as int - min as int <= MaxInt64
    requires 0 <= draw < max as int - min as int
    ensures RandomNumberAsWritten(min, max, draw) == Some(RandomNumber(min, max, draw))
  {
  }
}

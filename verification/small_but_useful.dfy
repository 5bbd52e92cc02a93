/**
 * Small features: digit separators in numeric literals, and an extension `GetEnumerator` that
 * lets `foreach` walk a `Range` from `Start.Value` to `End.Value`, both ends included.
 */
module SmallButUseful {
  import opened Wrappers
  import opened Numbers
  import opened Ranges

  // ---------------------------------------------------------------------------------------------
  // Digit separators

  /** The value of one hexadecimal, decimal or binary digit, or -1 for anything else. */
  function DigitValue(c: char): int {
    if '0' <= c <= '9' then c as int - '0' as int
    else if 'A' <= c <= 'F' then c as int - 'A' as int + 10
    else if 'a' <= c <= 'f' then c as int - 'a' as int + 10
    else -1
  }

  /** Every character is a digit of `radix` or a separator `_`. */
  predicate DigitsOf(radix: nat, digits: string) {
    forall i :: 0 <= i < |digits| ==> digits[i] == '_' || 0 <= DigitValue(digits[i]) < radix
  }

  /**
   * The value of a literal's digits in `radix`, read left to right on top of `acc`: each digit
   * shifts the value by one place and every `_` is skipped. A character that is neither a digit of
   * the radix nor `_` gives `None`. Where C# allows a separator is `ParseLiteral`'s concern.
   */
  function LiteralValue(radix: nat, acc: nat, digits: string): Option<nat>
    decreases |digits|
  {
    if digits == [] then Some(acc)
    else if digits[0] == '_' then LiteralValue(radix, acc, digits[1..])
    else if 0 <= DigitValue(digits[0]) < radix then
      LiteralValue(radix, acc * radix + DigitValue(digits[0]), digits[1..])
    else None
  }

  /** The digits have a value exactly when each character is a digit of the radix or `_`. */
  lemma {:induction false} LiteralValueDefined(radix: nat, acc: nat, digits: string)
    ensures LiteralValue(radix, acc, digits).Some? <==> DigitsOf(radix, digits)
    decreases |digits|
  {
    if digits != [] {
      assert forall i :: 0 < i < |digits| ==> digits[1..][i - 1] == digits[i];
      if digits[0] == '_' {
        LiteralValueDefined(radix, acc, digits[1..]);
      } else if 0 <= DigitValue(digits[0]) < radix {
        LiteralValueDefined(radix, acc * radix + DigitValue(digits[0]), digits[1..]);
      }
    }
  }

  /**
   * Where C# allows separators: between digits, any number of them in a row, and right after the
   * `0x` or `0b` prefix; never last, and never first in a decimal literal, where `_1` would be an
   * identifier. There must be at least one digit.
   */
  predicate SeparatorsPlaced(radix: nat, digits: string) {
    |digits| > 0 && digits[|digits| - 1] != '_' && (radix == 10 ==> digits[0] != '_')
  }

  /**
   * The value of the literal whose digits (after any `0x` or `0b` prefix) are `digits`, or `None`
   * when C# rejects them.
   */
  function ParseLiteral(radix: nat, digits: string): Option<nat> {
    if SeparatorsPlaced(radix, digits) then LiteralValue(radix, 0, digits) else None
  }

  /** C# accepts a literal exactly when its separators are well placed and the rest are digits. */
  lemma ParseLiteralAccepts(radix: nat, digits: string)
    ensures ParseLiteral(radix, digits).Some? <==>
      SeparatorsPlaced(radix, digits) && DigitsOf(radix, digits)
  {
    LiteralValueDefined(radix, 0, digits);
  }

  /** The digits with every separator removed, the rest kept in order. */
  function WithoutSeparators(digits: string): (r: string)
    ensures '_' !in r
    ensures forall c :: c != '_' ==> multiset(r)[c] == multiset(digits)[c]
    decreases |digits|
  {
    if digits == [] then []
    else
      assert digits == [digits[0]] + digits[1..];
      if digits[0] == '_' then WithoutSeparators(digits[1..])
      else [digits[0]] + WithoutSeparators(digits[1..])
  }

  /** Removing separators from two parts is removing them from each: the order is kept. */
  lemma {:induction false} WithoutSeparatorsAppend(first: string, second: string)
    ensures WithoutSeparators(first + second) == WithoutSeparators(first) + WithoutSeparators(second)
    decreases |first|
  {
    if first == [] {
      assert first + second == second;
    } else {
      assert (first + second)[0] == first[0] && (first + second)[1..] == first[1..] + second;
      WithoutSeparatorsAppend(first[1..], second);
    }
  }

  /** Digit separators never change the value of the digits, nor whether they are all digits. */
  lemma {:induction false} SeparatorsDoNotChangeValue(radix: nat, acc: nat, digits: string)
    ensures LiteralValue(radix, acc, digits) == LiteralValue(radix, acc, WithoutSeparators(digits))
    decreases |digits|
  {
    if digits != [] {
      var rest := digits[1..];
      var r := WithoutSeparators(digits);
      if digits[0] == '_' {
        SeparatorsDoNotChangeValue(radix, acc, rest);
      } else if 0 <= DigitValue(digits[0]) < radix {
        SeparatorsDoNotChangeValue(radix, acc * radix + DigitValue(digits[0]), rest);
        assert r[0] == digits[0] && r[1..] == WithoutSeparators(rest);
      } else {
        assert r[0] == digits[0];
      }
    }
  }

  /** A literal C# accepts has the same value as the one written without separators. */
  lemma SeparatorsAreInvisible(radix: nat, digits: string)
    requires ParseLiteral(radix, digits).Some?
    ensures ParseLiteral(radix, WithoutSeparators(digits)) == ParseLiteral(radix, digits)
  {
    var r := WithoutSeparators(digits);
    var last := digits[|digits| - 1];
    assert last in multiset(digits);
    assert last in multiset(r);
    assert r != [] && r[|r| - 1] in r;
    SeparatorsDoNotChangeValue(radix, 0, digits);
  }

  /** Reading digits is compositional: the value of the first part carries into the second. */
  lemma {:induction false} LiteralValueAppend(radix: nat, acc: nat, first: string, second: string)
    ensures LiteralValue(radix, acc, first + second) ==
      match LiteralValue(radix, acc, first)
      case Some(v) => LiteralValue(radix, v, second)
      case None => None
    decreases |first|
  {
    if first == [] {
      assert first + second == second;
    } else {
      assert (first + second)[0] == first[0] && (first + second)[1..] == first[1..] + second;
      if first[0] == '_' {
        LiteralValueAppend(radix, acc, first[1..], second);
      } else if 0 <= DigitValue(first[0]) < radix {
        LiteralValueAppend(radix, acc * radix + DigitValue(first[0]), first[1..], second);
      }
    }
  }

  /** `int a = 1_000_000`, which fits an `int`. */
  lemma DecimalSeparatorExample()
    ensures ParseLiteral(10, "1_000_000") == Some(1000000) && 1000000 <= MaxInt32
  {
    assert "1_000_000" == "1_00" + "0_000";
    LiteralValueAppend(10, 0, "1_00", "0_000");
    assert LiteralValue(10, 0, "1_00") == Some(100);
    assert LiteralValue(10, 100, "0_000") == Some(1000000);
  }

  /** `uint b = 0x0FFFF_0000`, which fits a `uint`. */
  lemma HexadecimalSeparatorExample()
    ensures ParseLiteral(16, "0FFFF_0000") == Some(4294901760) && 4294901760 <= 0xFFFF_FFFF
  {
    assert "0FFFF_0000" == "0FFFF" + "_0000";
    LiteralValueAppend(16, 0, "0FFFF", "_0000");
    assert LiteralValue(16, 0, "0FFFF") == Some(0xFFFF);
    assert LiteralValue(16, 0xFFFF, "_0000") == Some(0xFFFF_0000);
  }

  /** `byte c = 0b1001_1001`, which fits a `byte`. */
  lemma BinarySeparatorExample()
    ensures ParseLiteral(2, "1001_1001") == Some(153) && 153 <= 0xFF
  {
    assert "1001_1001" == "1001" + "_1001";
    LiteralValueAppend(2, 0, "1001", "_1001");
    assert LiteralValue(2, 0, "1001") == Some(9);
    assert LiteralValue(2, 9, "_1001") == Some(153);
  }

  /**
   * Misplaced separators: `1_` and `0x_` are rejected, `_1` is no decimal literal, while
   * `0x_FF` and `1__0` are accepted.
   */
  lemma MisplacedSeparatorExamples()
    ensures ParseLiteral(10, "1_") == None && ParseLiteral(16, "_") == None
    ensures ParseLiteral(10, "_1") == None
    ensures ParseLiteral(16, "_FF") == Some(255) && ParseLiteral(10, "1__0") == Some(10)
  {
  }

  // ---------------------------------------------------------------------------------------------
  // foreach over a Range

  /**
   * `RangesExtensions.GetEnumerator`: yields `i` for `i` from `range.start.value` up to and
   * including `range.end.value`. Whether either index counts from the end is ignored: only
   * `Value` is read. The sequence holds every value the iterator yields, in order.
   */
  method GetEnumerator(range: Range) returns (yielded: seq<int>)
    ensures |yielded| == if range.start.value <= range.end.value
                         then range.end.value - range.start.value + 1 else 0
    ensures forall k :: 0 <= k < |yielded| ==> yielded[k] == range.start.value + k
    ensures forall n :: n in yielded <==> range.start.value <= n <= range.end.value
  {
    yielded := [];
    var i: int := range.start.value;
    while i <= range.end.value
      invariant range.start.value <= i
      invariant i <= range.end.value + 1 || (range.start.value > range.end.value && i == range.start.value)
      invariant |yielded| == i - range.start.value
      invariant forall k :: 0 <= k < |yielded| ==> yielded[k] == range.start.value + k
    {
      yielded := yielded + [i];
      i := i + 1;
    }
    forall n | range.start.value <= n <= range.end.value
      ensures n in yielded
    {
      assert yielded[n - range.start.value] == n;
    }
  }

  /** `foreach (var n in 1..10)` produces 1 through 10. */
  method MoreFunWithRanges() returns (output: seq<int>)
    ensures output == [1, 2, 3, 4, 5, 6, 7, 8, 9, 10]
  {
    output := GetEnumerator(Range(FromStart(1), FromStart(10)));
  }

  // ---------------------------------------------------------------------------------------------
  // The enumerator as written: `int i` with an unchecked `i++`

  /** The values the loop `for (int i = start; i <= end; i++)` yields in its first `fuel` steps. */
  function AsWrittenYields(i: Int32, end: Int32, fuel: nat): (r: seq<int>)
    ensures |r| <= fuel
    ensures forall k :: 0 <= k < |r| ==> MinInt32 <= r[k] <= end
    decreases fuel
  {
    if fuel == 0 || i > end then [] else [i] + AsWrittenYields(Add(i, 1), end, fuel - 1)
  }

  /**
   * Below `int.MaxValue` the loop as written agrees with `GetEnumerator`: given enough steps it
   * yields `end - i + 1` values (none when `i > end`) ascending by one from `i`, and stops.
   */
  lemma {:induction false} AsWrittenAgreesBelowMax(i: Int32, end: Int32, fuel: nat)
    requires end < MaxInt32 && fuel > end - i
    ensures |AsWrittenYields(i, end, fuel)| == if i <= end then end - i + 1 else 0
    ensures forall k :: 0 <= k < |AsWrittenYields(i, end, fuel)| ==> AsWrittenYields(i, end, fuel)[k] == i + k
    decreases fuel
  {
    if i <= end {
      assert Add(i, 1) == i + 1;
      AsWrittenAgreesBelowMax(i + 1, end, fuel - 1);
    }
  }

  /**
   * For `End.Value == int.MaxValue` the guard `i <= End.Value` never fails: whatever the step
   * budget, the loop uses all of it, so it never finishes.
   */
  lemma {:induction false} AsWrittenNeverStopsAtMaxValue(i: Int32, fuel: nat)
    ensures |AsWrittenYields(i, MaxInt32, fuel)| == fuel
    decreases fuel
  {
    if fuel > 0 {
      AsWrittenNeverStopsAtMaxValue(Add(i, 1), fuel - 1);
    }
  }

  /**
   * After `int.MaxValue` the counter wraps to `int.MinValue`, which the loop yields next: the
   * range `2147483647..2147483647` yields a second and a third value where one is due.
   */
  lemma AsWrittenWrapsToMinValue()
    ensures AsWrittenYields(MaxInt32, MaxInt32, 3) == [MaxInt32, MinInt32, MinInt32 + 1]
  {
  }
}

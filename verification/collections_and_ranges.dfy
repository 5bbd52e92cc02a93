/**
 * Collections and ranges: building a list in place and with collection expressions (spreads
 * included), indexing an array from the end, slicing it with half-open ranges, and joining its
 * elements with commas.
 */
module CollectionsAndRanges {
  import opened Wrappers
  import opened Text
  import opened Ranges

  // ---------------------------------------------------------------------------------------------
  // Building collections

  /** A `List<T>`: a growable sequence updated in place. */
  class List<T> {
    var items: seq<T>

    constructor ()
      ensures items == []
    {
      items := [];
    }

    /** `List.Add`: appends one element at the end. */
    method Add(x: T)
      modifies this
      ensures items == old(items) + [x]
    {
      items := items + [x];
    }
  }

  /** One element of a collection expression: a single value, or `..xs`, which spreads `xs`. */
  datatype Element<T> = Item(value: T) | Spread(items: seq<T>)

  /** Number of values a collection expression holds: one per item, all of each spread. */
  function ElementsLength<T>(elements: seq<Element<T>>): nat {
    if elements == [] then 0
    else (if elements[0].Item? then 1 else |elements[0].items|) + ElementsLength(elements[1..])
  }

  /** The value of a collection expression `[e0, e1, ...]`: its elements, spreads flattened, in order. */
  function CollectionExpression<T>(elements: seq<Element<T>>): (r: seq<T>)
    ensures |r| == ElementsLength(elements)
  {
    if elements == [] then []
    else
      match elements[0]
      case Item(x) => [x] + CollectionExpression(elements[1..])
      case Spread(xs) => xs + CollectionExpression(elements[1..])
  }

  /** Each value becomes an item. */
  function Items<T>(xs: seq<T>): (es: seq<Element<T>>)
    ensures |es| == |xs|
    ensures forall i :: 0 <= i < |xs| ==> es[i] == Item(xs[i])
  {
    if xs == [] then [] else [Item(xs[0])] + Items(xs[1..])
  }

  /** A collection expression of two parts holds the values of the first, then of the second. */
  lemma {:induction false} CollectionExpressionAppend<T>(first: seq<Element<T>>, second: seq<Element<T>>)
    ensures CollectionExpression(first + second) == CollectionExpression(first) + CollectionExpression(second)
  {
    if first != [] {
      assert (first + second)[0] == first[0];
      assert (first + second)[1..] == first[1..] + second;
      CollectionExpressionAppend(first[1..], second);
    } else {
      assert first + second == second;
    }
  }

  /** A list of plain items holds exactly those values. */
  lemma {:induction false} CollectionExpressionOfItems<T>(xs: seq<T>)
    ensures CollectionExpression(Items(xs)) == xs
  {
    if xs != [] {
      assert Items(xs)[1..] == Items(xs[1..]);
      CollectionExpressionOfItems(xs[1..]);
    }
  }

  /** `[..list, x, y, ...]`: the old elements, then the new ones, in order. */
  lemma SpreadThenItems<T>(list: seq<T>, xs: seq<T>)
    ensures CollectionExpression([Spread(list)] + Items(xs)) == list + xs
  {
    CollectionExpressionAppend([Spread(list)], Items(xs));
    CollectionExpressionOfItems(xs);
  }

  /**
   * `Collections.Basics`: the list `[1, 2]` built by hand with `Add` and as a collection
   * expression, then extended by a spread. The C# 3 and C# 9 initializers in between build the
   * same `[1, 2]` and are not repeated here.
   */
  method Basics() returns (list: seq<int>, a: seq<int>)
    ensures list == [1, 2, 3, 4, 5]
    ensures a == []
  {
    // C# 1: manual initialization
    var manual := new List<int>();
    manual.Add(1);
    manual.Add(2);
    assert manual.items == [1, 2];

    // C# 12: collection expressions
    list := CollectionExpression([Item(1), Item(2)]);
    SpreadThenItems(list, [3, 4, 5]);
    assert Items([3, 4, 5]) == [Item(3), Item(4), Item(5)];
    list := CollectionExpression([Spread(list), Item(3), Item(4), Item(5)]);

    a := CollectionExpression([]);
  }

  // ---------------------------------------------------------------------------------------------
  // Indices and ranges

  datatype Exception = IndexOutOfRangeException | ArgumentOutOfRangeException

  /** `a[index]`: the offset of `^k` is `Length - k`; an offset outside the array throws. */
  function ElementAt<T>(a: seq<T>, index: Index): (r: Result<T, Exception>)
    ensures r.Success? <==> 0 <= index.GetOffset(|a|) < |a|
    ensures r.Success? ==> r.value == a[index.GetOffset(|a|)]
    ensures r.Failure? ==> r.error == IndexOutOfRangeException
  {
    var offset := index.GetOffset(|a|);
    if 0 <= offset < |a| then Success(a[offset]) else Failure(IndexOutOfRangeException)
  }

  /**
   * `a[range]`: half-open, from the start's offset up to but excluding the end's offset.
   * An end beyond the array, or a start after the end, throws.
   */
  function Slice<T>(a: seq<T>, range: Range): (r: Result<seq<T>, Exception>)
    ensures var start, end := range.start.GetOffset(|a|), range.end.GetOffset(|a|);
      && (r.Success? <==> 0 <= start <= end <= |a|)
      && (r.Success? ==> |r.value| == end - start
                         && forall k :: 0 <= k < |r.value| ==> r.value[k] == a[start + k])
      && (r.Failure? ==> r.error == ArgumentOutOfRangeException)
  {
    var start, end := range.start.GetOffset(|a|), range.end.GetOffset(|a|);
    if 0 <= start <= end <= |a| then Success(a[start..end]) else Failure(ArgumentOutOfRangeException)
  }

  /** `^k` is the k-th element from the end; `^0` is one past the last element. */
  lemma IndexFromEnd<T>(a: seq<T>, k: IndexValue)
    ensures 1 <= k <= |a| ==> ElementAt(a, FromEnd(k)) == Success(a[|a| - k])
    ensures ElementAt(a, FromEnd(0)) == Failure(IndexOutOfRangeException)
  {
  }

  /** An omitted start is `0`, an omitted end is `^0`, and `0..^0` is the whole sequence. */
  lemma OmittedBounds<T>(a: seq<T>, k: IndexValue)
    ensures k <= |a| ==> Slice(a, EndAt(FromStart(k))) == Success(a[..k])
    ensures k <= |a| ==> Slice(a, StartAt(FromEnd(k))) == Success(a[|a| - k..])
    ensures Slice(a, All) == Success(a)
  {
    assert a[0..|a|] == a;
    if k <= |a| {
      assert a[|a| - k..|a|] == a[|a| - k..];
    }
  }

  // ---------------------------------------------------------------------------------------------
  // AsString

  /** `string.Join(",", a)`: the elements' decimal texts with a comma between neighbours. */
  function AsString(a: seq<int>): (s: string)
    ensures s == "" <==> a == []
  {
    if a == [] then ""
    else if |a| == 1 then IntToString(a[0])
    else IntToString(a[0]) + "," + AsString(a[1..])
  }

  /** The number of times `c` occurs in `s`. */
  function Occurrences(s: string, c: char): nat {
    if s == [] then 0 else (if s[0] == c then 1 else 0) + Occurrences(s[1..], c)
  }

  lemma {:induction false} OccurrencesAppend(s: string, t: string, c: char)
    ensures Occurrences(s + t, c) == Occurrences(s, c) + Occurrences(t, c)
  {
    if s != [] {
      assert (s + t)[0] == s[0];
      assert (s + t)[1..] == s[1..] + t;
      OccurrencesAppend(s[1..], t, c);
    } else {
      assert s + t == t;
    }
  }

  lemma {:induction false} NoCommaInNumber(n: int)
    ensures Occurrences(IntToString(n), ',') == 0
  {
    var s := IntToString(n);
    NoCommaFrom(s, 0);
  }

  lemma {:induction false} NoCommaFrom(s: string, from: nat)
    requires from <= |s|
    requires forall i :: 0 <= i < |s| ==> s[i] != ','
    ensures Occurrences(s[from..], ',') == 0
    decreases |s| - from
  {
    if from < |s| {
      assert s[from..][1..] == s[from + 1..];
      NoCommaFrom(s, from + 1);
    }
  }

  /**
   * The separator stands only between neighbours: `n` elements give `n - 1` commas, and the
   * text of a non-empty array neither starts nor ends with one.
   */
  lemma {:induction false} AsStringSeparators(a: seq<int>)
    ensures Occurrences(AsString(a), ',') == if a == [] then 0 else |a| - 1
    ensures a != [] ==> AsString(a)[0] != ',' && AsString(a)[|AsString(a)| - 1] != ','
  {
    if a != [] {
      NoCommaInNumber(a[0]);
      if |a| > 1 {
        AsStringSeparators(a[1..]);
        assert AsString(a) == IntToString(a[0]) + ("," + AsString(a[1..]));
        OccurrencesAppend(IntToString(a[0]), "," + AsString(a[1..]), ',');
        assert ("," + AsString(a[1..]))[1..] == AsString(a[1..]);
        assert Occurrences("," + AsString(a[1..]), ',') == 1 + Occurrences(AsString(a[1..]), ',');
      }
    }
  }

  /** Joining two non-empty arrays is joining each, with one comma between the two texts. */
  lemma {:induction false} AsStringAppend(a: seq<int>, b: seq<int>)
    requires a != [] && b != []
    ensures AsString(a + b) == AsString(a) + "," + AsString(b)
  {
    assert (a + b)[0] == a[0];
    if |a| == 1 {
      assert (a + b)[1..] == b;
    } else {
      assert (a + b)[1..] == a[1..] + b;
      AsStringAppend(a[1..], b);
    }
  }

  // ---------------------------------------------------------------------------------------------
  // The IndicesAndRanges example

  /** `Ids`: 1 to 10 at positions 0 to 9 (`^10` to `^1`). */
  const Ids: seq<int> := [1, 2, 3, 4, 5, 6, 7, 8, 9, 10]

  /** `TestIndicesAndRanges`: each slice and index of `Ids`. */
  lemma TestIndicesAndRanges()
    ensures Slice(Ids, Range(FromStart(0), FromStart(5))) == Success([1, 2, 3, 4, 5])
    ensures Slice(Ids, EndAt(FromStart(5))) == Success([1, 2, 3, 4, 5])
    ensures Slice(Ids, Range(FromStart(1), FromStart(5))) == Success([2, 3, 4, 5])
    ensures ElementAt(Ids, FromEnd(1)) == Success(10)
    ensures Slice(Ids, StartAt(FromEnd(2))) == Success([9, 10])
    ensures Slice(Ids, Range(FromEnd(2), FromEnd(0))) == Success([9, 10])
  {
    assert Ids[0..5] == [1, 2, 3, 4, 5];
    assert Ids[1..5] == [2, 3, 4, 5];
    assert Ids[8..10] == [9, 10];
  }

  /** The text `TestIndicesAndRanges` writes for `Ids[0..5]` and `Ids[..5]`. */
  lemma TestIndicesAndRangesFirstFive()
    ensures AsString([1, 2, 3, 4, 5]) == "1,2,3,4,5"
  {
    var tail := [2, 3, 4, 5];
    TestIndicesAndRangesFromSecond();
    assert ([1] + tail)[1..] == tail;
    assert [1] + tail == [1, 2, 3, 4, 5];
  }

  /** The text `TestIndicesAndRanges` writes for `Ids[1..5]`. */
  lemma TestIndicesAndRangesFromSecond()
    ensures AsString([2, 3, 4, 5]) == "2,3,4,5"
  {
    var tail := [2, 3, 4, 5];
    assert AsString(tail[3..]) == "5";
    assert tail[2..][1..] == tail[3..];
    assert AsString(tail[2..]) == "4,5";
    assert tail[1..][1..] == tail[2..];
    assert AsString(tail[1..]) == "3,4,5";
  }

  /** The text `TestIndicesAndRanges` writes for `Ids[^2..]` and `Ids[^2..^0]`. */
  lemma TestIndicesAndRangesLastTwo()
    ensures AsString([9, 10]) == "9,10"
  {
    assert IntToString(10) == "10";
    assert [9, 10][1..] == [10];
  }
}

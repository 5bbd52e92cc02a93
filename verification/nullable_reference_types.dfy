/**
 * Nullable reference types: a `string?` is an `Option<string>`, with `None` for `null`.
 * The class `Person` shows the defaults of its properties; `NullabilityExample` has the
 * null helpers and `SumLength`.
 */
module NullableReferenceTypes {
  import opened Wrappers
  import opened Numbers

  /** A person whose properties are get-only, so each keeps the value it is initialised with. */
  class Person {
    /** `List<string>`, never null, its elements never null. */
    const children: seq<string>
    /** `string?`: optional. */
    const jobTitle: Option<string>
    /** `List<string?>?`: the list may be null and so may its elements. */
    const friends: Option<seq<Option<string>>>
    /** `Dictionary<string?, int>`: the dictionary itself rejects a null key, so keys are strings. */
    const friendsWithAge: map<string, int>

    constructor ()
      ensures children == [] && jobTitle == None && friends == None && friendsWithAge == map[]
    {
      children := [];
      jobTitle := None;
      friends := None;
      friendsWithAge := map[];
    }
  }

  /** `string.IsNullOrEmpty`. */
  function IsNullOrEmpty(str: Option<string>): (b: bool)
    ensures b <==> (str == None || str == Some(""))
  {
    match str
    case None => true
    case Some(s) => |s| == 0
  }

  /**
   * `t!`: the null-forgiving operator only silences the compiler; it checks nothing at run time,
   * so a null argument comes back as null.
   */
  function NotNull<T>(t: Option<T>): (r: Option<T>)
    ensures r.Some? <==> t.Some?
    ensures t.Some? ==> r.value == t.value
  {
    t
  }

  /** The length a string contributes: null and "" count as 0. */
  function LengthOrZero(str: Option<string>): nat {
    if str.Some? then |str.value| else 0
  }

  /** The exact value `SumLength` computes before 32-bit truncation. */
  function ExactSumLength(str1: Option<string>, str2: Option<string>): nat {
    LengthOrZero(str1) + 3 * LengthOrZero(str2)
  }

  /**
   * Adds the length of `str1` once and the length of `str2` three times (once through each of
   * three ways of reading a nullable string). `result` is a C# `int`, so every `+=` wraps.
   */
  method SumLength(str1: Option<NetString>, str2: Option<NetString>) returns (result: Int32)
    ensures result == Wrap(ExactSumLength(str1, str2))
    ensures ExactSumLength(str1, str2) <= MaxInt32 ==>
      0 <= result && result == LengthOrZero(str1) + 3 * LengthOrZero(str2)
  {
    result := 0;
    if !IsNullOrEmpty(str1) {
      result := Add(result, |str1.value|);
    }
    assert result == LengthOrZero(str1);

    if !IsNullOrEmpty(str2) {
      ghost var before := result;
      result := Add(result, |str2.value|);
      result := Add(result, |NotNull(str2).value|);
      result := Add(result, |str2.value|);
      AddThrice(before, |str2.value|);
    } else {
      assert ExactSumLength(str1, str2) == result;
    }
  }

  /** Null and empty strings contribute nothing. */
  lemma SumLengthOfNullOrEmpty(str1: Option<string>, str2: Option<string>)
    requires IsNullOrEmpty(str1) && IsNullOrEmpty(str2)
    ensures Wrap(ExactSumLength(str1, str2)) == 0
  {
  }

  /** A non-empty `str1` adds its length once; a non-empty `str2` adds its length three times. */
  lemma SumLengthContributions(str1: Option<string>, str2: Option<string>)
    ensures !IsNullOrEmpty(str1) ==>
      ExactSumLength(str1, str2) == |str1.value| + ExactSumLength(None, str2)
    ensures !IsNullOrEmpty(str2) ==>
      ExactSumLength(str1, str2) == ExactSumLength(str1, None) + 3 * |str2.value|
  {
  }
}

/**
 * Pattern matching: a switch with type patterns and `when` guards (`CalculateToll`), a count
 * that does not depend on which branch of a type switch is taken (`GetCount`), and list
 * patterns whose elements are constant, relational and `or` patterns.
 */
module PatternMatching {
  import opened Wrappers
  import opened Numbers

  // ---------------------------------------------------------------------------------------------
  // Conditions in a switch

  /**
   * `abstract record Vehicle(int Weight)` and its subclasses `Car` and `Truck`. A subclass that
   * derives from neither `Car` nor `Truck` is an `OtherVehicle`, carrying the name its `GetType()`
   * reports; one that derives from `Car` or `Truck` is modelled as that class.
   */
  datatype Vehicle =
    | Car(weight: Int32)
    | Truck(weight: Int32)
    | OtherVehicle(typeName: string, weight: Int32)

  datatype InvalidOperationException = InvalidOperationException(message: string)

  /** The light/heavy boundary of the toll table: below it a vehicle is light. */
  const LightWeightLimit: int := 1000

  /** `ConditionsInSwitch.CalculateToll`. */
  function CalculateToll(vehicle: Vehicle): (r: Result<int, InvalidOperationException>)
    ensures r.Success? <==> (vehicle.Car? || vehicle.Truck?)
    ensures vehicle.Car? ==> r.value == (if vehicle.weight < LightWeightLimit then 2 else 5)
    ensures vehicle.Truck? ==> r.value == (if vehicle.weight < LightWeightLimit then 10 else 20)
    ensures vehicle.OtherVehicle? ==> r.error.message == "Unknown type " + vehicle.typeName
  {
    match vehicle
    case Car(w) => if w < LightWeightLimit then Success(2) else Success(5)
    case Truck(w) => if w < LightWeightLimit then Success(10) else Success(20)
    case OtherVehicle(name, _) => Failure(InvalidOperationException("Unknown type " + name))
  }

  /** Within one kind of vehicle, a heavier vehicle never pays less. */
  lemma TollMonotoneInWeight(lighter: Vehicle, heavier: Vehicle)
    requires (lighter.Car? && heavier.Car?) || (lighter.Truck? && heavier.Truck?)
    requires lighter.weight <= heavier.weight
    ensures CalculateToll(lighter).Success? && CalculateToll(heavier).Success?
    ensures CalculateToll(lighter).value <= CalculateToll(heavier).value
  {
  }

  // ---------------------------------------------------------------------------------------------
  // Type checks

  /**
   * The local `GetCount`: an array reports `Length`, a collection `Count`, anything else is
   * enumerated by `Count()`; each is the number of elements.
   */
  function GetCount<T>(sequence: seq<T>): (length: nat)
    ensures length == |sequence|
  {
    |sequence|
  }

  /** `Enumerable.Range(start, count)`: `count` consecutive integers from `start`. */
  function EnumerableRange(start: int, count: nat): (r: seq<int>)
    ensures |r| == count
    ensures forall k :: 0 <= k < count ==> r[k] == start + k
    decreases count
  {
    if count == 0 then [] else [start] + EnumerableRange(start + 1, count - 1)
  }

  /** The three calls of `TypeCheckWithTypeHierarchy`: an array, a list and a range of three. */
  lemma TypeCheckWithTypeHierarchy()
    ensures GetCount([1, 2, 3]) == 3
    ensures EnumerableRange(1, 3) == [1, 2, 3] && GetCount(EnumerableRange(1, 3)) == 3
  {
  }

  // ---------------------------------------------------------------------------------------------
  // List patterns

  /** A pattern for one element: a constant, `<= c`, `>= c`, or `p or q`. */
  datatype Pattern =
    | Constant(value: int)
    | LessOrEqual(bound: int)
    | GreaterOrEqual(bound: int)
    | Or(left: Pattern, right: Pattern)

  predicate MatchesElement(p: Pattern, x: int) {
    match p
    case Constant(c) => x == c
    case LessOrEqual(c) => x <= c
    case GreaterOrEqual(c) => x >= c
    case Or(l, r) => MatchesElement(l, x) || MatchesElement(r, x)
  }

  /** `xs is [p0, p1, ...]`: the length must agree, then each element must match its pattern. */
  predicate MatchesList(xs: seq<int>, patterns: seq<Pattern>) {
    |xs| == |patterns| && forall i :: 0 <= i < |xs| ==> MatchesElement(patterns[i], xs[i])
  }

  /** The list pattern `[c0, c1, ...]` built from constants. */
  function Constants(cs: seq<int>): (ps: seq<Pattern>)
    ensures |ps| == |cs|
    ensures forall i :: 0 <= i < |cs| ==> ps[i] == Constant(cs[i])
  {
    if cs == [] then [] else [Constant(cs[0])] + Constants(cs[1..])
  }

  /** A list pattern of constants matches exactly the list of those constants. */
  lemma ConstantListPattern(xs: seq<int>, cs: seq<int>)
    ensures MatchesList(xs, Constants(cs)) <==> xs == cs
  {
    if MatchesList(xs, Constants(cs)) {
      forall i | 0 <= i < |xs|
        ensures xs[i] == cs[i]
      {
        assert MatchesElement(Constants(cs)[i], xs[i]);
      }
    }
  }

  /** `ListPatterns.Example` on `numbers = { 1, 2, 3 }`. */
  lemma ListPatternExamples()
    ensures MatchesList([1, 2, 3], Constants([1, 2, 3]))
    ensures !MatchesList([1, 2, 3], Constants([1, 2, 4]))
    ensures !MatchesList([1, 2, 3], Constants([1, 2, 3, 4]))
    ensures MatchesList([1, 2, 3], [Or(Constant(0), Constant(1)), LessOrEqual(2), GreaterOrEqual(3)])
  {
    ConstantListPattern([1, 2, 3], [1, 2, 3]);
    ConstantListPattern([1, 2, 3], [1, 2, 4]);
    ConstantListPattern([1, 2, 3], [1, 2, 3, 4]);
    var ps := [Or(Constant(0), Constant(1)), LessOrEqual(2), GreaterOrEqual(3)];
    assert MatchesElement(ps[0], 1) && MatchesElement(ps[1], 2) && MatchesElement(ps[2], 3);
  }
}

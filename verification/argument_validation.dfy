/**
 * `Contract.Assert` with a lazily built message. The message argument is an interpolated string
 * whose handler, `ContractMessageInterpolatedStringHandler`, is given the asserted condition:
 * when it holds the handler allocates nothing and the compiler skips every piece of the message,
 * so no interpolation hole is evaluated; when it fails the pieces are appended in order and the
 * assertion throws a `ContractException` that names the condition's source text.
 */
module ArgumentValidation {
  import opened Wrappers
  import opened Text

  datatype ContractException = ContractException(message: string)

  /** The text every violation message starts with. */
  const ViolationPrefix: string := "Contract violation: "

  /** `Contract.ReportFailure`: the exception it throws, "Contract violation: {condition}. {message}". */
  function ReportFailure(conditionText: string, userMessage: string): (e: ContractException)
    ensures |e.message| == |ViolationPrefix| + |conditionText| + 2 + |userMessage|
    ensures e.message[..|ViolationPrefix|] == ViolationPrefix
    ensures e.message[|ViolationPrefix|..|ViolationPrefix| + |conditionText|] == conditionText
    ensures e.message[|ViolationPrefix| + |conditionText|..|e.message| - |userMessage|] == ". "
    ensures e.message[|e.message| - |userMessage|..] == userMessage
  {
    ContractException(ViolationPrefix + conditionText + ". " + userMessage)
  }

  /** For one condition text, the message determines the user message: none is lost or merged. */
  lemma ReportFailureKeepsUserMessage(conditionText: string, m1: string, m2: string)
    requires ReportFailure(conditionText, m1) == ReportFailure(conditionText, m2)
    ensures m1 == m2
  {
    var e := ReportFailure(conditionText, m1);
    assert m1 == e.message[|e.message| - |m1|..];
  }

  /**
   * `ContractMessageInterpolatedStringHandler`: a string builder that exists only when the
   * asserted condition failed (`None` stands for the null `_builder`). The ghost `appended` records
   * the pieces appended so far, in order.
   */
  class ContractMessageHandler {
    var builder: Option<string>
    ghost var appended: seq<Piece>

    /** A handler with a builder holds exactly the rendering of the pieces appended to it. */
    ghost predicate Valid()
      reads this
    {
      builder == Some(Render(appended))
    }

    /**
     * The handler's constructor. `literalLength` and `formattedCount` are the compiler's size
     * hints and are ignored. `handlerIsValid` tells the compiler whether to append the pieces
     * of the message: only when `predicateValue` (the C# `predicate`) is false.
     */
    static method Create(literalLength: int, formattedCount: int, predicateValue: bool)
      returns (handler: ContractMessageHandler, handlerIsValid: bool)
      ensures fresh(handler)
      ensures handlerIsValid <==> !predicateValue
      ensures predicateValue ==> handler.builder == None
      ensures !predicateValue ==> handler.builder == Some("")
      ensures !predicateValue ==> handler.Valid() && handler.appended == []
    {
      handler := new ContractMessageHandler;
      handler.builder := None;
      handler.appended := [];
      if predicateValue {
        handlerIsValid := false;
        return;
      }
      handlerIsValid := true;
      handler.builder := Some("");
    }

    /** `AppendLiteral`: a literal piece goes at the end of the message. */
    method AppendLiteral(s: string)
      requires Valid()
      modifies this
      ensures builder == Some(old(builder).value + s)
      ensures appended == old(appended) + [Literal(s)]
      ensures Valid()
    {
      RenderAppend(appended, Literal(s));
      builder := Some(builder.value + s);
      appended := appended + [Literal(s)];
    }

    /**
     * `AppendFormatted`: the text of a hole's value goes at the end of the message. `text` is
     * what `t?.ToString()` gives; a null value (`None`) appends nothing.
     */
    method AppendFormatted(text: Option<string>)
      requires Valid()
      modifies this
      ensures builder == Some(old(builder).value + (if text.Some? then text.value else ""))
      ensures appended == old(appended) + [Hole(text)]
      ensures Valid()
    {
      RenderAppend(appended, Hole(text));
      appended := appended + [Hole(text)];
      match text
      case None =>
        assert builder.value + "" == builder.value;
      case Some(s) =>
        builder := Some(builder.value + s);
    }

    /** `ToString`: the in-order concatenation of every piece appended so far. */
    function ToString(): (s: string)
      reads this
      requires Valid()
      ensures s == Render(appended)
    {
      builder.value
    }
  }

  /**
   * `Contract.Assert`. `conditionText` is the condition's source text, which the compiler
   * passes for `[CallerArgumentExpression]`; the handler was built with `predicate` set to `condition`,
   * so it has a builder whenever the condition failed.
   */
  function Assert(condition: bool, userMessage: ContractMessageHandler, conditionText: string)
    : (r: Result<string, ContractException>)
    reads userMessage
    requires !condition ==> userMessage.Valid()
    ensures r.Success? <==> condition
    ensures r.Success? ==> r.value == conditionText
    ensures r.Failure? ==> r.error == ReportFailure(conditionText, Render(userMessage.appended))
  {
    if !condition then Failure(ReportFailure(conditionText, userMessage.ToString()))
    else Success(conditionText)
  }

  // ---------------------------------------------------------------------------------------------
  // What the compiler makes of `Contract.Assert(condition, $"...")`

  /** A piece of an interpolated string: literal text, or a hole with the text of its value. */
  datatype Piece = Literal(text: string) | Hole(value: Option<string>)

  /** The message an interpolated string spells: its pieces in order, a null hole as nothing. */
  function Render(pieces: seq<Piece>): string {
    if pieces == [] then "" else PieceText(pieces[0]) + Render(pieces[1..])
  }

  function PieceText(piece: Piece): string {
    match piece
    case Literal(s) => s
    case Hole(v) => if v.Some? then v.value else ""
  }

  /** The number of holes, the compiler's `formattedCount`. */
  function HoleCount(pieces: seq<Piece>): nat {
    if pieces == [] then 0 else (if pieces[0].Hole? then 1 else 0) + HoleCount(pieces[1..])
  }

  /** The total length of the literal pieces, the compiler's `literalLength`. */
  function LiteralLength(pieces: seq<Piece>): nat {
    if pieces == [] then 0
    else (if pieces[0].Literal? then |pieces[0].text| else 0) + LiteralLength(pieces[1..])
  }

  /** Appending a piece appends its text to the message and counts it if it is a hole. */
  lemma {:induction false} RenderAppend(pieces: seq<Piece>, piece: Piece)
    ensures Render(pieces + [piece]) == Render(pieces) + PieceText(piece)
    ensures HoleCount(pieces + [piece]) == HoleCount(pieces) + (if piece.Hole? then 1 else 0)
  {
    if pieces == [] {
      assert [] + [piece] == [piece];
    } else {
      assert (pieces + [piece])[0] == pieces[0];
      assert (pieces + [piece])[1..] == pieces[1..] + [piece];
      RenderAppend(pieces[1..], piece);
    }
  }

  /**
   * The lowered call `Contract.Assert(condition, $"{pieces}")`: build the handler, append the
   * pieces one by one only if the handler is valid, then assert. `holesEvaluated` counts the
   * holes whose expressions run. A passing assertion returns its condition text and evaluates no
   * hole; a failing one evaluates every hole once and throws with the rendered message.
   */
  method AssertInterpolated(condition: bool, conditionText: string, pieces: seq<Piece>)
    returns (outcome: Result<string, ContractException>, holesEvaluated: nat)
    ensures condition ==> outcome == Success(conditionText) && holesEvaluated == 0
    ensures !condition ==>
      && outcome == Failure(ReportFailure(conditionText, Render(pieces)))
      && holesEvaluated == HoleCount(pieces)
  {
    var handler, handlerIsValid :=
      ContractMessageHandler.Create(LiteralLength(pieces), HoleCount(pieces), condition);
    holesEvaluated := 0;
    if handlerIsValid {
      for i := 0 to |pieces|
        invariant handler.Valid() && handler.appended == pieces[..i]
        invariant holesEvaluated == HoleCount(pieces[..i])
      {
        assert pieces[..i + 1] == pieces[..i] + [pieces[i]];
        RenderAppend(pieces[..i], pieces[i]);
        match pieces[i]
        case Literal(s) =>
          handler.AppendLiteral(s);
        case Hole(v) =>
          holesEvaluated := holesEvaluated + 1;
          handler.AppendFormatted(v);
      }
      assert pieces[..|pieces|] == pieces;
    }
    outcome := Assert(condition, handler, conditionText);
  }

  /** The message `$"x: {x}, y: {y}"` with `x = 42, y = -1`. */
  lemma RenderShowUserMessage()
    ensures Render([Literal("x: "), Hole(Some("42")), Literal(", y: "), Hole(Some("-1"))]) == "x: 42, y: -1"
  {
  }

  /** The texts of `x = 42` and `y = -1`. */
  lemma ShowUserMessageNumbers()
    ensures IntToString(42) == "42" && IntToString(-1) == "-1"
  {
  }

  /** The text of the violation `ShowUserMessage` reports. */
  lemma ShowUserMessageText()
    ensures ViolationPrefix + "x != 42 && y != -1" + ". " + "x: 42, y: -1" ==
      "Contract violation: x != 42 && y != -1. x: 42, y: -1"
  {
  }

  /** `ShowUserMessage`: with `x = 42, y = -1` the assertion `x != 42 && y != -1` throws. */
  method ShowUserMessage() returns (outcome: Result<string, ContractException>)
    ensures outcome == Failure(ContractException(
      "Contract violation: x != 42 && y != -1. x: 42, y: -1"))
  {
    var x, y := 42, -1;
    ShowUserMessageNumbers();
    ShowUserMessageText();
    var pieces := [Literal("x: "), Hole(Some(IntToString(x))), Literal(", y: "), Hole(Some(IntToString(y)))];
    assert pieces == [Literal("x: "), Hole(Some("42")), Literal(", y: "), Hole(Some("-1"))];
    RenderShowUserMessage();
    var holesEvaluated;
    outcome, holesEvaluated := AssertInterpolated(x != 42 && y != -1, "x != 42 && y != -1", pieces);
    assert outcome == Failure(ReportFailure("x != 42 && y != -1", "x: 42, y: -1"));

  }

  /**
   * The lowered call `Contract.Assert(condition, $"i: {i}. {sideEffectTracker++}")`: the holes,
   * and with them the increment, run only when the handler is valid, that is when the condition
   * failed.
   */
  method AssertWithTrackedHole(condition: bool, conditionText: string, i: int, sideEffectTracker: int)
    returns (outcome: Result<string, ContractException>, trackerAfter: int)
    ensures condition ==> outcome == Success(conditionText) && trackerAfter == sideEffectTracker
    ensures !condition ==>
      && outcome == Failure(ReportFailure(conditionText,
                                          "i: " + IntToString(i) + ". " + IntToString(sideEffectTracker)))
      && trackerAfter == sideEffectTracker + 1
  {
    trackerAfter := sideEffectTracker;
    var handler, handlerIsValid := ContractMessageHandler.Create(5, 2, condition);
    if handlerIsValid {
      handler.AppendLiteral("i: ");
      handler.AppendFormatted(Some(IntToString(i)));
      handler.AppendLiteral(". ");
      handler.AppendFormatted(Some(IntToString(trackerAfter)));
      trackerAfter := trackerAfter + 1;
      assert handler.builder.value ==
        "i: " + IntToString(i) + ". " + IntToString(sideEffectTracker);
    }
    outcome := Assert(condition, handler, conditionText);
  }

  /**
   * `LazyEvaluation`: a thousand passing assertions whose message holds the hole
   * `{sideEffectTracker++}`. The hole never runs, so the tracker stays 0.
   */
  method LazyEvaluation() returns (sideEffectTracker: int)
    ensures sideEffectTracker == 0
  {
    sideEffectTracker := 0;
    for i := 0 to 1000
      invariant sideEffectTracker == 0
    {
      var outcome;
      outcome, sideEffectTracker := AssertWithTrackedHole(i >= 0, "i >= 0", i, sideEffectTracker);
    }
  }
}

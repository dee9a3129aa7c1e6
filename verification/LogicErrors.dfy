/** What an error of the evaluation says about the text, and where it points. */
module LogicErrors {
  import opened LogicEval

  /** What kind of character an error is about. */
  predicate Marks(cmp: Comparisons, e: Result, c: char) {
    match e
    case UnexpectedCharacter => !Letter(c) && !Operator(c) && c != '!' && c != '(' && c != ')'
    case UnexpectedComparison => Letter(c)
    case UndefinedDigitalCompare => 'a' <= c <= 'z' && c as int - 'a' as int >= |cmp.digitals|
    case UndefinedAnalogCompare => 'A' <= c <= 'Z' && c as int - 'A' as int >= |cmp.analogs|
    case UnexpectedOperator => Operator(c)
    case UnexpectedOpenBracket => c == '('
    case UnexpectedCloseBracket => c == ')'
    case _ => Letter(c) && !Undefined(cmp, c) && cmp.Result(c) == e
  }

  /** The last character that was read. */
  function LastRead(text: string, rest: string): char
    requires |rest| < |text|
  {
    text[|text| - |rest| - 1]
  }

  /** The error is about the last character that was read; for a missing bracket the whole text was read. */
  predicate About(cmp: Comparisons, text: string, e: Result, rest: string) {
    e.Error?() ==>
      if e == MissingCloseBracket then rest == ""
      else |rest| < |text| && Marks(cmp, e, LastRead(text, rest))
  }

  lemma AboutMore(cmp: Comparisons, text: string, tail: string, e: Result, rest: string)
    requires |tail| <= |text| && tail == text[|text| - |tail|..] && About(cmp, tail, e, rest)
    ensures About(cmp, text, e, rest)
  {
    hide Marks;
  }

  /** A result that is an error is passed on. */
  lemma AboutPassed(cmp: Comparisons, text: string, e: Result, rest: string, level: nat)
    requires About(cmp, text, e, rest) && e.Error?()
    ensures var r := Eval(cmp, rest, level, e); About(cmp, text, r.0, r.1)
  {
    hide Marks, Eval;
    EvalStops(cmp, rest, level, e);
  }

  lemma LetterIsMarked(cmp: Comparisons, c: char)
    requires cmp.Valid() && Letter(c) && cmp.Result(c).Error?()
    ensures Marks(cmp, cmp.Result(c), c) && cmp.Result(c) != MissingCloseBracket
  {
  }

  /** Every error of an evaluation says truly what is wrong with the character that it points to. */
  lemma {:induction false} ErrorIsAbout(cmp: Comparisons, text: string, level: nat, res: Result)
    requires cmp.Valid() && !res.Error?()
    ensures var r := Eval(cmp, text, level, res); About(cmp, text, r.0, r.1)
    decreases |text|, 1
  {
    hide Eval, Marks, Apply, Invert, About, Comparisons.Result, Undefined;
    EvalStops(cmp, text, level, res);
    if text == "" {
      NothingRead(cmp, level, res);
    } else {
      EvalStep(cmp, text, level, res);
      var c, rest, r := text[0], text[1..], Eval(cmp, text, level, res);
      if Letter(c) && res == EmptySubstring && !Undefined(cmp, c) {
        if cmp.Result(c).Error?() {
          LetterIsMarked(cmp, c);
          OneRead(cmp, text, cmp.Result(c));
          AboutPassed(cmp, text, cmp.Result(c), rest, level);
        } else {
          ErrorIsAbout(cmp, rest, level, cmp.Result(c));
          AboutMore(cmp, text, rest, r.0, r.1);
        }
      } else if c == '(' && res == EmptySubstring {
        GroupIsAbout(cmp, text, level);
      } else if c == '!' || (Operator(c) && res != EmptySubstring) {
        var s := Eval(cmp, rest, level, EmptySubstring);
        ErrorIsAbout(cmp, rest, level, EmptySubstring);
        AboutMore(cmp, text, rest, s.0, s.1);
        PassedThrough(cmp, text, c, res, s.0, s.1);
      } else {
        WrongHere(cmp, text, level, res);
      }
    }
  }

  lemma NothingRead(cmp: Comparisons, level: nat, res: Result)
    requires !res.Error?()
    ensures About(cmp, "", if level > 0 then MissingCloseBracket else res, "")
  {
  }

  lemma OneRead(cmp: Comparisons, text: string, e: Result)
    requires text != "" && Marks(cmp, e, text[0]) && e != MissingCloseBracket
    ensures About(cmp, text, e, text[1..])
  {
  }

  lemma PassedThrough(cmp: Comparisons, text: string, op: char, lhs: Result, rhs: Result, rest: string)
    requires About(cmp, text, rhs, rest) && !lhs.Error?()
    ensures About(cmp, text, Invert(rhs), rest) && About(cmp, text, Apply(op, lhs, rhs), rest)
  {
    hide Marks;
  }

  /** The characters that are wrong where they stand, and a closing bracket. */
  lemma WrongHere(cmp: Comparisons, text: string, level: nat, res: Result)
    requires text != "" && !res.Error?() && text[0] != '!'
    requires Letter(text[0]) ==> res != EmptySubstring || Undefined(cmp, text[0])
    requires Operator(text[0]) ==> res == EmptySubstring
    requires text[0] == '(' ==> res != EmptySubstring
    ensures var r := Eval(cmp, text, level, res); About(cmp, text, r.0, r.1)
  {
    hide Eval;
    EvalStep(cmp, text, level, res);
  }

  lemma {:induction false} GroupIsAbout(cmp: Comparisons, text: string, level: nat)
    requires cmp.Valid() && text != "" && text[0] == '('
    ensures var r := Eval(cmp, text, level, EmptySubstring); About(cmp, text, r.0, r.1)
    decreases |text|, 0
  {
    hide Eval, Marks, About, Comparisons.Result, Undefined;
    EvalStep(cmp, text, level, EmptySubstring);
    var rest, r := text[1..], Eval(cmp, text, level, EmptySubstring);
    var s := Eval(cmp, rest, Deeper(level), EmptySubstring);
    ErrorIsAbout(cmp, rest, Deeper(level), EmptySubstring);
    RestIsSuffix(cmp, rest, Deeper(level), EmptySubstring);
    AboutMore(cmp, text, rest, s.0, s.1);
    if s.0.Error?() {
      AboutPassed(cmp, text, s.0, s.1, level);
    } else {
      ErrorIsAbout(cmp, s.1, level, s.0);
      AboutMore(cmp, text, s.1, r.0, r.1);
    }
  }

  /** The position of a character that the error is about, in eight bits; for a missing bracket the last character. */
  predicate PointsAt(cmp: Comparisons, text: string, e: Result, position: nat) {
    if e == MissingCloseBracket then position == (|text| - 1) % 256
    else exists i: nat :: i < |text| && position == i % 256 && Marks(cmp, e, text[i])
  }

  lemma ErrorPoints(cmp: Comparisons, text: string)
    requires cmp.Valid() && text != ""
    ensures var (e, rest) := Eval(cmp, text, 0, EmptySubstring);
      e.Error?() && |rest| < |text| ==> PointsAt(cmp, text, e, (|text| - |rest| - 1) % 256)
  {
    hide Eval, Marks;
    ErrorIsAbout(cmp, text, 0, EmptySubstring);
    var (e, rest) := Eval(cmp, text, 0, EmptySubstring);
    if e.Error?() && |rest| < |text| && e != MissingCloseBracket {
      var i := |text| - |rest| - 1;
      assert Marks(cmp, e, text[i]);
    }
  }
}

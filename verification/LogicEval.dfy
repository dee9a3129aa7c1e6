/** Evaluation of logic expressions over the results of comparisons. */
module LogicEval {

  /** In the order of the enumeration: the two values, two kinds of nothing, and errors. */
  datatype Result =
    | False | True | Empty | EmptySubstring
    | BlockNotFound | InvalidDigitalOp | InvalidAnalogOp
    | UndefinedDigitalCompare | UndefinedAnalogCompare
    | UnexpectedOpenBracket | UnexpectedCloseBracket | MissingCloseBracket
    | UnexpectedCharacter | UnexpectedComparison | UnexpectedOperator
  {
    predicate Value?() {
      False? || True?
    }

    /** What a comparison can result in. */
    predicate Compared?() {
      Value?() || BlockNotFound? || InvalidDigitalOp? || InvalidAnalogOp?
    }

    predicate Error?() {
      !Value?() && !Empty? && !EmptySubstring?
    }
  }

  function FromBool(b: bool): Result {
    if b then True else False
  }

  /** The latest results of the comparisons that letters name. */
  datatype Comparisons = Comparisons(digitals: seq<Result>, analogs: seq<Result>) {
    predicate Valid() {
      && (forall i :: 0 <= i < |digitals| ==> digitals[i].Compared?())
      && forall i :: 0 <= i < |analogs| ==> analogs[i].Compared?()
    }

    function Result(c: char): Result {
      if 'a' <= c <= 'z' then
        var i := c as int - 'a' as int;
        if i < |digitals| then digitals[i] else UndefinedDigitalCompare
      else if 'A' <= c <= 'Z' then
        var i := c as int - 'A' as int;
        if i < |analogs| then analogs[i] else UndefinedAnalogCompare
      else UnexpectedCharacter
    }
  }

  predicate Letter(c: char) {
    'a' <= c <= 'z' || 'A' <= c <= 'Z'
  }

  /** An operator applied to two values; anything else on the right is passed on. */
  function Apply(op: char, lhs: Result, rhs: Result): Result {
    if !rhs.Value?() then rhs
    else match op
      case '|' => if lhs == True then lhs else rhs
      case '&' => if lhs == True then rhs else lhs
      case _ => FromBool(rhs != lhs)
  }

  function Invert(rhs: Result): Result {
    if !rhs.Value?() then rhs else if rhs == True then False else True
  }

  predicate Operator(c: char) {
    c == '|' || c == '&' || c == '^'
  }

  /** One more bracket, counted in eight bits. */
  function Deeper(level: nat): nat {
    (level + 1) % 256
  }

  /** The result of the text and the text that is left. `res` is the result so far. */
  function Eval(cmp: Comparisons, text: string, level: nat, res: Result): (r: (Result, string))
    ensures |r.1| <= |text|
    decreases |text|
  {
    if text == "" then (if level > 0 then MissingCloseBracket else res, text)
    else if res.Error?() then (res, text)
    else
      var c, rest := text[0], text[1..];
      if Letter(c) then
        if res != EmptySubstring then (UnexpectedComparison, rest)
        else if Undefined(cmp, c) then (cmp.Result(c), rest)
        else Eval(cmp, rest, level, cmp.Result(c))
      else if c == '!' then
        var r := Eval(cmp, rest, level, EmptySubstring);
        (Invert(r.0), r.1)
      else if Operator(c) then
        if res == EmptySubstring then (UnexpectedOperator, rest)
        else
          var r := Eval(cmp, rest, level, EmptySubstring);
          (Apply(c, res, r.0), r.1)
      else if c == '(' then
        if res != EmptySubstring then (UnexpectedOpenBracket, rest)
        else
          var r := Eval(cmp, rest, Deeper(level), EmptySubstring);
          Eval(cmp, r.1, level, r.0)
      else if c == ')' then (if level == 0 then UnexpectedCloseBracket else res, rest)
      else (UnexpectedCharacter, rest)
  }

  /** One character of the evaluation. */
  lemma EvalStep(cmp: Comparisons, text: string, level: nat, res: Result)
    requires text != "" && !res.Error?()
    ensures var c, rest, r := text[0], text[1..], Eval(cmp, text, level, res);
      && (Letter(c) ==>
          r == if res != EmptySubstring then (UnexpectedComparison, rest)
               else if Undefined(cmp, c) then (cmp.Result(c), rest)
               else Eval(cmp, rest, level, cmp.Result(c)))
      && (c == '!' ==>
          var s := Eval(cmp, rest, level, EmptySubstring); r == (Invert(s.0), s.1))
      && (Operator(c) ==>
          if res == EmptySubstring then r == (UnexpectedOperator, rest)
          else var s := Eval(cmp, rest, level, EmptySubstring); r == (Apply(c, res, s.0), s.1))
      && (c == '(' ==>
          if res != EmptySubstring then r == (UnexpectedOpenBracket, rest)
          else var s := Eval(cmp, rest, Deeper(level), EmptySubstring); r == Eval(cmp, s.1, level, s.0))
      && (c == ')' ==> r == (if level == 0 then UnexpectedCloseBracket else res, rest))
      && (!Letter(c) && c != '!' && !Operator(c) && c != '(' && c != ')' ==> r == (UnexpectedCharacter, rest))
  {
    hide Apply, Invert, Undefined;
  }

  lemma EvalStops(cmp: Comparisons, text: string, level: nat, res: Result)
    ensures text == "" ==> Eval(cmp, text, level, res) == (if level > 0 then MissingCloseBracket else res, "")
    ensures text != "" && res.Error?() ==> Eval(cmp, text, level, res) == (res, text)
  {
  }

  /** The letter is beyond the list of comparisons. */
  predicate Undefined(cmp: Comparisons, c: char) {
    if 'a' <= c <= 'z' then c as int - 'a' as int >= |cmp.digitals| else c as int - 'A' as int >= |cmp.analogs|
  }

  /** What is left is an end part of the text. */
  lemma {:induction false} RestIsSuffix(cmp: Comparisons, text: string, level: nat, res: Result)
    ensures var r := Eval(cmp, text, level, res).1; r == text[|text| - |r|..]
    decreases |text|
  {
    hide Apply, Invert, Undefined, Comparisons.Result;
    if text != "" && !res.Error?() {
      var c, rest := text[0], text[1..];
      if Letter(c) {
        RestIsSuffix(cmp, rest, level, cmp.Result(c));
      } else if c == '(' {
        RestIsSuffix(cmp, rest, Deeper(level), EmptySubstring);
        var r := Eval(cmp, rest, Deeper(level), EmptySubstring);
        RestIsSuffix(cmp, r.1, level, r.0);
      } else {
        RestIsSuffix(cmp, rest, level, EmptySubstring);
      }
    }
  }
}

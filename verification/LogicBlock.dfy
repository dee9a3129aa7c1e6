/** The block that drives an actuator by a logic expression. */
module LogicBlock {
  import opened Ticks
  import opened ChangeLog
  import opened Constraints
  import opened LogicComparisons
  import opened LogicErrors
  import opened LogicEval

  class ActuatorLogicBlock {
    var digitals: seq<DigitalCompare>
    var analogs: seq<AnalogCompare>
    var expression: string
    var result: Result
    var errorPos: nat
    var enabled: bool
    const target: ActuatorDigitalConstrained?

    constructor (target: ActuatorDigitalConstrained?)
      ensures this.target == target && !enabled && expression == ""
    {
      this.target := target;
      digitals, analogs, expression := [], [], "";
      result, errorPos, enabled := False, 0, false;
    }

    ghost function Results(): Comparisons
      reads `digitals, `analogs
    {
      LatestResults(digitals, analogs)
    }

    /** Evaluates the expression from a position on, up to a closing bracket or an error. */
    method EvalAt(it: nat, level: nat) returns (res: Result, next: nat)
      requires it <= |expression| && level < 256
      ensures it <= next <= |expression|
      ensures LogicEval.Eval(Results(), expression[it..], level, EmptySubstring) == (res, expression[next..])
      decreases |expression| - it
    {
      hide Apply, Invert, LogicEval.Eval;
      ghost var cmp := Results();
      res, next := EmptySubstring, it;
      while next < |expression|
        invariant it <= next <= |expression|
        invariant LogicEval.Eval(cmp, expression[it..], level, EmptySubstring)
                  == LogicEval.Eval(cmp, expression[next..], level, res)
        decreases |expression| - next
      {
        ghost var text := expression[next..];
        EvalStops(cmp, text, level, res);
        if res.Error?() {
          return;
        }
        EvalStep(cmp, text, level, res);
        var c := expression[next];
        assert text[0] == c && text[1..] == expression[next + 1..];
        next := next + 1;
        if 'a' <= c <= 'z' {
          if res != EmptySubstring {
            return UnexpectedComparison, next;
          }
          var i := c as int - 'a' as int;
          if i >= |digitals| {
            return UndefinedDigitalCompare, next;
          }
          res := digitals[i].result;
        } else if 'A' <= c <= 'Z' {
          if res != EmptySubstring {
            return UnexpectedComparison, next;
          }
          var i := c as int - 'A' as int;
          if i >= |analogs| {
            return UndefinedAnalogCompare, next;
          }
          res := analogs[i].result;
        } else if c == '!' {
          var rhs;
          rhs, next := EvalAt(next, level);
          res := Invert(rhs);
          return;
        } else if Operator(c) {
          if res == EmptySubstring {
            return UnexpectedOperator, next;
          }
          var rhs;
          rhs, next := EvalAt(next, level);
          res := Apply(c, res, rhs);
          return;
        } else if c == '(' {
          if res != EmptySubstring {
            return UnexpectedOpenBracket, next;
          }
          res, next := EvalAt(next, Deeper(level));
        } else if c == ')' {
          if level == 0 {
            return UnexpectedCloseBracket, next;
          }
          return;
        } else {
          return UnexpectedCharacter, next;
        }
      }
      EvalStops(cmp, expression[next..], level, res);
      if level > 0 {
        res := MissingCloseBracket;
      }
    }

    /** Updates the comparisons and evaluates the expression. The error position is kept in eight bits. */
    method Evaluate(objects: Objects) returns (res: Result)
      modifies this`digitals, this`analogs, this`errorPos
      ensures digitals == DigitalsUpdated(old(digitals), objects)
      ensures analogs == AnalogsUpdated(old(analogs), objects)
      ensures Results() == old(Compared(digitals, analogs, objects)) && Results().Valid()
      ensures expression == "" ==> res == Empty && errorPos == 0
      ensures expression != "" ==>
        var r := LogicEval.Eval(Results(), expression, 0, EmptySubstring);
        res == r.0 && errorPos == if res.Value?() then 0 else (|expression| - |r.1| - 1) % 256
      ensures res.Error?() ==> expression != "" && PointsAt(Results(), expression, res, errorPos)
      ensures forall i: nat :: i < |digitals| && i < 26 && expression == [DigitalLetter(i)] ==>
        digitals[i].Told(objects, res)
      ensures forall i: nat :: i < |analogs| && i < 26 && expression == [AnalogLetter(i)] ==>
        analogs[i].Told(objects, res)
    {
      hide LogicEval.Eval, DigitalCompare.Told, AnalogCompare.Told, DigitalCompare.Eval, AnalogCompare.Eval, Compared,
        LatestResults, PointsAt;
      ghost var ds, cs := digitals, analogs;
      UpdateComparisons(objects);
      ResultsAreCompared(ds, cs, objects);
      AllTold(ds, cs, objects);
      errorPos := 0;
      if expression == "" {
        return Empty;
      }
      var it;
      res, it := EvalAt(0, 0);
      assert expression[0..] == expression;
      SomethingIsRead(Results(), expression);
      ErrorPoints(Results(), expression);
      if !res.Value?() {
        errorPos := (it - 1) % 256;
      }
    }

    /** Every comparison now shows the result of comparing the objects as they are. */
    method UpdateComparisons(objects: Objects)
      modifies this`digitals, this`analogs
      ensures digitals == DigitalsUpdated(old(digitals), objects)
      ensures analogs == AnalogsUpdated(old(analogs), objects)
    {
      hide DigitalCompare.Eval, AnalogCompare.Eval;
      for k := 0 to |digitals|
        invariant |digitals| == old(|digitals|) && analogs == old(analogs)
        invariant forall i :: 0 <= i < k ==> digitals[i] == DigitalsUpdated(old(digitals), objects)[i]
        invariant forall i :: k <= i < |digitals| ==> digitals[i] == old(digitals)[i]
      {
        var d := digitals[k];
        digitals := digitals[k := d.(result := d.Eval(objects))];
      }
      for k := 0 to |analogs|
        invariant |analogs| == old(|analogs|) && digitals == DigitalsUpdated(old(digitals), objects)
        invariant forall i :: 0 <= i < k ==> analogs[i] == AnalogsUpdated(old(analogs), objects)[i]
        invariant forall i :: k <= i < |analogs| ==> analogs[i] == old(analogs)[i]
      {
        var a := analogs[k];
        analogs := analogs[k := a.(result := a.Eval(objects))];
      }
    }

    /** Drives the target: it is asked to be active exactly when the expression is true. */
    method Update(now: u32, objects: Objects, reachable: set<nat>) returns (next: u32)
      requires target != null ==> target.Valid()
      modifies this
      modifies if target == null then {} else {target, target.log, target.log.history} + set o | o in target.objects
      ensures target != null ==> target.Valid()
      ensures digitals == DigitalsUpdated(old(digitals), objects)
      ensures analogs == AnalogsUpdated(old(analogs), objects)
      ensures Results() == old(Compared(digitals, analogs, objects)) && Results().Valid()
      ensures enabled == old(enabled) && expression == old(expression)
      ensures result == if expression == "" then Empty else LogicEval.Eval(Results(), expression, 0, EmptySubstring).0
      ensures target != null && enabled ==>
        var val := if result == True then Active else Inactive;
        var o := old(Desire(target.View(), val, target.log.lastUpdateTime, target.Targets(), reachable));
        target.View() == o.actuator && target.Targets() == o.targets
      ensures target != null && !enabled ==>
        target.View() == old(target.View()) && target.Targets() == old(target.Targets())
      ensures next == Plus(now, 100)
    {
      hide LogicEval.Eval;
      result := Evaluate(objects);
      if enabled {
        if target != null {
          if result == True {
            var _ := target.SetDesiredStateUntimed(Active, reachable);
          } else {
            var _ := target.SetDesiredStateUntimed(Inactive, reachable);
          }
        }
      }
      next := Plus(now, 100);
    }
  }

  lemma SomethingIsRead(cmp: Comparisons, text: string)
    requires text != ""
    ensures |LogicEval.Eval(cmp, text, 0, EmptySubstring).1| < |text|
  {
  }
}

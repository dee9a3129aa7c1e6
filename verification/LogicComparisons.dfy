/** The comparisons that letters of a logic expression stand for. */
module LogicComparisons {
  import opened ChangeLog
  import opened LogicEval
  import opened LogicLaws
  import opened LogicPhrases

  datatype Option<T> = None | Some(value: T)

  datatype DigitalOperator = ValueIs | ValueIsNot | DesiredIs | DesiredIsNot | OtherDigital {
    predicate Negative() {
      ValueIsNot? || DesiredIsNot?
    }

    /** Which of the two states is compared. */
    function Of(a: Shown): State {
      if ValueIs? || ValueIsNot? then a.state else a.desired
    }
  }

  datatype AnalogOperator = ValueLe | ValueGe | SettingLe | SettingGe | OtherAnalog {
    predicate AtLeast() {
      ValueGe? || SettingGe?
    }

    /** Which of the two quantities is compared, if it is valid. */
    function Of(r: Reading): Option<int> {
      if ValueLe? || ValueGe? then (if r.valueValid then Some(r.value) else None)
      else if r.settingValid then Some(r.setting)
      else None
    }
  }

  /** What an actuator shows to a comparison. */
  datatype Shown = Shown(state: State, desired: State)

  datatype Reading = Reading(value: int, valueValid: bool, setting: int, settingValid: bool)

  /** The objects that comparisons look up by their id. */
  datatype Objects = Objects(actuators: map<nat, Shown>, readings: map<nat, Reading>)

  datatype DigitalCompare = DigitalCompare(id: nat, op: DigitalOperator, rhs: State, result: Result) {
    function Eval(objects: Objects): (r: Result)
      ensures r.Compared?()
    {
      if id !in objects.actuators then BlockNotFound
      else
        var a := objects.actuators[id];
        match op
        case ValueIs => FromBool(a.state == rhs)
        case ValueIsNot => FromBool(a.state != rhs)
        case DesiredIs => FromBool(a.desired == rhs)
        case DesiredIsNot => FromBool(a.desired != rhs)
        case OtherDigital => InvalidDigitalOp
    }

    /** What a result tells about the objects. */
    predicate Told(objects: Objects, r: Result) {
      if id !in objects.actuators then r == BlockNotFound
      else if op == OtherDigital then r == InvalidDigitalOp
      else r == FromBool(op.Negative() != (op.Of(objects.actuators[id]) == rhs))
    }
  }

  datatype AnalogCompare = AnalogCompare(id: nat, op: AnalogOperator, rhs: int, result: Result) {
    function Eval(objects: Objects): (r: Result)
      ensures r.Compared?()
    {
      if id !in objects.readings then BlockNotFound
      else
        var v := objects.readings[id];
        match op
        case ValueLe => FromBool(v.valueValid && v.value <= rhs)
        case ValueGe => FromBool(v.valueValid && v.value >= rhs)
        case SettingLe => FromBool(v.settingValid && v.setting <= rhs)
        case SettingGe => FromBool(v.settingValid && v.setting >= rhs)
        case OtherAnalog => InvalidAnalogOp
    }

    /** What a result tells about the objects. */
    predicate Told(objects: Objects, r: Result) {
      if id !in objects.readings then r == BlockNotFound
      else if op == OtherAnalog then r == InvalidAnalogOp
      else match op.Of(objects.readings[id])
        case Some(q) => r == FromBool(if op.AtLeast() then q >= rhs else q <= rhs)
        case None => r == False
    }
  }

  function ResultsOf<T>(cs: seq<T>, result: T -> Result): (rs: seq<Result>)
    ensures |rs| == |cs| && forall i :: 0 <= i < |cs| ==> rs[i] == result(cs[i])
  {
    seq(|cs|, i requires 0 <= i < |cs| => result(cs[i]))
  }

  function DigitalsUpdated(ds: seq<DigitalCompare>, objects: Objects): seq<DigitalCompare> {
    seq(|ds|, i requires 0 <= i < |ds| => ds[i].(result := ds[i].Eval(objects)))
  }

  function AnalogsUpdated(cs: seq<AnalogCompare>, objects: Objects): seq<AnalogCompare> {
    seq(|cs|, i requires 0 <= i < |cs| => cs[i].(result := cs[i].Eval(objects)))
  }

  /** What the letters of an expression stand for. */
  function Compared(ds: seq<DigitalCompare>, cs: seq<AnalogCompare>, objects: Objects): Comparisons {
    Comparisons(ResultsOf(ds, (d: DigitalCompare) => d.Eval(objects)),
      ResultsOf(cs, (c: AnalogCompare) => c.Eval(objects)))
  }

  /** The results that the comparisons show. */
  function LatestResults(ds: seq<DigitalCompare>, cs: seq<AnalogCompare>): Comparisons {
    Comparisons(ResultsOf(ds, (d: DigitalCompare) => d.result), ResultsOf(cs, (c: AnalogCompare) => c.result))
  }

  lemma ResultsAreCompared(ds: seq<DigitalCompare>, cs: seq<AnalogCompare>, objects: Objects)
    ensures LatestResults(DigitalsUpdated(ds, objects), AnalogsUpdated(cs, objects)) == Compared(ds, cs, objects)
    ensures Compared(ds, cs, objects).Valid()
  {
    hide DigitalCompare.Eval, AnalogCompare.Eval;
    var a, b := LatestResults(DigitalsUpdated(ds, objects), AnalogsUpdated(cs, objects)), Compared(ds, cs, objects);
    assert a.digitals == b.digitals && a.analogs == b.analogs;
  }

  // ---------- what comparisons mean ----------

  /** A comparison with a state, of the state of the actuator or of its desired state. */
  function Is(id: nat, desired: bool, rhs: State): DigitalCompare {
    DigitalCompare(id, if desired then DesiredIs else ValueIs, rhs, False)
  }

  function IsNot(id: nat, desired: bool, rhs: State): DigitalCompare {
    DigitalCompare(id, if desired then DesiredIsNot else ValueIsNot, rhs, False)
  }

  /** Of an actuator that is found, IS and IS_NOT are opposite, IS is true for its state and for no other, and the
      other of the two states does not matter. */
  lemma StatesCompared(id: nat, desired: bool, rhs: State, objects: Objects, shown: Shown)
    requires id in objects.actuators
    ensures var state := if desired then objects.actuators[id].desired else objects.actuators[id].state;
      && Is(id, desired, state).Eval(objects) == True
      && (Is(id, desired, rhs).Eval(objects) == True ==> rhs == state)
    ensures Is(id, desired, rhs).Eval(objects) == Invert(IsNot(id, desired, rhs).Eval(objects))
    ensures Is(id, desired, rhs).Eval(objects).Value?()
    ensures (if desired then shown.desired == objects.actuators[id].desired
             else shown.state == objects.actuators[id].state)
      ==> var others := objects.(actuators := objects.actuators[id := shown]);
        Is(id, desired, rhs).Eval(others) == Is(id, desired, rhs).Eval(objects)
  {
  }

  /** A comparison with a limit, of the value of a block or of its setting. */
  function AtMost(id: nat, setting: bool, rhs: int): AnalogCompare {
    AnalogCompare(id, if setting then SettingLe else ValueLe, rhs, False)
  }

  function AtLeast(id: nat, setting: bool, rhs: int): AnalogCompare {
    AnalogCompare(id, if setting then SettingGe else ValueGe, rhs, False)
  }

  predicate ReadingValid(r: Reading, setting: bool) {
    if setting then r.settingValid else r.valueValid
  }

  function Quantity(r: Reading, setting: bool): int {
    if setting then r.setting else r.value
  }

  function Reads(objects: Objects, id: nat, r: Reading): Objects {
    objects.(readings := objects.readings[id := r])
  }

  /** An invalid reading is neither at most nor at least a limit. A valid one is one of both, and both exactly at the
      limit. */
  lemma LimitsCompared(id: nat, setting: bool, rhs: int, objects: Objects, r: Reading)
    ensures var read := Reads(objects, id, r);
      var below, above := AtMost(id, setting, rhs).Eval(read), AtLeast(id, setting, rhs).Eval(read);
      if !ReadingValid(r, setting) then below == above == False
      else
        && below.Value?() && above.Value?() && (below == True || above == True)
        && (below == above == True <==> Quantity(r, setting) == rhs)
  {
  }

  /** A reading that rises stays at least a limit, one that falls stays at most a limit; the other quantity of the
      block does not matter. */
  lemma LimitsKept(id: nat, setting: bool, rhs: int, objects: Objects, low: Reading, high: Reading)
    requires ReadingValid(low, setting) && ReadingValid(high, setting)
    requires Quantity(low, setting) <= Quantity(high, setting)
    ensures var below, above := Reads(objects, id, low), Reads(objects, id, high);
      && (AtLeast(id, setting, rhs).Eval(below) == True ==> AtLeast(id, setting, rhs).Eval(above) == True)
      && (AtMost(id, setting, rhs).Eval(above) == True ==> AtMost(id, setting, rhs).Eval(below) == True)
  {
  }

  lemma NotCompared(d: DigitalCompare, c: AnalogCompare, objects: Objects)
    ensures d.Eval(objects) == BlockNotFound <==> d.id !in objects.actuators
    ensures c.Eval(objects) == BlockNotFound <==> c.id !in objects.readings
    ensures d.Eval(objects) == InvalidDigitalOp <==> d.id in objects.actuators && d.op == OtherDigital
    ensures c.Eval(objects) == InvalidAnalogOp <==> c.id in objects.readings && c.op == OtherAnalog
  {
  }

  /** The letters of the comparisons. */
  function DigitalLetter(i: nat): char
    requires i < 26
  {
    ('a' as int + i) as char
  }

  function AnalogLetter(i: nat): char
    requires i < 26
  {
    ('A' as int + i) as char
  }

  /** An expression of one letter results in what its comparison tells. */
  lemma OneLetter(ds: seq<DigitalCompare>, cs: seq<AnalogCompare>, objects: Objects, i: nat)
    requires i < 26
    ensures i < |ds| ==>
      ds[i].Told(objects, Eval(Compared(ds, cs, objects), [DigitalLetter(i)], 0, EmptySubstring).0)
    ensures i < |cs| ==>
      cs[i].Told(objects, Eval(Compared(ds, cs, objects), [AnalogLetter(i)], 0, EmptySubstring).0)
  {
    hide Eval, DigitalCompare.Told, AnalogCompare.Told, DigitalCompare.Eval, AnalogCompare.Eval;
    var cmp := Compared(ds, cs, objects);
    LetterAlone(cmp, DigitalLetter(i));
    LetterAlone(cmp, AnalogLetter(i));
    if i < |ds| {
      DigitalTold(ds[i], objects);
    }
    if i < |cs| {
      AnalogTold(cs[i], objects);
    }
  }

  lemma AllTold(ds: seq<DigitalCompare>, cs: seq<AnalogCompare>, objects: Objects)
    ensures var cmp, us, vs := Compared(ds, cs, objects), DigitalsUpdated(ds, objects), AnalogsUpdated(cs, objects);
      && (forall i: nat :: i < |us| && i < 26 ==>
          us[i].Told(objects, Eval(cmp, [DigitalLetter(i)], 0, EmptySubstring).0))
      && forall i: nat :: i < |vs| && i < 26 ==> vs[i].Told(objects, Eval(cmp, [AnalogLetter(i)], 0, EmptySubstring).0)
  {
    hide Eval, DigitalCompare.Eval, AnalogCompare.Eval;
    forall i: nat | i < 26 {
      OneLetter(ds, cs, objects, i);
    }
  }

  lemma LetterAlone(cmp: Comparisons, c: char)
    requires Letter(c)
    ensures Eval(cmp, [c], 0, EmptySubstring).0 == cmp.Result(c)
  {
    hide Eval;
    assert [c][1..] == "";
    EvalStep(cmp, [c], 0, EmptySubstring);
    EvalStops(cmp, "", 0, cmp.Result(c));
  }

  lemma DigitalTold(d: DigitalCompare, objects: Objects)
    ensures d.Told(objects, d.Eval(objects))
  {
  }

  lemma AnalogTold(c: AnalogCompare, objects: Objects)
    ensures c.Told(objects, c.Eval(objects))
  {
  }

  // ---------- what this means for an expression ----------

  /** Without negation and exclusive or. */
  predicate Positive(p: Phrase) {
    match p.body
    case Nothing => false
    case One(a) => PositiveOperand(a)
    case Binary(lhs, op, rhs) => PositiveOperand(lhs) && op != '^' && Positive(rhs)
    case Not(_) => false
    case Dropped(_, _) => false
  }

  predicate PositiveOperand(a: Operand) {
    match a
    case Variable(_) => true
    case Group(inner) => Positive(inner)
  }

  lemma {:induction false} TruthStays(v: char -> bool, w: char -> bool, p: Phrase)
    requires Plain(p) && Positive(p) && Truth(v, p) && forall c :: v(c) ==> w(c)
    ensures Truth(w, p)
    decreases p
  {
    match p.body {
      case One(a) => OperandTruthStays(v, w, a);
      case Binary(lhs, _, rhs) =>
        if OperandTruth(v, lhs) {
          OperandTruthStays(v, w, lhs);
        }
        if Truth(v, rhs) {
          TruthStays(v, w, rhs);
        }
      case _ =>
    }
  }

  lemma {:induction false} OperandTruthStays(v: char -> bool, w: char -> bool, a: Operand)
    requires PlainOperand(a) && PositiveOperand(a) && OperandTruth(v, a) && forall c :: v(c) ==> w(c)
    ensures OperandTruth(w, a)
    decreases a
  {
    match a {
      case Variable(_) =>
      case Group(inner) => TruthStays(v, w, inner);
    }
  }

  /** The reading is still valid, and has not moved out of the limit. */
  predicate StaysWithin(c: AnalogCompare, before: Objects, after: Objects) {
    if c.id !in before.readings then true
    else if c.id !in after.readings then false
    else
      match c.op.Of(before.readings[c.id])
      case None => true
      case Some(q) =>
        var now := c.op.Of(after.readings[c.id]);
        now.Some? && if c.op.AtLeast() then q <= now.value else now.value <= q
  }

  lemma ComparisonStays(c: AnalogCompare, before: Objects, after: Objects)
    requires StaysWithin(c, before, after) && c.Eval(before) == True
    ensures c.Eval(after) == True
  {
  }

  /** When the actuators are as they were and no reading moves out of the limit it is compared with, an expression
      without negations that was true stays true. */
  lemma StaysTrue(ds: seq<DigitalCompare>, cs: seq<AnalogCompare>, before: Objects, after: Objects, p: Phrase)
    requires Plain(p) && Positive(p) && Nested(Print(p), 0)
    requires before.actuators == after.actuators && forall i :: 0 <= i < |cs| ==> StaysWithin(cs[i], before, after)
    requires Defined(Compared(ds, cs, before), p) && Defined(Compared(ds, cs, after), p)
    requires LogicEval.Eval(Compared(ds, cs, before), Print(p), 0, EmptySubstring).0 == True
    ensures LogicEval.Eval(Compared(ds, cs, after), Print(p), 0, EmptySubstring).0 == True
  {
    hide Plain, Positive, Nested, Defined, Truth, LogicEval.Eval, Print, StaysWithin, AnalogCompare.Eval;
    var v, w := Compared(ds, cs, before), Compared(ds, cs, after);
    PlainIsEvaluated(v, p);
    PlainIsEvaluated(w, p);
    forall c | Valuation(v)(c) ensures Valuation(w)(c) {
      if 'A' <= c <= 'Z' && c as int - 'A' as int < |cs| {
        ComparisonStays(cs[c as int - 'A' as int], before, after);
      }
    }
    TruthStays(Valuation(v), Valuation(w), p);
  }
}

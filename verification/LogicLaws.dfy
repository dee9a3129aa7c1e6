/** What the evaluator accepts and what it then means. */
module LogicLaws {
  import opened LogicEval
  import opened LogicPhrases

  /** The intended language: a value, a negation, or an operator between a value and the rest. */
  predicate Plain(p: Phrase) {
    && p.lead == NoLead
    && match p.body
       case Nothing => false
       case One(a) => PlainOperand(a)
       case Binary(lhs, op, rhs) => PlainOperand(lhs) && Operator(op) && Plain(rhs)
       case Not(arg) => Plain(arg)
       case Dropped(_, _) => false
  }

  predicate PlainOperand(a: Operand) {
    match a
    case Variable(c) => Letter(c)
    case Group(inner) => Plain(inner)
  }

  /** The boolean value of a plain phrase, its operators nested to the right. */
  predicate Truth(v: char -> bool, p: Phrase) {
    match p.body
    case Nothing => false
    case One(a) => OperandTruth(v, a)
    case Binary(lhs, op, rhs) =>
      if op == '|' then OperandTruth(v, lhs) || Truth(v, rhs)
      else if op == '&' then OperandTruth(v, lhs) && Truth(v, rhs)
      else OperandTruth(v, lhs) != Truth(v, rhs)
    case Not(arg) => !Truth(v, arg)
    case Dropped(_, arg) => !Truth(v, arg)
  }

  predicate OperandTruth(v: char -> bool, a: Operand) {
    match a
    case Variable(c) => v(c)
    case Group(inner) => Truth(v, inner)
  }

  /** Every variable of a plain phrase has a two-valued comparison. */
  predicate Defined(cmp: Comparisons, p: Phrase) {
    match p.body
    case Nothing => true
    case One(a) => DefinedOperand(cmp, a)
    case Binary(lhs, _, rhs) => DefinedOperand(cmp, lhs) && Defined(cmp, rhs)
    case Not(arg) => Defined(cmp, arg)
    case Dropped(unused, arg) => DefinedOperand(cmp, unused) && Defined(cmp, arg)
  }

  predicate DefinedOperand(cmp: Comparisons, a: Operand) {
    match a
    case Variable(c) => cmp.Result(c).Value?()
    case Group(inner) => Defined(cmp, inner)
  }

  function Valuation(cmp: Comparisons): char -> bool {
    c => cmp.Result(c) == True
  }

  lemma {:induction false} PlainMeaning(cmp: Comparisons, p: Phrase)
    requires Plain(p) && Defined(cmp, p)
    ensures Sound(cmp, p) && Meaning(cmp, p) == FromBool(Truth(Valuation(cmp), p))
    decreases p
  {
    match p.body {
      case One(a) => PlainOperandMeaning(cmp, a);
      case Binary(lhs, _, rhs) =>
        PlainOperandMeaning(cmp, lhs);
        PlainMeaning(cmp, rhs);
      case Not(arg) => PlainMeaning(cmp, arg);
      case _ =>
    }
  }

  lemma {:induction false} PlainOperandMeaning(cmp: Comparisons, a: Operand)
    requires PlainOperand(a) && DefinedOperand(cmp, a)
    ensures SoundOperand(cmp, a) && OperandMeaning(cmp, a) == FromBool(OperandTruth(Valuation(cmp), a))
    decreases a
  {
    match a {
      case Variable(c) =>
      case Group(inner) => PlainMeaning(cmp, inner);
    }
  }

  /** The text of every plain phrase evaluates to its boolean value. */
  lemma PlainIsEvaluated(cmp: Comparisons, p: Phrase)
    requires Plain(p) && Defined(cmp, p) && Nested(Print(p), 0)
    ensures Eval(cmp, Print(p), 0, EmptySubstring) == (FromBool(Truth(Valuation(cmp), p)), "")
  {
    hide Plain, Defined, Nested, Print, Sound, Meaning, Truth, Eval;
    PlainMeaning(cmp, p);
    assert Print(p) + "" == Print(p);
    EvalPhrase(cmp, p, "", 0);
  }

  /** A value is only found for texts that never have 256 brackets open. */
  lemma ValueNests(cmp: Comparisons, text: string)
    requires cmp.Valid() && Eval(cmp, text, 0, EmptySubstring).0.Value?()
    ensures Nested(text, 0) && Eval(cmp, text, 0, EmptySubstring).1 == ""
  {
    hide Eval, Comparisons.Valid;
    LevelZeroEnds(cmp, text, EmptySubstring);
    AcceptedNests(cmp, text, 0, EmptySubstring);
  }

  /** The evaluator finds a value exactly for the texts of sound phrases with that meaning in which
      fewer than 256 brackets are open at a time. It then has read the whole text. */
  lemma AcceptedIff(cmp: Comparisons, text: string, v: Result)
    requires cmp.Valid() && v.Value?()
    ensures Eval(cmp, text, 0, EmptySubstring).0 == v
      <==> Nested(text, 0) && exists p :: Sound(cmp, p) && Print(p) == text && Meaning(cmp, p) == v
    ensures Eval(cmp, text, 0, EmptySubstring).0 == v ==> Eval(cmp, text, 0, EmptySubstring).1 == ""
  {
    hide Nested, Print, Sound, Meaning, Eval, Comparisons.Valid;
    if Eval(cmp, text, 0, EmptySubstring).0 == v {
      ValueNests(cmp, text);
      var p, u := ParsePhrase(cmp, text, 0);
      assert Print(p) + "" == Print(p);
      assert Sound(cmp, p) && Print(p) == text && Meaning(cmp, p) == v;
    }
    if p :| Nested(text, 0) && Sound(cmp, p) && Print(p) == text && Meaning(cmp, p) == v {
      assert Print(p) + "" == Print(p);
      EvalPhrase(cmp, p, "", 0);
    }
  }

  /** A value means that the brackets match. */
  lemma ValueMeansBalanced(cmp: Comparisons, text: string)
    requires cmp.Valid() && Eval(cmp, text, 0, EmptySubstring).0.Value?()
    ensures Balanced(text, 0)
  {
    hide Nested, Print, Sound, Meaning, Eval, Comparisons.Valid;
    ValueNests(cmp, text);
    var p, u := ParsePhrase(cmp, text, 0);
    PhraseNested(p, cmp, "", 0);
  }

  // ---------- which texts are accepted beyond the intended language ----------

  /** Neither a bracket closed behind an opening bracket, an operator or a negation, nor a negation
      behind a value. */
  predicate Fits(x: char, y: char) {
    && (y == ')' ==> x != '(' && !Operator(x) && x != '!')
    && (y == '!' ==> !Letter(x) && x != ')')
  }

  predicate Tidy(text: string) {
    forall i :: 0 < i < |text| ==> Fits(text[i - 1], text[i])
  }

  lemma TidyParts(a: string, b: string)
    ensures Tidy(a + b) ==> Tidy(a) && Tidy(b)
    ensures Tidy(a + b) && a != "" && b != "" ==> Fits(a[|a| - 1], b[0])
    ensures Tidy(a) && Tidy(b) && (a == "" || b == "" || Fits(a[|a| - 1], b[0])) ==> Tidy(a + b)
  {
    hide Fits;
    var t := a + b;
    if Tidy(t) {
      forall i | 0 < i < |a| ensures Fits(a[i - 1], a[i]) {
        assert Fits(t[i - 1], t[i]);
      }
      forall i | 0 < i < |b| ensures Fits(b[i - 1], b[i]) {
        assert Fits(t[|a| + i - 1], t[|a| + i]);
      }
      if a != "" && b != "" {
        assert Fits(t[|a| - 1], t[|a|]);
      }
    }
  }

  predicate Opener(x: char) {
    x == '(' || Operator(x) || x == '!'
  }

  /** A group without a value is untidy. */
  lemma {:induction false} MeaninglessUntidy(cmp: Comparisons, p: Phrase, x: char)
    requires Sound(cmp, p) && Meaning(cmp, p) == EmptySubstring && Opener(x)
    ensures !Tidy([x] + (Print(p) + ")"))
    decreases p, 1
  {
    hide Tidy, Fits, PrintBody, PrintOperand;
    match p.lead {
      case NoLead =>
        BodyAlone(cmp, p.body);
        MeaninglessBody(cmp, p.body, x);
      case Skip(group, next) =>
        SkipShape([x], Print(group), PrintLead(next), PrintBody(p.body), ")");
        MeaninglessUntidy(cmp, group, '(');
        UntidyInside([x], ['('] + (Print(group) + ")"), PrintLead(next) + PrintBody(p.body) + ")");
    }
  }

  lemma {:induction false} MeaninglessBody(cmp: Comparisons, b: Body, x: char)
    requires SoundBody(cmp, b) && BodyMeaning(cmp, b) == EmptySubstring && Opener(x)
    ensures !Tidy([x] + (PrintBody(b) + ")"))
    decreases b, 0
  {
    hide Tidy, Fits, Print, Sound, SoundOperand, PrintOperand;
    match b {
      case Nothing => ClosedAtOnce(x);
      case One(a) => OperandKind(cmp, a);
      case Binary(lhs, op, rhs) =>
        TailShape([x], PrintOperand(lhs), op, Print(rhs));
        OperandKind(cmp, lhs);
        MeaningKind(cmp, rhs);
        MeaninglessUntidy(cmp, rhs, op);
        UntidyInside([x] + PrintOperand(lhs), [op] + (Print(rhs) + ")"), "");
      case Not(arg) =>
        TailShape([x], "", '!', Print(arg));
        MeaningKind(cmp, arg);
        MeaninglessUntidy(cmp, arg, '!');
        UntidyInside([x], ['!'] + (Print(arg) + ")"), "");
      case Dropped(unused, arg) =>
        TailShape([x], PrintOperand(unused), '!', Print(arg));
        MeaningKind(cmp, arg);
        MeaninglessUntidy(cmp, arg, '!');
        UntidyInside([x] + PrintOperand(unused), ['!'] + (Print(arg) + ")"), "");
    }
  }

  lemma TailShape(x: string, a: string, op: char, b: string)
    ensures x + (a + ([op] + b) + ")") == x + a + ([op] + (b + ")"))
    ensures x + ([op] + b + ")") == x + ([op] + (b + ")"))
  {
  }

  lemma SkipShape(x: string, group: string, rest: string, body: string, u: string)
    ensures x + ("(" + (group + (")" + rest)) + body + u) == x + (['('] + (group + ")")) + (rest + body + u)
  {
  }

  lemma ClosedAtOnce(x: char)
    requires Opener(x)
    ensures !Tidy([x] + ("" + ")"))
  {
    var t := [x] + ("" + ")");
    assert t[0] == x && t[1] == ')';
  }

  lemma UntidyInside(a: string, b: string, c: string)
    requires !Tidy(b)
    ensures !Tidy(a + b + c) && !Tidy(a + b)
  {
    TidyParts(a, b);
    TidyParts(a + b, c);
  }

  /** How the text of an operand begins and ends. */
  lemma OperandEnds(a: Operand, cmp: Comparisons)
    requires SoundOperand(cmp, a) || PlainOperand(a)
    ensures var t := PrintOperand(a);
      t != "" && (t[0] == '(' || Letter(t[0])) && (t[|t| - 1] == ')' || Letter(t[|t| - 1]))
  {
    hide Sound, Plain, Print;
  }

  /** A tidy text with a value is plain. */
  lemma {:induction false} TidyIsPlain(cmp: Comparisons, p: Phrase)
    requires Sound(cmp, p) && Meaning(cmp, p).Value?() && Tidy(Print(p))
    ensures Plain(p) && Defined(cmp, p)
    decreases p, 0
  {
    hide Tidy, Fits, PrintBody;
    var body := PrintBody(p.body);
    if p.lead.Skip? {
      var group, next := p.lead.group, p.lead.next;
      assert Print(p) == "(" + (Print(group) + (")" + PrintLead(next))) + body;
      SkipShape("", Print(group), PrintLead(next), body, "");
      assert "" + (Print(p) + "") == Print(p) && PrintLead(next) + body + "" == PrintLead(next) + body;
      MeaninglessUntidy(cmp, group, '(');
      UntidyInside("", ['('] + (Print(group) + ")"), PrintLead(next) + body);
    } else {
      assert "" + body == body;
      TidyBody(cmp, p);
    }
  }

  lemma {:induction false} TidyBody(cmp: Comparisons, p: Phrase)
    requires Sound(cmp, p) && Meaning(cmp, p).Value?() && Tidy(PrintBody(p.body)) && p.lead == NoLead
    ensures Plain(p) && Defined(cmp, p)
    decreases p.body, 1
  {
    hide Tidy, Fits, Print;
    match p.body {
      case One(a) => TidyOperand(cmp, a);
      case Binary(lhs, op, rhs) =>
        TidyParts(PrintOperand(lhs), [op] + Print(rhs));
        TidyParts([op], Print(rhs));
        TidyOperand(cmp, lhs);
        MeaningKind(cmp, rhs);
        TidyIsPlain(cmp, rhs);
      case Not(arg) =>
        TidyParts("!", Print(arg));
        MeaningKind(cmp, arg);
        TidyIsPlain(cmp, arg);
      case Dropped(unused, arg) =>
        TidyParts(PrintOperand(unused), "!" + Print(arg));
        OperandEnds(unused, cmp);
        NotAfterValue(PrintOperand(unused), "!" + Print(arg));
      case Nothing =>
    }
  }

  lemma NotAfterValue(a: string, b: string)
    requires a != "" && (a[|a| - 1] == ')' || Letter(a[|a| - 1])) && b != "" && b[0] == '!'
    ensures !Fits(a[|a| - 1], b[0])
  {
  }

  lemma {:induction false} TidyOperand(cmp: Comparisons, a: Operand)
    requires SoundOperand(cmp, a) && Tidy(PrintOperand(a))
    ensures PlainOperand(a) && DefinedOperand(cmp, a)
    decreases a, 0
  {
    hide Tidy, Print;
    match a {
      case Variable(_) =>
      case Group(inner) =>
        TidyParts("(", Print(inner) + ")");
        TidyParts(Print(inner), ")");
        TidyIsPlain(cmp, inner);
    }
  }

  /** The text of a plain phrase is tidy; it begins with an operand or a negation, and ends with an operand. */
  lemma {:induction false} PlainIsTidy(cmp: Comparisons, p: Phrase)
    requires Plain(p)
    ensures var t := Print(p);
      && Tidy(t) && t != "" && (t[0] == '(' || t[0] == '!' || Letter(t[0])) && (t[|t| - 1] == ')' || Letter(t[|t| - 1]))
    decreases p
  {
    hide Tidy, Print, PrintOperand;
    BodyAlone(cmp, p.body);
    match p.body {
      case One(a) => PlainOperandTidy(cmp, a);
      case Binary(lhs, op, rhs) =>
        PlainOperandTidy(cmp, lhs);
        PlainIsTidy(cmp, rhs);
        TidyOne(op);
        TidyParts([op], Print(rhs));
        TidyParts(PrintOperand(lhs), [op] + Print(rhs));
      case Not(arg) =>
        PlainIsTidy(cmp, arg);
        TidyOne('!');
        TidyParts("!", Print(arg));
      case _ =>
    }
  }

  lemma TidyOne(c: char)
    ensures Tidy([c])
  {
  }

  lemma {:induction false} PlainOperandTidy(cmp: Comparisons, a: Operand)
    requires PlainOperand(a)
    ensures var t := PrintOperand(a);
      && Tidy(t) && t != "" && (t[0] == '(' || Letter(t[0])) && (t[|t| - 1] == ')' || Letter(t[|t| - 1]))
    decreases a
  {
    hide Tidy, Print;
    OperandEnds(a, cmp);
    match a {
      case Variable(c) => TidyOne(c);
      case Group(inner) =>
        PlainIsTidy(cmp, inner);
        TidyOne('(');
        TidyOne(')');
        TidyParts(Print(inner), ")");
        TidyParts("(", Print(inner) + ")");
    }
  }

  /** A text is in the intended language, with fewer than 256 brackets open at a time, exactly when the
      evaluator finds a value and the text is tidy. */
  lemma PlainIff(cmp: Comparisons, text: string)
    requires cmp.Valid()
    ensures Nested(text, 0) && (exists p :: Plain(p) && Defined(cmp, p) && Print(p) == text)
      <==> Eval(cmp, text, 0, EmptySubstring).0.Value?() && Tidy(text)
  {
    hide Plain, Defined, Nested, Print, Sound, Meaning, Truth, Eval, Tidy, Comparisons.Valid;
    if p :| Nested(text, 0) && Plain(p) && Defined(cmp, p) && Print(p) == text {
      PlainIsEvaluated(cmp, p);
      PlainIsTidy(cmp, p);
    }
    if Eval(cmp, text, 0, EmptySubstring).0.Value?() && Tidy(text) {
      var v := Eval(cmp, text, 0, EmptySubstring).0;
      AcceptedIff(cmp, text, v);
      var p :| Sound(cmp, p) && Print(p) == text && Meaning(cmp, p) == v;
      TidyIsPlain(cmp, p);
    }
  }

  /** A malformed group is skipped: the operator inside has no right operand, yet a value is found. */
  lemma MalformedGroupIsSkipped(cmp: Comparisons)
    requires |cmp.digitals| >= 2 && cmp.digitals[0].Value?() && cmp.digitals[1].Value?()
    ensures Eval(cmp, "(a|)b", 0, EmptySubstring) == (cmp.digitals[1], "")
  {
    hide Eval, Nested;
    var p := Phrase(Skip(Phrase(NoLead, Binary(Variable('a'), '|', Phrase(NoLead, Nothing))), NoLead),
      One(Variable('b')));
    var q := Phrase(NoLead, Binary(Variable('a'), '|', Phrase(NoLead, Nothing)));
    assert SoundOperand(cmp, Variable('a')) && SoundOperand(cmp, Variable('b'));
    assert Sound(cmp, Phrase(NoLead, Nothing)) && Meaning(cmp, Phrase(NoLead, Nothing)) == EmptySubstring;
    assert Sound(cmp, q) && Meaning(cmp, q) == EmptySubstring && Print(q) == "a|";
    assert Print(p) + "" == "(a|)b";
    NestedSmall("(a|)b", 0);
    EvalPhrase(cmp, p, "", 0);
  }

  lemma {:induction false} NestedSmall(text: string, level: int)
    requires level + |text| < 256
    ensures Nested(text, level)
  {
    if text != "" {
      NestedSmall(text[1..], if text[0] == '(' then level + 1 else if text[0] == ')' then level - 1 else level);
    }
  }
}

/** The language that the evaluator accepts, as syntax trees with a meaning. */
module LogicPhrases {
  import opened LogicEval

  /** What stands between brackets, or the whole text. `lead` are groups without a value that are
      skipped; `Dropped` is a value that a negation behind it replaces. */
  datatype Phrase = Phrase(lead: Lead, body: Body)
  datatype Lead = NoLead | Skip(group: Phrase, next: Lead)
  datatype Body =
    | Nothing
    | One(a: Operand)
    | Binary(lhs: Operand, op: char, rhs: Phrase)
    | Not(arg: Phrase)
    | Dropped(unused: Operand, arg: Phrase)
  datatype Operand = Variable(c: char) | Group(inner: Phrase)

  function Print(p: Phrase): string {
    PrintLead(p.lead) + PrintBody(p.body)
  }

  function PrintLead(l: Lead): string {
    match l
    case NoLead => ""
    case Skip(group, next) => "(" + (Print(group) + (")" + PrintLead(next)))
  }

  function PrintBody(b: Body): string {
    match b
    case Nothing => ""
    case One(a) => PrintOperand(a)
    case Binary(lhs, op, rhs) => PrintOperand(lhs) + ([op] + Print(rhs))
    case Not(arg) => "!" + Print(arg)
    case Dropped(unused, arg) => PrintOperand(unused) + ("!" + Print(arg))
  }

  function PrintOperand(a: Operand): string {
    match a
    case Variable(c) => [c]
    case Group(inner) => "(" + (Print(inner) + ")")
  }

  /** The value of a phrase, read from the right; EmptySubstring when it has none. */
  function Meaning(cmp: Comparisons, p: Phrase): Result {
    match p.body
    case Nothing => EmptySubstring
    case One(a) => OperandMeaning(cmp, a)
    case Binary(lhs, op, rhs) => Apply(op, OperandMeaning(cmp, lhs), Meaning(cmp, rhs))
    case Not(arg) => Invert(Meaning(cmp, arg))
    case Dropped(_, arg) => Invert(Meaning(cmp, arg))
  }

  function OperandMeaning(cmp: Comparisons, a: Operand): Result {
    match a
    case Variable(c) => cmp.Result(c)
    case Group(inner) => Meaning(cmp, inner)
  }

  /** Variables have a value, operands have a value, skipped groups have none. */
  predicate Sound(cmp: Comparisons, p: Phrase) {
    SoundLead(cmp, p.lead) && SoundBody(cmp, p.body)
  }

  predicate SoundLead(cmp: Comparisons, l: Lead) {
    match l
    case NoLead => true
    case Skip(group, next) => Sound(cmp, group) && Meaning(cmp, group) == EmptySubstring && SoundLead(cmp, next)
  }

  predicate SoundBody(cmp: Comparisons, b: Body) {
    match b
    case Nothing => true
    case One(a) => SoundOperand(cmp, a)
    case Binary(lhs, op, rhs) => SoundOperand(cmp, lhs) && Operator(op) && Sound(cmp, rhs)
    case Not(arg) => Sound(cmp, arg)
    case Dropped(unused, arg) => SoundOperand(cmp, unused) && Sound(cmp, arg)
  }

  predicate SoundOperand(cmp: Comparisons, a: Operand) {
    match a
    case Variable(c) => Letter(c) && cmp.Result(c).Value?()
    case Group(inner) => Sound(cmp, inner) && Meaning(cmp, inner).Value?()
  }

  lemma {:induction false} MeaningKind(cmp: Comparisons, p: Phrase)
    requires Sound(cmp, p)
    ensures Meaning(cmp, p).Value?() || Meaning(cmp, p) == EmptySubstring
  {
    match p.body {
      case Nothing =>
      case One(a) => OperandKind(cmp, a);
      case Binary(lhs, _, rhs) =>
        OperandKind(cmp, lhs);
        MeaningKind(cmp, rhs);
      case Not(arg) => MeaningKind(cmp, arg);
      case Dropped(_, arg) => MeaningKind(cmp, arg);
    }
  }

  lemma OperandKind(cmp: Comparisons, a: Operand)
    requires SoundOperand(cmp, a)
    ensures OperandMeaning(cmp, a).Value?()
  {
  }

  /** Fewer than 256 brackets are ever open. */
  predicate Nested(text: string, level: int) {
    level < 256 && (text != "" ==>
      Nested(text[1..], if text[0] == '(' then level + 1 else if text[0] == ')' then level - 1 else level))
  }

  /** Brackets match, with `open` brackets open before the text. */
  predicate Balanced(text: string, open: nat) {
    if text == "" then open == 0
    else if text[0] == '(' then Balanced(text[1..], open + 1)
    else if text[0] == ')' then open > 0 && Balanced(text[1..], open - 1)
    else Balanced(text[1..], open)
  }

  // ---------- texts that begin with a phrase ----------

  lemma Cons(c: char, a: string, b: string)
    ensures ([c] + a + b)[0] == c && ([c] + a + b)[1..] == a + b
    ensures ([c] + a)[0] == c && ([c] + a)[1..] == a
  {
    assert [c] + a + b == [c] + (a + b);
  }

  lemma Assoc(a: string, b: string, c: string)
    ensures a + b + c == a + (b + c)
  {
  }

  /** The text of a group in front of other text. */
  lemma GroupText(inner: string, rest: string)
    ensures "(" + (inner + (")" + rest)) == "(" + (inner + ")") + rest
    ensures ("(" + (inner + (")" + rest)))[0] == '('
    ensures ("(" + (inner + (")" + rest)))[1..] == inner + (")" + rest)
    ensures (")" + rest)[0] == ')' && (")" + rest)[1..] == rest
  {
  }

  /** Where a phrase ends: at the end of the text, or at the bracket that closes its group. */
  predicate Ends(text: string, level: nat) {
    if level == 0 then text == "" else text != "" && text[0] == ')'
  }

  function Behind(text: string, level: nat): string
    requires Ends(text, level)
  {
    if level == 0 then "" else text[1..]
  }

  // ---------- printing keeps levels ----------

  lemma {:induction false} PhraseNested(p: Phrase, cmp: Comparisons, u: string, level: int)
    requires Sound(cmp, p)
    ensures Nested(Print(p) + u, level) ==> Nested(u, level)
    ensures level >= 0 ==> (Balanced(Print(p) + u, level) <==> Balanced(u, level))
    decreases p, 0
  {
    Assoc(PrintLead(p.lead), PrintBody(p.body), u);
    LeadNested(p.lead, cmp, PrintBody(p.body) + u, level);
    BodyNested(p.body, cmp, u, level);
  }

  lemma {:induction false} LeadNested(l: Lead, cmp: Comparisons, u: string, level: int)
    requires SoundLead(cmp, l)
    ensures Nested(PrintLead(l) + u, level) ==> Nested(u, level)
    ensures level >= 0 ==> (Balanced(PrintLead(l) + u, level) <==> Balanced(u, level))
    decreases l
  {
    match l {
      case NoLead => assert PrintLead(l) + u == u;
      case Skip(group, next) =>
        LeadText(l, u);
        InsideNested(group, cmp, PrintLead(next) + u, level);
        LeadNested(next, cmp, u, level);
    }
  }

  lemma GroupInFront(open: string, a: string, close: string, b: string, u: string)
    ensures open + (a + (close + b)) + u == open + (a + (close + (b + u)))
  {
  }

  lemma LeadText(l: Lead, u: string)
    requires l.Skip?
    ensures PrintLead(l) + u == "(" + (Print(l.group) + (")" + (PrintLead(l.next) + u)))
  {
    GroupInFront("(", Print(l.group), ")", PrintLead(l.next), u);
    hide Print;
  }

  lemma {:induction false} InsideNested(p: Phrase, cmp: Comparisons, u: string, level: int)
    requires Sound(cmp, p)
    ensures var t := "(" + (Print(p) + (")" + u));
      && (Nested(t, level) ==> Nested(u, level))
      && (level >= 0 ==> (Balanced(t, level) <==> Balanced(u, level)))
    decreases p, 1
  {
    hide Print, Sound;
    GroupText(Print(p), u);
    PhraseNested(p, cmp, ")" + u, level + 1);
  }

  lemma {:induction false} OperandNested(a: Operand, cmp: Comparisons, u: string, level: int)
    requires SoundOperand(cmp, a)
    ensures Nested(PrintOperand(a) + u, level) ==> Nested(u, level)
    ensures level >= 0 ==> (Balanced(PrintOperand(a) + u, level) <==> Balanced(u, level))
    decreases a
  {
    match a {
      case Variable(c) => Cons(c, u, "");
      case Group(inner) =>
        GroupText(Print(inner), u);
        InsideNested(inner, cmp, u, level);
    }
  }

  lemma {:induction false} BodyNested(b: Body, cmp: Comparisons, u: string, level: int)
    requires SoundBody(cmp, b)
    ensures Nested(PrintBody(b) + u, level) ==> Nested(u, level)
    ensures level >= 0 ==> (Balanced(PrintBody(b) + u, level) <==> Balanced(u, level))
    decreases b
  {
    hide Print, Sound, SoundOperand, PrintOperand;
    match b {
      case Nothing => assert "" + u == u;
      case One(a) => OperandNested(a, cmp, u, level);
      case Binary(lhs, op, rhs) =>
        TailText(PrintOperand(lhs), op, Print(rhs), u);
        OperandNested(lhs, cmp, [op] + (Print(rhs) + u), level);
        PhraseNested(rhs, cmp, u, level);
      case Not(arg) =>
        TailText("", '!', Print(arg), u);
        PhraseNested(arg, cmp, u, level);
      case Dropped(unused, arg) =>
        TailText(PrintOperand(unused), '!', Print(arg), u);
        OperandNested(unused, cmp, ['!'] + (Print(arg) + u), level);
        PhraseNested(arg, cmp, u, level);
    }
  }

  lemma TailText(a: string, op: char, b: string, u: string)
    ensures a + ([op] + b) + u == a + ([op] + (b + u))
    ensures ([op] + b) + u == [op] + (b + u)
    ensures ([op] + (b + u))[0] == op && ([op] + (b + u))[1..] == b + u
  {
  }

  // ---------- evaluating a printed phrase ----------

  /** One step of the evaluator on each kind of character. */
  lemma EvalLetter(cmp: Comparisons, c: char, u: string, level: nat)
    requires Letter(c) && cmp.Result(c).Value?()
    ensures Eval(cmp, [c] + u, level, EmptySubstring) == Eval(cmp, u, level, cmp.Result(c))
  {
    Cons(c, u, "");
  }

  lemma EvalOperator(cmp: Comparisons, op: char, u: string, level: nat, res: Result)
    requires Operator(op) && res.Value?()
    ensures var r := Eval(cmp, u, level, EmptySubstring);
      Eval(cmp, [op] + u, level, res) == (Apply(op, res, r.0), r.1)
  {
    hide Apply;
    Cons(op, u, "");
  }

  lemma EvalNot(cmp: Comparisons, u: string, level: nat, res: Result)
    requires !res.Error?()
    ensures var r := Eval(cmp, u, level, EmptySubstring);
      Eval(cmp, ['!'] + u, level, res) == (Invert(r.0), r.1)
  {
    hide Invert;
    Cons('!', u, "");
  }

  lemma EvalEnd(cmp: Comparisons, u: string, level: nat, res: Result)
    requires Ends(u, level) && !res.Error?()
    ensures Eval(cmp, u, level, res) == (res, Behind(u, level))
  {
  }

  lemma {:induction false} EvalPhrase(cmp: Comparisons, p: Phrase, u: string, level: nat)
    requires Sound(cmp, p) && Ends(u, level) && Nested(Print(p) + u, level)
    ensures Eval(cmp, Print(p) + u, level, EmptySubstring) == (Meaning(cmp, p), Behind(u, level))
    decreases p, 0
  {
    hide Eval, Apply, Invert, Nested;
    Assoc(PrintLead(p.lead), PrintBody(p.body), u);
    LeadNested(p.lead, cmp, PrintBody(p.body) + u, level);
    EvalLead(cmp, p.lead, PrintBody(p.body) + u, level);
    EvalBody(cmp, p.body, u, level);
  }

  lemma {:induction false} EvalGroup(cmp: Comparisons, p: Phrase, u: string, level: nat)
    requires Sound(cmp, p) && Nested("(" + (Print(p) + (")" + u)), level)
    ensures Eval(cmp, "(" + (Print(p) + (")" + u)), level, EmptySubstring) == Eval(cmp, u, level, Meaning(cmp, p))
    ensures Nested(u, level)
    decreases p, 1
  {
    hide Print, Sound, Apply, Invert, Meaning;
    GroupText(Print(p), u);
    InsideNested(p, cmp, u, level);
    OneDeeper(Print(p) + (")" + u), level);
    EvalPhrase(cmp, p, ")" + u, level + 1);
    MeaningKind(cmp, p);
  }

  lemma OneDeeper(t: string, level: nat)
    requires Nested("(" + t, level)
    ensures Deeper(level) == level + 1 && Nested(t, level + 1)
  {
    Cons('(', t, "");
    assert Nested(t, level + 1);
  }

  lemma {:induction false} EvalLead(cmp: Comparisons, l: Lead, u: string, level: nat)
    requires SoundLead(cmp, l) && Nested(PrintLead(l) + u, level)
    ensures Eval(cmp, PrintLead(l) + u, level, EmptySubstring) == Eval(cmp, u, level, EmptySubstring)
    decreases l, 0
  {
    hide Eval, Print, Sound, Meaning, Nested;
    match l {
      case NoLead => assert PrintLead(l) + u == u;
      case Skip(group, next) =>
        LeadText(l, u);
        EvalGroup(cmp, group, PrintLead(next) + u, level);
        EvalLead(cmp, next, u, level);
    }
  }

  lemma {:induction false} EvalOperand(cmp: Comparisons, a: Operand, u: string, level: nat)
    requires SoundOperand(cmp, a) && Nested(PrintOperand(a) + u, level)
    ensures Eval(cmp, PrintOperand(a) + u, level, EmptySubstring) == Eval(cmp, u, level, OperandMeaning(cmp, a))
    ensures Nested(u, level) && OperandMeaning(cmp, a).Value?()
    decreases a, 0
  {
    hide Eval, Print, Sound, Meaning, Nested;
    OperandNested(a, cmp, u, level);
    match a {
      case Variable(c) => EvalLetter(cmp, c, u, level);
      case Group(inner) =>
        GroupText(Print(inner), u);
        EvalGroup(cmp, inner, u, level);
    }
  }

  /** The meaning of what follows the lead. */
  function BodyMeaning(cmp: Comparisons, b: Body): Result {
    Meaning(cmp, Phrase(NoLead, b))
  }

  lemma {:induction false} EvalBody(cmp: Comparisons, b: Body, u: string, level: nat)
    requires SoundBody(cmp, b) && Ends(u, level) && Nested(PrintBody(b) + u, level)
    ensures Eval(cmp, PrintBody(b) + u, level, EmptySubstring) == (BodyMeaning(cmp, b), Behind(u, level))
    decreases b, 0
  {
    hide Eval, Print, Sound, SoundOperand, PrintOperand, OperandMeaning, Apply, Invert, Nested, Ends;
    match b {
      case Nothing =>
        assert "" + u == u;
        EvalEnd(cmp, u, level, EmptySubstring);
      case One(a) =>
        EvalOperand(cmp, a, u, level);
        EvalEnd(cmp, u, level, OperandMeaning(cmp, a));
      case Binary(lhs, op, rhs) =>
        TailText(PrintOperand(lhs), op, Print(rhs), u);
        EvalOperand(cmp, lhs, [op] + (Print(rhs) + u), level);
        TailNested(op, Print(rhs) + u, level);
        EvalOperator(cmp, op, Print(rhs) + u, level, OperandMeaning(cmp, lhs));
        EvalPhrase(cmp, rhs, u, level);
      case Not(arg) =>
        TailText("", '!', Print(arg), u);
        TailNested('!', Print(arg) + u, level);
        EvalNot(cmp, Print(arg) + u, level, EmptySubstring);
        EvalPhrase(cmp, arg, u, level);
      case Dropped(unused, arg) =>
        TailText(PrintOperand(unused), '!', Print(arg), u);
        EvalOperand(cmp, unused, ['!'] + (Print(arg) + u), level);
        TailNested('!', Print(arg) + u, level);
        EvalNot(cmp, Print(arg) + u, level, OperandMeaning(cmp, unused));
        EvalPhrase(cmp, arg, u, level);
    }
  }

  lemma TailNested(op: char, t: string, level: int)
    requires Nested([op] + t, level) && op != '(' && op != ')'
    ensures Nested(t, level)
  {
    Cons(op, t, "");
  }

  // ---------- every accepted text is a printed phrase ----------

  predicate Accepted(r: Result) {
    r.Value?() || r == EmptySubstring
  }

  /** `p` is the phrase at the front of the text, and the evaluator has found its meaning. */
  predicate Parsed(cmp: Comparisons, text: string, level: nat, p: Phrase, u: string) {
    && Sound(cmp, p) && Ends(u, level) && text == Print(p) + u
    && Eval(cmp, text, level, EmptySubstring) == (Meaning(cmp, p), Behind(u, level))
  }

  /** What follows an operand of value `res`: nothing, an operator, or a negation. */
  predicate Continued(cmp: Comparisons, text: string, level: nat, a: Operand, b: Body, u: string) {
    && SoundBody(cmp, b) && Ends(u, level) && PrintOperand(a) + text == PrintBody(b) + u
    && Eval(cmp, text, level, OperandMeaning(cmp, a)) == (BodyMeaning(cmp, b), Behind(u, level))
  }

  lemma RhsAccepted(op: char, lhs: Result, rhs: Result)
    ensures Accepted(Apply(op, lhs, rhs)) || Accepted(Invert(rhs)) ==> Accepted(rhs)
  {
  }

  lemma {:induction false} ParsePhrase(cmp: Comparisons, text: string, level: nat) returns (p: Phrase, u: string)
    requires cmp.Valid() && Nested(text, level) && Accepted(Eval(cmp, text, level, EmptySubstring).0)
    ensures Parsed(cmp, text, level, p, u)
    decreases |text|, 1
  {
    hide Sound, SoundBody, Nested, Invert, Meaning, OperandMeaning, PrintOperand;
    var b: Body := Nothing;
    p, u := Phrase(NoLead, Nothing), text;
    if text == "" || text[0] == ')' {
      EmptyPhrase(cmp, text, level);
    } else if text[0] == '(' {
      p, u := ParseGroup(cmp, text, level);
    } else if text[0] == '!' {
      p, u := ParseNot(cmp, text, level);
    } else {
      LetterFirst(cmp, text, level);
      var a := Variable(text[0]);
      b, u := ParseTail(cmp, text[1..], level, a);
      BodyAlone(cmp, b);
      assert text == [text[0]] + text[1..] == PrintOperand(a) + text[1..] by { OperandParts(cmp, p, text[0]); }
      p := Phrase(NoLead, b);
    }
  }

  lemma EmptyPhrase(cmp: Comparisons, text: string, level: nat)
    requires (text == "" || text[0] == ')') && Accepted(Eval(cmp, text, level, EmptySubstring).0)
    ensures Parsed(cmp, text, level, Phrase(NoLead, Nothing), text)
  {
    assert "" + text == text;
  }

  lemma BodyAlone(cmp: Comparisons, b: Body)
    ensures Print(Phrase(NoLead, b)) == PrintBody(b)
    ensures Sound(cmp, Phrase(NoLead, b)) <==> SoundBody(cmp, b)
    ensures Meaning(cmp, Phrase(NoLead, b)) == BodyMeaning(cmp, b)
  {
    hide PrintBody, SoundBody, Meaning;
    assert "" + PrintBody(b) == PrintBody(b);
  }

  lemma LetterFirst(cmp: Comparisons, text: string, level: nat)
    requires cmp.Valid() && text != "" && text[0] != ')' && text[0] != '(' && text[0] != '!'
    requires Nested(text, level) && Accepted(Eval(cmp, text, level, EmptySubstring).0)
    ensures Letter(text[0]) && SoundOperand(cmp, Variable(text[0])) && Nested(text[1..], level)
    ensures Eval(cmp, text, level, EmptySubstring)
      == Eval(cmp, text[1..], level, OperandMeaning(cmp, Variable(text[0])))
  {
    var res := cmp.Result(text[0]);
    if res.Error?() {
      ErrorStays(cmp, text[1..], level, res);
    }
  }

  lemma ErrorStays(cmp: Comparisons, text: string, level: nat, res: Result)
    requires res.Error?()
    ensures !Accepted(Eval(cmp, text, level, res).0)
  {
  }

  lemma {:induction false} ParseNot(cmp: Comparisons, text: string, level: nat) returns (p: Phrase, u: string)
    requires cmp.Valid() && Nested(text, level) && Accepted(Eval(cmp, text, level, EmptySubstring).0)
    requires text != "" && text[0] == '!'
    ensures Parsed(cmp, text, level, p, u)
    decreases |text|, 0
  {
    hide Eval, Sound, SoundBody, Nested, Meaning;
    var rest := text[1..];
    assert text == ['!'] + rest;
    EvalNot(cmp, rest, level, EmptySubstring);
    TailNested('!', rest, level);
    var arg;
    arg, u := ParsePhrase(cmp, rest, level);
    p := Phrase(NoLead, Not(arg));
    BodyAlone(cmp, Not(arg));
    TailText("", '!', Print(arg), u);
    BodyParts(cmp, Not(arg));
  }

  lemma {:induction false} ParseTail(cmp: Comparisons, text: string, level: nat, a: Operand)
      returns (b: Body, u: string)
    requires cmp.Valid() && Nested(text, level) && SoundOperand(cmp, a)
    requires Accepted(Eval(cmp, text, level, OperandMeaning(cmp, a)).0)
    ensures Continued(cmp, text, level, a, b, u)
    decreases |text|, 2
  {
    hide Sound, SoundOperand, PrintOperand, Nested, Apply, Invert, Meaning, OperandMeaning, Print;
    var res := OperandMeaning(cmp, a);
    OperandKind(cmp, a);
    b, u := One(a), text;
    if text != "" && text[0] != ')' {
      var c, rest := text[0], text[1..];
      assert text == [c] + rest;
      var arg;
      if c == '!' {
        EvalNot(cmp, rest, level, res);
        TailNested('!', rest, level);
        RhsAccepted('!', res, Eval(cmp, rest, level, EmptySubstring).0);
        arg, u := ParsePhrase(cmp, rest, level);
        b := Dropped(a, arg);
        TailText(PrintOperand(a), '!', Print(arg), u);
        BodyParts(cmp, b);
      } else {
        assert Operator(c);
        EvalOperator(cmp, c, rest, level, res);
        TailNested(c, rest, level);
        RhsAccepted(c, res, Eval(cmp, rest, level, EmptySubstring).0);
        arg, u := ParsePhrase(cmp, rest, level);
        b := Binary(a, c, arg);
        TailText(PrintOperand(a), c, Print(arg), u);
        BodyParts(cmp, b);
      }
    } else {
      BodyParts(cmp, b);
    }
  }

  /** What a body says about its parts. */
  lemma BodyParts(cmp: Comparisons, b: Body)
    ensures b.One? ==>
      && (SoundBody(cmp, b) <==> SoundOperand(cmp, b.a))
      && BodyMeaning(cmp, b) == OperandMeaning(cmp, b.a) && PrintBody(b) == PrintOperand(b.a)
    ensures b.Binary? ==>
      && (SoundBody(cmp, b) <==> SoundOperand(cmp, b.lhs) && Operator(b.op) && Sound(cmp, b.rhs))
      && BodyMeaning(cmp, b) == Apply(b.op, OperandMeaning(cmp, b.lhs), Meaning(cmp, b.rhs))
      && PrintBody(b) == PrintOperand(b.lhs) + ([b.op] + Print(b.rhs))
    ensures b.Not? ==>
      && (SoundBody(cmp, b) <==> Sound(cmp, b.arg))
      && BodyMeaning(cmp, b) == Invert(Meaning(cmp, b.arg)) && PrintBody(b) == ['!'] + Print(b.arg)
    ensures b.Dropped? ==>
      && (SoundBody(cmp, b) <==> SoundOperand(cmp, b.unused) && Sound(cmp, b.arg))
      && BodyMeaning(cmp, b) == Invert(Meaning(cmp, b.arg))
      && PrintBody(b) == PrintOperand(b.unused) + (['!'] + Print(b.arg))
  {
    hide SoundOperand, Sound, Apply, Invert, PrintOperand, OperandMeaning, Print;
  }

  lemma {:induction false} ParseGroup(cmp: Comparisons, text: string, level: nat) returns (p: Phrase, u: string)
    requires cmp.Valid() && Nested(text, level) && Accepted(Eval(cmp, text, level, EmptySubstring).0)
    requires text != "" && text[0] == '('
    ensures Parsed(cmp, text, level, p, u)
    decreases |text|, 0
  {
    hide Eval, Sound, Nested, Meaning, Print, Ends, Comparisons.Valid;
    var inside := text[1..];
    assert text == "(" + inside;
    OneDeeper(inside, level);
    AcceptedInside(cmp, text, level);
    var group, w := ParsePhrase(cmp, inside, level + 1);
    var rest := Behind(w, level + 1);
    ClosedBy(w, level + 1);
    GroupText(Print(group), rest);
    InsideNested(group, cmp, rest, level);
    MeaningKind(cmp, group);
    if Meaning(cmp, group) == EmptySubstring {
      var q;
      q, u := ParsePhrase(cmp, rest, level);
      p := Phrase(Skip(group, q.lead), q.body);
      SkipText(cmp, group, q, u);
    } else {
      p, u := ParseOperand(cmp, text, level, group, rest);
    }
  }

  lemma ClosedBy(w: string, level: nat)
    requires Ends(w, level) && level > 0
    ensures w == ")" + Behind(w, level)
  {
  }

  lemma {:induction false} ParseOperand(cmp: Comparisons, text: string, level: nat, group: Phrase, rest: string)
      returns (p: Phrase, u: string)
    requires cmp.Valid() && Nested(rest, level) && Accepted(Eval(cmp, text, level, EmptySubstring).0)
    requires text == "(" + (Print(group) + (")" + rest)) && Sound(cmp, group) && Meaning(cmp, group).Value?()
    requires Eval(cmp, text, level, EmptySubstring) == Eval(cmp, rest, level, Meaning(cmp, group))
    ensures Parsed(cmp, text, level, p, u)
    decreases |rest|, 3
  {
    hide Eval, Sound, SoundBody, SoundOperand, Nested, Meaning, OperandMeaning, Print, PrintOperand, PrintBody, Ends,
      Comparisons.Valid;
    OperandParts(cmp, group, '(');
    GroupText(Print(group), rest);
    var b;
    b, u := ParseTail(cmp, rest, level, Group(group));
    p := Phrase(NoLead, b);
    BodyAlone(cmp, b);
  }

  lemma OperandParts(cmp: Comparisons, group: Phrase, c: char)
    ensures SoundOperand(cmp, Group(group)) <==> Sound(cmp, group) && Meaning(cmp, group).Value?()
    ensures OperandMeaning(cmp, Group(group)) == Meaning(cmp, group)
    ensures PrintOperand(Group(group)) == "(" + (Print(group) + ")") && PrintOperand(Variable(c)) == [c]
  {
    hide Sound, Print;
  }

  lemma AcceptedInside(cmp: Comparisons, text: string, level: nat)
    requires text != "" && text[0] == '(' && Deeper(level) == level + 1
    requires cmp.Valid() && Accepted(Eval(cmp, text, level, EmptySubstring).0)
    ensures var r := Eval(cmp, text[1..], level + 1, EmptySubstring);
      Accepted(r.0) && Eval(cmp, text, level, EmptySubstring) == Eval(cmp, r.1, level, r.0)
  {
    hide Eval, Comparisons.Valid;
    var r := Eval(cmp, text[1..], level + 1, EmptySubstring);
    NeverEmpty(cmp, text[1..], level + 1, EmptySubstring);
    StepOpen(cmp, text, level, EmptySubstring);
    if r.0.Error?() {
      ErrorStays(cmp, r.1, level, r.0);
    }
  }

  lemma {:induction false} NeverEmpty(cmp: Comparisons, text: string, level: nat, res: Result)
    requires cmp.Valid() && res != Empty
    ensures Eval(cmp, text, level, res).0 != Empty
    decreases |text|
  {
    if text != "" && !res.Error?() {
      var c, rest := text[0], text[1..];
      if Letter(c) {
        NeverEmpty(cmp, rest, level, cmp.Result(c));
      } else if c == '(' {
        NeverEmpty(cmp, rest, Deeper(level), EmptySubstring);
        var r := Eval(cmp, rest, Deeper(level), EmptySubstring);
        NeverEmpty(cmp, r.1, level, r.0);
      } else {
        NeverEmpty(cmp, rest, level, EmptySubstring);
      }
    }
  }

  lemma SkipText(cmp: Comparisons, group: Phrase, q: Phrase, u: string)
    ensures var p := Phrase(Skip(group, q.lead), q.body);
      && Print(p) + u == "(" + (Print(group) + (")" + (Print(q) + u)))
      && Meaning(cmp, p) == Meaning(cmp, q)
      && (Sound(cmp, p) <==> Sound(cmp, group) && Meaning(cmp, group) == EmptySubstring && Sound(cmp, q))
  {
    hide PrintBody, SoundBody, OperandMeaning, Apply, Invert;
    var a, b, c := Print(group), PrintLead(q.lead), PrintBody(q.body);
    assert "(" + (a + (")" + b)) + c + u == "(" + (a + (")" + (b + c + u)));
  }

  // ---------- brackets nested too deeply for the eight-bit level ----------

  /** One step of an evaluation without an error. */
  lemma AcceptedStep(cmp: Comparisons, text: string, level: nat, res: Result)
    requires cmp.Valid() && text != "" && res != Empty && Accepted(Eval(cmp, text, level, res).0)
    ensures var c, rest, r := text[0], text[1..], Eval(cmp, text, level, res);
      if Letter(c) then r == Eval(cmp, rest, level, cmp.Result(c)) && cmp.Result(c) != Empty
      else if c == '(' then
        r == Eval(cmp, Eval(cmp, rest, Deeper(level), EmptySubstring).1, level,
          Eval(cmp, rest, Deeper(level), EmptySubstring).0)
      else if c == ')' then level > 0 && r == (res, rest)
      else Accepted(Eval(cmp, rest, level, EmptySubstring).0) && r.1 == Eval(cmp, rest, level, EmptySubstring).1
  {
    hide Apply, Invert, Letter, Comparisons.Valid;
    NoError(cmp, text, level, res);
    ResultKind(cmp, text[0]);
    RhsAccepted(text[0], res, Eval(cmp, text[1..], level, EmptySubstring).0);
  }

  lemma StepOpen(cmp: Comparisons, text: string, level: nat, res: Result)
    requires text != "" && text[0] == '(' && !res.Error?() && Accepted(Eval(cmp, text, level, res).0)
    ensures var r := Eval(cmp, text[1..], Deeper(level), EmptySubstring);
      Eval(cmp, text, level, res) == Eval(cmp, r.1, level, r.0)
  {
  }

  /** At level 0, counted in eight bits, a result that is no error has read the whole text. */
  lemma {:induction false} LevelZeroEnds(cmp: Comparisons, text: string, res: Result)
    requires cmp.Valid() && res != Empty && Accepted(Eval(cmp, text, 0, res).0)
    ensures Eval(cmp, text, 0, res).1 == ""
    decreases |text|
  {
    hide Eval, Comparisons.Valid;
    if text == "" {
      NothingLeft(cmp, 0, res);
    } else {
      AcceptedStep(cmp, text, 0, res);
      var c, rest := text[0], text[1..];
      if Letter(c) {
        LevelZeroEnds(cmp, rest, cmp.Result(c));
      } else if c == '(' {
        var r := Eval(cmp, rest, 1, EmptySubstring);
        NeverEmpty(cmp, rest, 1, EmptySubstring);
        LevelZeroEnds(cmp, r.1, r.0);
      } else {
        LevelZeroEnds(cmp, rest, EmptySubstring);
      }
    }
  }

  lemma NoError(cmp: Comparisons, text: string, level: nat, res: Result)
    requires Accepted(Eval(cmp, text, level, res).0)
    ensures !res.Error?()
  {
    hide Eval;
    if res.Error?() {
      ErrorStays(cmp, text, level, res);
    }
  }

  lemma ResultKind(cmp: Comparisons, c: char)
    requires cmp.Valid()
    ensures cmp.Result(c) != Empty && cmp.Result(c) != EmptySubstring
  {
  }

  /** A text that is not read as an error never has 256 brackets open. */
  lemma {:induction false} AcceptedNests(cmp: Comparisons, text: string, level: nat, res: Result)
    requires cmp.Valid() && res != Empty && level < 256 && Accepted(Eval(cmp, text, level, res).0)
    requires Nested(Eval(cmp, text, level, res).1, if level == 0 then 0 else level - 1)
    ensures Nested(text, level)
    decreases |text|
  {
    hide Eval, Comparisons.Valid;
    if text != "" {
      AcceptedStep(cmp, text, level, res);
      var c, rest := text[0], text[1..];
      if Letter(c) {
        AcceptedNests(cmp, rest, level, cmp.Result(c));
      } else if c == '(' {
        AcceptedGroup(cmp, rest, level);
        var r := Eval(cmp, rest, Deeper(level), EmptySubstring);
        NeverEmpty(cmp, rest, Deeper(level), EmptySubstring);
        AcceptedNests(cmp, r.1, level, r.0);
        AcceptedNests(cmp, rest, level + 1, EmptySubstring);
      } else if c != ')' {
        AcceptedNests(cmp, rest, level, EmptySubstring);
      }
    }
  }

  lemma AcceptedGroup(cmp: Comparisons, rest: string, level: nat)
    requires cmp.Valid() && level < 256
    requires var r := Eval(cmp, rest, Deeper(level), EmptySubstring); Accepted(Eval(cmp, r.1, level, r.0).0)
    ensures Deeper(level) == level + 1 && Accepted(Eval(cmp, rest, level + 1, EmptySubstring).0)
  {
    hide Eval, Comparisons.Valid;
    var r := Eval(cmp, rest, Deeper(level), EmptySubstring);
    NeverEmpty(cmp, rest, Deeper(level), EmptySubstring);
    NoError(cmp, r.1, level, r.0);
    if level == 255 {
      LevelZeroEnds(cmp, rest, EmptySubstring);
      NothingLeft(cmp, level, r.0);
    }
  }

  lemma NothingLeft(cmp: Comparisons, level: nat, res: Result)
    ensures Eval(cmp, "", level, res) == (if level > 0 then MissingCloseBracket else res, "")
  {
  }
}

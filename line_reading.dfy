/**
 * What a successful parse says about the line it read: the tree's
 * left-to-right reading is the line's own sequence of operands and
 * operators, and the tree is the only ordered one with that reading.
 */
module LineReading {
  import opened Errors
  import opened Tiered
  import opened Entities
  import opened Lexical
  import opened LexicalProofs

  /**
   * A piece of the line: the text of a symbol or number (whitespace
   * removed, a leading sign kept), the text between a '(' and its matching
   * ')' with the group's sign, or an operator.
   */
  datatype Lexeme = Word(text: string) | Group(inner: string, negative: bool) | Sym(op: OperatorType)

  /** The operand an operator or the end of the line completes: the group read last, else the text. */
  function LastOperand(buf: string, grp: Option<Lexeme>): Lexeme {
    if grp.Some? then grp.value else Word(buf)
  }

  /**
   * The pieces of code from index i, with the text buf and the group grp
   * read since the last operator. Whitespace is skipped; a '-' with nothing
   * read yet is a sign; text after a group is dropped; a ')' that no group
   * consumed leaves the line without a reading.
   */
  function Lex(code: string, i: nat, buf: string, grp: Option<Lexeme>): seq<Lexeme>
    requires i <= |code|
    decreases |code| - i
  {
    if i == |code| then [LastOperand(buf, grp)]
    else
      var c := code[i];
      if IsWhitespace(c) then Lex(code, i + 1, buf, grp)
      else if c == ')' then []
      else if c == '(' then
        match FindClose(code, i + 1, 1)
        case None => []
        case Some(j) => Lex(code, j + 1, "", Some(Group(code[i + 1..j], buf == "-")))
      else if Operator(c) != OperatorInvalid && !(Operator(c) == ArithmeticSub && buf == "" && grp.None?) then
        [LastOperand(buf, grp), Sym(Operator(c))] + Lex(code, i + 1, "", None)
      else Lex(code, i + 1, buf + [c], grp)
  }

  /** The pieces of a whole line. */
  function Tokens(code: string): seq<Lexeme> {
    Lex(code, 0, "", None)
  }

  /** Whitespace goes and a sign stays with its word. */
  lemma TokensOfSpacedLine()
    ensures Tokens("2 + -x") == [Word("2"), Sym(ArithmeticAdd), Word("-x")]
  {
    var a := "2 + -x";
    assert a[4] == '-' && a[5] == 'x' && Operator('x') == OperatorInvalid && !IsWhitespace('x');
    assert "" + ['-'] == "-" && "-" + ['x'] == "-x";
    assert Lex(a, 6, "-x", None) == [Word("-x")];
    assert Lex(a, 5, "-", None) == Lex(a, 6, "-x", None);
    assert Lex(a, 4, "", None) == Lex(a, 5, "-", None);
    assert Lex(a, 3, "", None) == Lex(a, 4, "", None);
    assert Lex(a, 2, "2", None) == [Word("2"), Sym(ArithmeticAdd)] + Lex(a, 3, "", None);
    assert Lex(a, 1, "2", None) == Lex(a, 2, "2", None);
    assert a[0] == '2' && "" + ['2'] == "2";
    assert Tokens(a) == Lex(a, 1, "2", None);
  }

  /** A signed group is one piece, and the text after it is dropped. */
  lemma TokensOfGroupLine()
    ensures Tokens("-(1)z*y") == [Group("1", true), Sym(ArithmeticMul), Word("y")]
  {
    var b := "-(1)z*y";
    var g := Some(Group("1", true));
    assert b[6] == 'y' && Operator('y') == OperatorInvalid && "" + ['y'] == "y";
    assert Lex(b, 6, "", None) == Lex(b, 7, "y", None) == [Word("y")];
    assert Lex(b, 4, "", g) == Lex(b, 5, "z", g) == [Group("1", true), Sym(ArithmeticMul)] + Lex(b, 6, "", None);
    assert FindClose(b, 2, 1) == Some(3) && b[2..3] == "1";
    assert Lex(b, 1, "-", None) == Lex(b, 4, "", g);
    assert b[0] == '-' && "" + ['-'] == "-";
  }

  /**
   * A token of a tree stands for a piece of the line: a word for the symbol
   * or number GetEntityFrom makes of it, a group's text for the group of
   * its parse with the same sign, an operator for itself.
   */
  predicate ReadsAs(t: Token, l: Lexeme) {
    match l
    case Word(text) => t.Atom? && GetEntityFrom(text) == Ok(t.atom)
    case Group(inner, negative) =>
      t.Atom? && t.atom.Parenthesis? && t.atom.negative == negative && Parsed(inner) == Ok(t.atom.child)
    case Sym(op) => t == Op(op)
  }

  /** A reading stands for a sequence of pieces, token by token. */
  predicate Reads(ts: seq<Token>, ls: seq<Lexeme>) {
    |ts| == |ls| && forall k :: 0 <= k < |ts| ==> ReadsAs(ts[k], ls[k])
  }

  lemma ReadsConcat(ts: seq<Token>, us: seq<Token>, ls: seq<Lexeme>, ms: seq<Lexeme>)
    requires Reads(ts, ls) && Reads(us, ms)
    ensures Reads(ts + us, ls + ms)
  {
    forall k | 0 <= k < |ts + us|
      ensures ReadsAs((ts + us)[k], (ls + ms)[k])
    {
      if k < |ts| {
        assert (ts + us)[k] == ts[k] && (ls + ms)[k] == ls[k];
      } else {
        assert (ts + us)[k] == us[k - |ts|] && (ls + ms)[k] == ms[k - |ts|];
      }
    }
  }

  /** A piece stands for at most one token. */
  lemma ReadsAsFunctional(t: Token, u: Token, l: Lexeme)
    requires ReadsAs(t, l) && ReadsAs(u, l)
    ensures t == u
  {
    if l.Group? {
      assert t.atom == Parenthesis(t.atom.child, l.negative);
    }
  }

  /** A sequence of pieces stands for at most one reading. */
  lemma ReadsFunctional(ts: seq<Token>, us: seq<Token>, ls: seq<Lexeme>)
    requires Reads(ts, ls) && Reads(us, ls)
    ensures ts == us
  {
    forall k | 0 <= k < |ts|
      ensures ts[k] == us[k]
    {
      ReadsAsFunctional(ts[k], us[k], ls[k]);
    }
  }

  /** The pending group, if any, is the parse of the group's text. */
  predicate PendingReads(st: ScanState, grp: Option<Lexeme>) {
    (st.ent.Some? <==> grp.Some?) && (st.ent.Some? ==> ReadsAs(Atom(st.ent.value), grp.value))
  }

  /** The operand completed by an operator or the end of the line stands for the last piece read. */
  lemma PendingReadsLast(st: ScanState, grp: Option<Lexeme>)
    requires Consistent(st) && PendingReads(st, grp) && Pending(st).Ok?
    ensures ReadsAs(Atom(Pending(st).value), LastOperand(st.buf, grp))
  {
  }

  /**
   * One iteration of the loop: the pieces read and the pending group after
   * it, which together with the rest of the line give the same pieces as
   * before it.
   */
  lemma StepReads(code: string, i: nat, st: ScanState, grp: Option<Lexeme>, pre: seq<Lexeme>)
    returns (grp': Option<Lexeme>, pre': seq<Lexeme>)
    requires i < |code| && Good(st) && Step(code, i, st).Ok?
    requires PendingReads(st, grp) && Reads(Reading(st), pre)
    ensures Good(Step(code, i, st).value.1)
    ensures PendingReads(Step(code, i, st).value.1, grp') && Reads(Reading(Step(code, i, st).value.1), pre')
    ensures pre' + Lex(code, Step(code, i, st).value.0, Step(code, i, st).value.1.buf, grp') == pre + Lex(code, i, st.buf, grp)
  {
    StepGood(code, i, st);
    var c := code[i];
    if c == '(' {
      grp', pre' := GroupReads(code, i, st, grp, pre);
    } else if Operator(c) != OperatorInvalid && !(Operator(c) == ArithmeticSub && st.buf == "" && st.ent.None?) {
      OperatorStep(code, i, st);
      grp' := None;
      pre' := OperatorStepReads(code, i, st, grp, pre);
    } else {
      grp', pre' := grp, pre;
      TextStep(code, i, st, grp);
    }
  }

  /** A group: its text and sign become the pending piece. */
  lemma GroupReads(code: string, i: nat, st: ScanState, grp: Option<Lexeme>, pre: seq<Lexeme>)
    returns (grp': Option<Lexeme>, pre': seq<Lexeme>)
    requires i < |code| && code[i] == '(' && Good(st) && Step(code, i, st).Ok? && Good(Step(code, i, st).value.1)
    requires PendingReads(st, grp) && Reads(Reading(st), pre)
    ensures PendingReads(Step(code, i, st).value.1, grp') && Reads(Reading(Step(code, i, st).value.1), pre')
    ensures pre' + Lex(code, Step(code, i, st).value.0, Step(code, i, st).value.1.buf, grp') == pre + Lex(code, i, st.buf, grp)
  {
    var k := FindClose(code, i + 1, 1).value;
    var g := GroupOf(code, i, st.ent, st.buf);
    assert Step(code, i, st).value == (k + 1, st.(ent := Some(g.value), buf := ""));
    grp', pre' := Some(Group(code[i + 1..k], st.buf == "-")), pre;
    assert Lex(code, i, st.buf, grp) == Lex(code, k + 1, "", grp');
  }

  /** An operator: the operand's piece and the operator join the pieces read. */
  lemma OperatorStepReads(code: string, i: nat, st: ScanState, grp: Option<Lexeme>, pre: seq<Lexeme>)
    returns (pre': seq<Lexeme>)
    requires i < |code| && Good(st) && Pending(st).Ok?
    requires Operator(code[i]) != OperatorInvalid && !(Operator(code[i]) == ArithmeticSub && st.buf == "" && st.ent.None?)
    requires PendingReads(st, grp) && Reads(Reading(st), pre)
    ensures Good(Shift(st, Operator(code[i]), Pending(st).value))
    ensures PendingReads(Shift(st, Operator(code[i]), Pending(st).value), None)
    ensures Reads(Reading(Shift(st, Operator(code[i]), Pending(st).value)), pre')
    ensures pre' + Lex(code, i + 1, "", None) == pre + Lex(code, i, st.buf, grp)
  {
    OperatorReads(st, Operator(code[i]), grp, pre);
    LexAfterOperator(code, i, st.buf, grp, pre);
    pre' := pre + [LastOperand(st.buf, grp), Sym(Operator(code[i]))];
  }

  /** The pieces up to an operator, then the rest of the line, are the pieces from before it. */
  lemma LexAfterOperator(code: string, i: nat, buf: string, grp: Option<Lexeme>, pre: seq<Lexeme>)
    requires i < |code|
    requires Operator(code[i]) != OperatorInvalid && !(Operator(code[i]) == ArithmeticSub && buf == "" && grp.None?)
    ensures pre + [LastOperand(buf, grp), Sym(Operator(code[i]))] + Lex(code, i + 1, "", None) == pre + Lex(code, i, buf, grp)
  {
    var mid := [LastOperand(buf, grp), Sym(Operator(code[i]))];
    LexOperator(code, i, buf, grp);
    var rest := Lex(code, i + 1, "", None);
    assert pre + mid + rest == pre + (mid + rest);
  }

  /** Whitespace, a sign or other text: only the pending text changes, and as the pieces expect. */
  lemma TextStep(code: string, i: nat, st: ScanState, grp: Option<Lexeme>)
    requires i < |code| && Consistent(st) && Step(code, i, st).Ok? && code[i] != '('
    requires !(Operator(code[i]) != OperatorInvalid && !(Operator(code[i]) == ArithmeticSub && st.buf == "" && st.ent.None?))
    requires st.ent.Some? <==> grp.Some?
    ensures Step(code, i, st).value.0 == i + 1
    ensures Step(code, i, st).value.1 == st.(buf := Step(code, i, st).value.1.buf)
    ensures Lex(code, i + 1, Step(code, i, st).value.1.buf, grp) == Lex(code, i, st.buf, grp)
  {
  }

  /** An operator after an operand: the operand's piece and the operator join the pieces read. */
  lemma OperatorReads(st: ScanState, t: OperatorType, grp: Option<Lexeme>, pre: seq<Lexeme>)
    requires Good(st) && IsBinary(t) && Pending(st).Ok?
    requires PendingReads(st, grp) && Reads(Reading(st), pre)
    ensures Good(Shift(st, t, Pending(st).value)) && PendingReads(Shift(st, t, Pending(st).value), None)
    ensures Reads(Reading(Shift(st, t, Pending(st).value)), pre + [LastOperand(st.buf, grp), Sym(t)])
  {
    var ent := Pending(st).value;
    PendingWellFormed(st);
    ShiftReading(st, t, ent);
    PendingReadsLast(st, grp);
    ReadsConcat(Reading(st), [Atom(ent), Op(t)], pre, [LastOperand(st.buf, grp), Sym(t)]);
  }

  lemma OperatorStep(code: string, i: nat, st: ScanState)
    requires i < |code| && Consistent(st) && Step(code, i, st).Ok?
    requires Operator(code[i]) != OperatorInvalid && !(Operator(code[i]) == ArithmeticSub && st.buf == "" && st.ent.None?)
    ensures Pending(st).Ok?
    ensures Step(code, i, st).value == (i + 1, Shift(st, Operator(code[i]), Pending(st).value))
  {
  }

  lemma LexOperator(code: string, i: nat, buf: string, grp: Option<Lexeme>)
    requires i < |code| && Operator(code[i]) != OperatorInvalid && !(Operator(code[i]) == ArithmeticSub && buf == "" && grp.None?)
    ensures Lex(code, i, buf, grp) == [LastOperand(buf, grp), Sym(Operator(code[i]))] + Lex(code, i + 1, "", None)
  {
    assert !IsWhitespace(code[i]) && code[i] != '(' && code[i] != ')';
  }

  /**
   * The scan from index i in a reachable state, with the pieces pre read
   * so far standing for the state's reading, yields a tree whose reading
   * stands for pre followed by the pieces of the rest of the line.
   */
  lemma {:induction false} ScannedReads(code: string, i: nat, st: ScanState, grp: Option<Lexeme>, pre: seq<Lexeme>)
    requires i <= |code| && Good(st) && Scanned(code, i, st).Ok?
    requires PendingReads(st, grp) && Reads(Reading(st), pre)
    ensures Reads(Flatten(Scanned(code, i, st).value), pre + Lex(code, i, st.buf, grp))
    decreases |code| - i
  {
    if i == |code| {
      FinishReading(st);
      PendingReadsLast(st, grp);
      ReadsConcat(Reading(st), [Atom(Pending(st).value)], pre, [LastOperand(st.buf, grp)]);
    } else {
      var (j, next) := Step(code, i, st).value;
      var grp', pre' := StepReads(code, i, st, grp, pre);
      ScannedReads(code, j, next, grp', pre');
    }
  }

  /**
   * A successful parse reads as the line: its tree's left-to-right tokens
   * stand, one for one, for the line's words, groups and operators.
   */
  lemma ParsedReadsTokens(code: string)
    requires Parsed(code).Ok?
    ensures Reads(Flatten(Parsed(code).value), Tokens(code))
  {
    ScannedReads(code, 0, Start(), None, []);
  }

  /**
   * A successful parse yields the only tree that respects precedence and
   * associativity among those whose reading stands for the line's pieces.
   */
  lemma ParsedIsTheOrderedTree(code: string, other: Entity)
    requires Parsed(code).Ok? && Ordered(other) && Reads(Flatten(other), Tokens(code))
    ensures other == Parsed(code).value
  {
    ParsedWellFormed(code);
    ParsedReadsTokens(code);
    ReadsFunctional(Flatten(other), Flatten(Parsed(code).value), Tokens(code));
    OrderedUnique(other, Parsed(code).value);
  }
}

/**
 * Whole lines and what the parser makes of them: single values, signs,
 * one and two operators, groups, and the lines it refuses with a syntax
 * error.
 */
module LexicalCases {
  import opened Errors
  import opened Tiered
  import opened Names
  import opened Entities
  import opened SingleValues
  import opened Lexical
  import opened LexicalProofs
  import opened Whitespace

  /** A character that only ever goes into the pending text. */
  predicate Plain(c: char) {
    !IsWhitespace(c) && c != '(' && c != ')' && Operator(c) == OperatorInvalid
  }

  predicate AllPlain(s: string) {
    forall k :: 0 <= k < |s| ==> Plain(s[k])
  }

  // ---------------------------------------------------------------- one step at a time

  lemma ParsedUnfold(code: string)
    ensures Parsed(code) == Scanned(code, 0, Start())
  {
  }

  lemma ScannedUnfold(code: string, i: nat, st: ScanState)
    requires i < |code| && Consistent(st)
    ensures Step(code, i, st).Err? ==> Scanned(code, i, st) == Err(Step(code, i, st).error)
    ensures Step(code, i, st).Ok? ==> Scanned(code, i, st) == Scanned(code, Step(code, i, st).value.0, Step(code, i, st).value.1)
  {
  }

  lemma ScannedEnd(code: string, st: ScanState)
    requires Consistent(st)
    ensures Scanned(code, |code|, st) == Finish(st)
  {
  }

  lemma StepPlain(code: string, i: nat, st: ScanState)
    requires i < |code| && Consistent(st) && Plain(code[i])
    ensures Step(code, i, st) == Ok((i + 1, st.(buf := st.buf + [code[i]])))
  {
  }

  lemma StepSign(code: string, i: nat, st: ScanState)
    requires i < |code| && Consistent(st) && code[i] == '-' && st.buf == "" && st.ent.None?
    ensures Step(code, i, st) == Ok((i + 1, st.(buf := "-")))
  {
    assert st.buf + [code[i]] == "-";
  }

  lemma StepOperator(code: string, i: nat, st: ScanState)
    requires i < |code| && Consistent(st) && Operator(code[i]) != OperatorInvalid
    requires !(code[i] == '-' && st.buf == "" && st.ent.None?)
    ensures Pending(st).Err? ==> Step(code, i, st) == Err(SyntaxError)
    ensures Pending(st).Ok? ==> Step(code, i, st) == Ok((i + 1, Shift(st, Operator(code[i]), Pending(st).value)))
  {
  }

  lemma StepGroup(code: string, i: nat, st: ScanState)
    requires i < |code| && Consistent(st) && code[i] == '('
    ensures GroupOf(code, i, st.ent, st.buf).Err? ==> Step(code, i, st) == Err(GroupOf(code, i, st.ent, st.buf).error)
    ensures GroupOf(code, i, st.ent, st.buf).Ok? ==>
              Step(code, i, st)
              == Ok((FindClose(code, i + 1, 1).value + 1, st.(ent := Some(GroupOf(code, i, st.ent, st.buf).value), buf := "")))
  {
  }

  lemma GroupRefused(code: string, i: nat, ent: Option<Entity>, buf: string)
    requires i < |code| && code[i] == '('
    requires (buf != "" && buf != "-") || FindClose(code, i + 1, 1).None? || ent.Some?
    ensures GroupOf(code, i, ent, buf) == Err(SyntaxError)
  {
  }

  lemma GroupInner(code: string, i: nat, k: nat, buf: string)
    requires i < |code| && code[i] == '(' && FindClose(code, i + 1, 1) == Some(k) && (buf == "" || buf == "-")
    ensures Parsed(code[i + 1..k]).Err? ==> GroupOf(code, i, None, buf) == Err(Parsed(code[i + 1..k]).error)
    ensures Parsed(code[i + 1..k]).Ok? ==> GroupOf(code, i, None, buf) == Ok(Parenthesis(Parsed(code[i + 1..k]).value, buf == "-"))
  {
  }

  lemma AllPlainTail(s: string)
    requires AllPlain(s) && s != []
    ensures Plain(s[0]) && AllPlain(s[1..])
  {
    forall k | 0 <= k < |s| - 1
      ensures Plain(s[1..][k])
    {
      assert s[1..][k] == s[k + 1];
    }
  }

  /** A run of plain characters is appended to the pending text and nothing else happens. */
  lemma {:induction false} PlainPrefix(code: string, i: nat, j: nat, st: ScanState)
    requires i <= j <= |code| && Consistent(st) && AllPlain(code[i..j])
    ensures Scanned(code, i, st) == Scanned(code, j, st.(buf := st.buf + code[i..j]))
    decreases j - i
  {
    if i == j {
      assert st.buf + code[i..j] == st.buf;
      assert st.(buf := st.buf) == st;
    } else {
      AllPlainTail(code[i..j]);
      assert code[i..j][0] == code[i] && code[i..j][1..] == code[i + 1..j];
      StepPlain(code, i, st);
      ScannedUnfold(code, i, st);
      PlainPrefix(code, i + 1, j, st.(buf := st.buf + [code[i]]));
      assert st.buf + [code[i]] + code[i + 1..j] == st.buf + code[i..j];
    }
  }

  /** A line that ends in a run of plain characters: they are the last operand's text. */
  lemma PlainRun(code: string, i: nat, st: ScanState)
    requires i <= |code| && Consistent(st) && AllPlain(code[i..])
    ensures Scanned(code, i, st) == Finish(st.(buf := st.buf + code[i..]))
  {
    assert code[i..|code|] == code[i..];
    PlainPrefix(code, i, |code|, st);
    ScannedEnd(code, st.(buf := st.buf + code[i..]));
  }

  /** Over plain characters the level-counting scan stops at the first ')'. */
  lemma {:induction false} FindClosePlain(code: string, k: nat, j: nat)
    requires k <= j < |code| && AllPlain(code[k..j]) && code[j] == ')'
    ensures FindClose(code, k, 1) == Some(j)
    decreases j - k
  {
    if k < j {
      AllPlainTail(code[k..j]);
      assert code[k..j][0] == code[k] && code[k..j][1..] == code[k + 1..j];
      FindClosePlain(code, k + 1, j);
    }
  }

  /** The start state with the pending text x. */
  function Buffered(x: string): (st: ScanState)
    ensures Consistent(st)
  {
    Start().(buf := x)
  }

  /** A plain prefix x of the line, read from the start. */
  lemma PlainStart(code: string, x: string)
    requires |x| <= |code| && code[..|x|] == x && AllPlain(x)
    ensures Parsed(code) == Scanned(code, |x|, Buffered(x))
  {
    ParsedUnfold(code);
    assert code[0..|x|] == x;
    PlainPrefix(code, 0, |x|, Start());
    assert "" + x == x;
  }

  // ---------------------------------------------------------------- single values

  /** A line without operators, groups or whitespace is a single value, tested as GetEntityFrom tests it. */
  lemma ParsedSingleValue(x: string)
    requires AllPlain(x)
    ensures Parsed(x) == GetEntityFrom(x)
  {
    PlainStart(x, x);
    ScannedEnd(x, Buffered(x));
  }

  /**
   * A leading '-' is a sign: "-x" is the value x with its sign flag set, and
   * it is valid exactly when "-x" is a valid symbol or number.
   */
  lemma SignedSingleValue(x: string)
    requires AllPlain(x)
    ensures Parsed("-" + x) == GetEntityFrom("-" + x)
    ensures Parsed("-" + x).Ok? ==> Parsed("-" + x).value.negative && GetAbsValue(Parsed("-" + x).value) == x
  {
    var code := "-" + x;
    assert code[0] == '-';
    ParsedUnfold(code);
    StepSign(code, 0, Start());
    ScannedUnfold(code, 0, Start());
    assert code[1..|code|] == x;
    PlainPrefix(code, 1, |code|, Buffered("-"));
    ScannedEnd(code, Buffered("-" + x));
  }

  /** "12" is the number 12. */
  lemma Twelve()
    ensures Parsed("12") == Ok(Literal("12", false))
  {
    assert AllPlain("12");
    ParsedSingleValue("12");
    assert !OperandValid("12");
    assert DigitRun("12") == 2 by { assert DigitRun("2") == 1 by { assert "2"[1..] == ""; } }
  }

  /** "1 2" reads as the number 12: the space inside the number is dropped. */
  lemma SpacedNumber()
    ensures Parsed("1 2") == Ok(Literal("12", false))
  {
    ParsedStripped("1 2");
    SpaceInsideNumber();
    Twelve();
  }

  // ---------------------------------------------------------------- one and two operators

  /**
   * x c y (with an optional sign s in front of y): one node with operator c,
   * x on its left and the value s + y on its right; a syntax error when
   * either side is not a valid symbol or number.
   */
  lemma BinaryLine(x: string, c: char, s: string, y: string)
    requires AllPlain(x) && AllPlain(y) && Operator(c) != OperatorInvalid && (s == "" || s == "-")
    requires c == '-' ==> x != ""
    ensures Parsed(x + [c] + s + y).Ok? <==> GetEntityFrom(x).Ok? && GetEntityFrom(s + y).Ok?
    ensures Parsed(x + [c] + s + y).Ok? ==>
              Parsed(x + [c] + s + y).value
              == Compound(Operator(c), Some(GetEntityFrom(x).value), Some(GetEntityFrom(s + y).value))
  {
    var code := x + [c] + s + y;
    var n := |x| + 1 + |s|;
    assert code[..|x|] == x && code[|x|] == c && code[|x| + 1..n] == s && code[n..] == y;
    if x == "" {
      ParsedSingleValue("");
      LeadingOperatorFails(code);
    } else if GetEntityFrom(x).Ok? {
      var i := |x| + 1;
      FirstOperator(code, x, i, c, GetEntityFrom(x).value);
      var st1 := ScanState(None, Compound(Operator(c), Some(GetEntityFrom(x).value), None), None, "");
      SignedRun(code, i, s, st1);
      FinishSecondOperand(st1, s + y);
    } else {
      FirstOperandFails(code, x);
    }
  }

  /** An invalid first operand, completed by the operator after it, is a syntax error. */
  lemma FirstOperandFails(code: string, x: string)
    requires |x| < |code| && code[..|x|] == x && AllPlain(x) && x != "" && Operator(code[|x|]) != OperatorInvalid
    requires GetEntityFrom(x).Err?
    ensures Parsed(code) == Err(SyntaxError)
  {
    PlainStart(code, x);
    StepOperator(code, |x|, Buffered(x));
    ScannedUnfold(code, |x|, Buffered(x));
  }

  /** The rest of the line is an operand with an optional sign s: it all goes into the pending text. */
  lemma SignedRun(code: string, i: nat, s: string, st: ScanState)
    requires i + |s| <= |code| && code[i..i + |s|] == s && (s == "" || s == "-") && AllPlain(code[i + |s|..])
    requires Consistent(st) && st.ent.None? && st.buf == ""
    ensures Scanned(code, i, st) == Finish(st.(buf := s + code[i + |s|..]))
  {
    if s == "-" {
      assert code[i] == '-';
      StepSign(code, i, st);
      ScannedUnfold(code, i, st);
      PlainRun(code, i + 1, st.(buf := "-"));
    } else {
      PlainRun(code, i, st);
      assert st.buf + code[i..] == s + code[i + |s|..];
    }
  }

  /** The end of a line with one operator: the node is complete, or the right operand is invalid. */
  lemma FinishSecondOperand(st: ScanState, b: string)
    requires Consistent(st) && st.head.None? && st.ent.None? && st.tmp.op != OperatorInvalid
    ensures Finish(st.(buf := b)).Ok? <==> GetEntityFrom(b).Ok?
    ensures Finish(st.(buf := b)).Ok? ==> Finish(st.(buf := b)).value == st.tmp.(right := Some(GetEntityFrom(b).value))
  {
  }

  /** The first operator c, at j, after a valid operand x: TMP takes the operand on its left and c. */
  lemma FirstShift(code: string, j: nat, k: nat, c: char, x: string, l: Entity)
    requires j < |code| && k == j + 1 && code[j] == c && Operator(c) != OperatorInvalid && x != ""
    requires GetEntityFrom(x) == Ok(l)
    ensures Scanned(code, j, Buffered(x)) == Scanned(code, k, ScanState(None, Compound(Operator(c), Some(l), None), None, ""))
  {
    StepOperator(code, j, Buffered(x));
    ScannedUnfold(code, j, Buffered(x));
  }

  /** The second operator c after a valid operand b: the completed first node becomes the tree. */
  lemma SecondShift(code: string, j: nat, k: nat, c: char, t: OperatorType, l: Entity, b: string, r: Entity)
    requires j < |code| && k == j + 1 && code[j] == c && Operator(c) != OperatorInvalid && b != ""
    requires IsBinary(t) && IsAtom(l) && GetEntityFrom(b) == Ok(r)
    ensures Scanned(code, j, ScanState(None, Compound(t, Some(l), None), None, b))
         == Scanned(code, k, ScanState(Some(Compound(t, Some(l), Some(r))),
                                           Compound(Operator(c), None, None), None, ""))
  {
    var st := ScanState(None, Compound(t, Some(l), None), None, b);
    StepOperator(code, j, st);
    ScannedUnfold(code, j, st);
  }

  /** The first operand x and the operator c after it: TMP holds x on its left and c, and the scan goes on at i. */
  lemma FirstOperator(code: string, x: string, i: nat, c: char, l: Entity)
    requires i == |x| + 1 && i <= |code| && code[..|x|] == x && AllPlain(x) && x != ""
    requires code[|x|] == c && Operator(c) != OperatorInvalid && GetEntityFrom(x) == Ok(l)
    ensures Parsed(code) == Scanned(code, i, ScanState(None, Compound(Operator(c), Some(l), None), None, ""))
  {
    PlainStart(code, x);
    FirstShift(code, |x|, i, c, x, l);
  }

  /**
   * The second operand y, from i to j, and the operator c at j: the first
   * node, completed, becomes the tree and the scan goes on at k.
   */
  lemma SecondOperator(code: string, i: nat, j: nat, k: nat, y: string, c: char, t: OperatorType, l: Entity, r: Entity)
    requires i <= j < |code| && j == i + |y| && k == j + 1 && code[i..j] == y && AllPlain(y) && y != ""
    requires code[j] == c && Operator(c) != OperatorInvalid
    requires IsBinary(t) && IsAtom(l) && GetEntityFrom(y) == Ok(r)
    ensures Scanned(code, i, ScanState(None, Compound(t, Some(l), None), None, ""))
         == Scanned(code, k, ScanState(Some(Compound(t, Some(l), Some(r))), Compound(Operator(c), None, None), None, ""))
  {
    var st1 := ScanState(None, Compound(t, Some(l), None), None, "");
    PlainPrefix(code, i, j, st1);
    assert st1.(buf := st1.buf + code[i..j]) == ScanState(None, Compound(t, Some(l), None), None, y);
    SecondShift(code, j, k, c, t, l, y, r);
  }

  /**
   * x c1 y c2 z: the first node is built, then the second is inserted into
   * it by the associativity of c2.
   */
  lemma TernaryLine(x: string, c1: char, y: string, c2: char, z: string, l: Entity, m: Entity, r: Entity)
    requires AllPlain(x) && AllPlain(y) && AllPlain(z) && x != "" && y != ""
    requires Operator(c1) != OperatorInvalid && Operator(c2) != OperatorInvalid
    requires GetEntityFrom(x) == Ok(l) && GetEntityFrom(y) == Ok(m) && GetEntityFrom(z) == Ok(r)
    ensures Parsed(x + [c1] + y + [c2] + z)
         == Ok(Insert(Some(Compound(Operator(c1), Some(l), Some(m))), Compound(Operator(c2), None, Some(r))))
  {
    var code := x + [c1] + y + [c2] + z;
    var i, j, k := |x| + 1, |x| + 1 + |y|, |x| + 1 + |y| + 1;
    FiveParts(x, c1, y, c2, z, i, j, k);
    TwoOperators(code, x, c1, y, c2, l, m, i, j, k);
    LastOperand(code, k, Compound(Operator(c1), Some(l), Some(m)), Operator(c2), r);
  }

  /** The operand that ends a line with a tree h and TMP waiting for its right operand r. */
  lemma LastOperand(code: string, k: nat, h: Entity, t: OperatorType, r: Entity)
    requires k <= |code| && AllPlain(code[k..]) && GetEntityFrom(code[k..]) == Ok(r)
    requires IsBinary(t) && h.Compound? && SpineComplete(h)
    ensures Scanned(code, k, ScanState(Some(h), Compound(t, None, None), None, "")) == Ok(Insert(Some(h), Compound(t, None, Some(r))))
  {
    var st := ScanState(Some(h), Compound(t, None, None), None, "");
    PlainRun(code, k, st);
    assert st.buf + code[k..] == code[k..];
  }

  /** The line up to its second operator, which is at j; the scan goes on at k. */
  lemma TwoOperators(code: string, x: string, c1: char, y: string, c2: char, l: Entity, m: Entity, i: nat, j: nat, k: nat)
    requires i == |x| + 1 && j == i + |y| && k == j + 1 && j < |code|
    requires code[..|x|] == x && code[|x|] == c1 && code[i..j] == y && code[j] == c2
    requires AllPlain(x) && AllPlain(y) && x != "" && y != ""
    requires Operator(c1) != OperatorInvalid && Operator(c2) != OperatorInvalid
    requires GetEntityFrom(x) == Ok(l) && GetEntityFrom(y) == Ok(m)
    ensures Parsed(code) == Scanned(code, k, ScanState(Some(Compound(Operator(c1), Some(l), Some(m))), Compound(Operator(c2), None, None), None, ""))
  {
    FirstOperator(code, x, i, c1, l);
    SecondOperator(code, i, j, k, y, c2, Operator(c1), l, m);
  }

  /** The parts of x c1 y c2 z, with c1 at |x|, y from i to j, c2 at j and z from k. */
  lemma FiveParts(x: string, c1: char, y: string, c2: char, z: string, i: nat, j: nat, k: nat)
    requires i == |x| + 1 && j == i + |y| && k == j + 1
    ensures var code := x + [c1] + y + [c2] + z;
            && j < |code| && code[..|x|] == x && code[|x|] == c1 && code[i..j] == y && code[j] == c2 && code[k..] == z
  {
  }

  // ---------------------------------------------------------------- groups

  /** A group of plain text: "(x)" and "-(x)", the sign kept in the group's flag. */
  lemma PlainGroup(s: string, x: string)
    requires AllPlain(x) && (s == "" || s == "-")
    ensures Parsed(s + "(" + x + ")").Ok? <==> GetEntityFrom(x).Ok?
    ensures Parsed(s + "(" + x + ")").Ok? ==>
              Parsed(s + "(" + x + ")").value == Parenthesis(GetEntityFrom(x).value, s == "-")
  {
    var code := s + "(" + x + ")";
    var i := |s|;
    var k := |code| - 1;
    ParsedUnfold(code);
    if s == "-" {
      assert code[0] == '-';
      StepSign(code, 0, Start());
      ScannedUnfold(code, 0, Start());
    } else {
      assert Buffered(s) == Start();
    }
    assert code[i] == '(' && code[k] == ')';
    assert code[i + 1..k] == x;
    FindClosePlain(code, i + 1, k);
    ParsedSingleValue(x);
    GroupInner(code, i, k, s);
    StepGroup(code, i, Buffered(s));
    ScannedUnfold(code, i, Buffered(s));
    if GetEntityFrom(x).Ok? {
      var st := Buffered(s).(ent := Some(Parenthesis(GetEntityFrom(x).value, s == "-")), buf := "");
      ScannedEnd(code, st);
    }
  }

  /**
   * Text between a closed group and the next operator (or the end of the
   * line) is dropped: "(x)z" parses as "(x)".
   */
  lemma TextAfterGroupDropped(x: string, z: string)
    requires AllPlain(x) && AllPlain(z)
    ensures Parsed("(" + x + ")" + z) == Parsed("(" + x + ")")
  {
    var code := "(" + x + ")" + z;
    var g := "(" + x + ")";
    var j := |x| + 1;
    ParsedUnfold(code);
    ParsedUnfold(g);
    assert code[0] == '(' && g[0] == '(' && code[j] == ')' && g[j] == ')';
    assert code[1..j] == x && g[1..j] == x;
    FindClosePlain(code, 1, j);
    FindClosePlain(g, 1, j);
    GroupInner(code, 0, j, "");
    GroupInner(g, 0, j, "");
    StepGroup(code, 0, Start());
    StepGroup(g, 0, Start());
    ScannedUnfold(code, 0, Start());
    ScannedUnfold(g, 0, Start());
    if Parsed(x).Ok? {
      var st := Start().(ent := Some(Parenthesis(Parsed(x).value, false)), buf := "");
      assert code[j + 1..|code|] == z;
      PlainPrefix(code, j + 1, |code|, st);
      ScannedEnd(code, st.(buf := z));
      ScannedEnd(g, st);
    }
  }

  // ---------------------------------------------------------------- syntax errors

  /** A line holding nothing but whitespace, the empty line included, is a syntax error. */
  lemma BlankLineFails(code: string)
    requires forall k :: 0 <= k < |code| ==> IsWhitespace(code[k])
    ensures Parsed(code) == Err(SyntaxError)
  {
    ParsedStripped(code);
    StripBlank(code);
    ParsedSingleValue("");
  }

  lemma {:induction false} StripBlank(code: string)
    requires forall k :: 0 <= k < |code| ==> IsWhitespace(code[k])
    ensures Strip(code) == ""
  {
    if code != [] {
      StripBlank(code[1..]);
    }
  }

  /** An empty group is a syntax error, whatever follows it. */
  lemma EmptyGroupFails(rest: string)
    ensures Parsed("()" + rest) == Err(SyntaxError)
  {
    var code := "()" + rest;
    assert code[0] == '(' && code[1] == ')';
    assert FindClose(code, 1, 1) == Some(1);
    assert code[1..1] == "";
    ParsedSingleValue("");
    ParsedUnfold(code);
    GroupInner(code, 0, 1, "");
    StepGroup(code, 0, Start());
    ScannedUnfold(code, 0, Start());
  }

  /** An operator other than '-' at the start of a line has no left operand. */
  lemma LeadingOperatorFails(code: string)
    requires |code| > 0 && Operator(code[0]) != OperatorInvalid && code[0] != '-'
    ensures Parsed(code) == Err(SyntaxError)
  {
    ParsedUnfold(code);
    ParsedSingleValue("");
    StepOperator(code, 0, Start());
    ScannedUnfold(code, 0, Start());
  }

  /** A ')' that no group scan has consumed is a syntax error. */
  lemma LeadingCloseFails(code: string)
    requires |code| > 0 && code[0] == ')'
    ensures Parsed(code) == Err(SyntaxError)
  {
    ParsedUnfold(code);
    ScannedUnfold(code, 0, Start());
  }

  /**
   * A ')' that closes no group is a syntax error wherever it stands: after
   * text p with as many '(' as ')', the scan never passes that ')' inside a
   * group, so it reaches it and fails.
   */
  lemma StrayCloseFails(p: string, rest: string)
    requires Count('(', p) == Count(')', p)
    ensures Parsed(p + ")" + rest) == Err(SyntaxError)
  {
    var code := p + ")" + rest;
    assert code[|p|] == ')';
    assert code[0..|p|] == p;
    ParsedUnfold(code);
    ScannedStrayClose(code, 0, Start(), |p|);
    ParsedErrorKind(code);
  }

  lemma {:induction false} ScannedStrayClose(code: string, i: nat, st: ScanState, n: nat)
    requires i <= n < |code| && code[n] == ')' && Consistent(st)
    requires Count('(', code[i..n]) == Count(')', code[i..n])
    ensures Scanned(code, i, st).Err?
    decreases n - i
  {
    ScannedUnfold(code, i, st);
    if i < n && Step(code, i, st).Ok? {
      var (j, next) := Step(code, i, st).value;
      StepBeforeStray(code, i, st, n);
      ScannedStrayClose(code, j, next, n);
    }
  }

  /** A step taken before that ')' stops short of it, and what lies between stays balanced. */
  lemma StepBeforeStray(code: string, i: nat, st: ScanState, n: nat)
    requires i < n < |code| && code[n] == ')' && Consistent(st) && Step(code, i, st).Ok?
    requires Count('(', code[i..n]) == Count(')', code[i..n])
    ensures Step(code, i, st).value.0 <= n
    ensures Count('(', code[Step(code, i, st).value.0..n]) == Count(')', code[Step(code, i, st).value.0..n])
  {
    CountFirst('(', code, i);
    CountFirst(')', code, i);
    if code[i] == '(' {
      StepGroup(code, i, st);
      GroupBeforeStray(code, i, n);
    }
  }

  /** A group opened before that ')' closes before it, and leaves the rest balanced. */
  lemma GroupBeforeStray(code: string, i: nat, n: nat)
    requires i < n < |code| && code[i] == '(' && FindClose(code, i + 1, 1).Some?
    requires Count('(', code[i + 1..n]) + 1 == Count(')', code[i + 1..n])
    ensures FindClose(code, i + 1, 1).value < n
    ensures Count('(', code[FindClose(code, i + 1, 1).value + 1..n]) == Count(')', code[FindClose(code, i + 1, 1).value + 1..n])
  {
    var k := FindClose(code, i + 1, 1).value;
    FindCloseMatches(code, i + 1, 1);
    assert k < n;
    assert code[i + 1..n] == code[i + 1..k] + code[k..n];
    CountConcat('(', code[i + 1..k], code[k..n]);
    CountConcat(')', code[i + 1..k], code[k..n]);
    CountFirst('(', code, k);
    CountFirst(')', code, k);
  }

  /** A line whose parentheses do not balance is a syntax error; an unclosed '(' is one of these. */
  lemma UnbalancedFails(code: string)
    requires Count('(', code) != Count(')', code)
    ensures Parsed(code) == Err(SyntaxError)
  {
    if Parsed(code).Ok? {
      ParsedBalanced(code);
    }
    ParsedErrorKind(code);
  }

  /** An operator at the end of a line leaves its right operand empty. */
  lemma TrailingOperatorFails(code: string)
    requires |code| > 0 && Operator(code[|code| - 1]) != OperatorInvalid
    ensures Parsed(code) == Err(SyntaxError)
  {
    ParsedUnfold(code);
    ScannedTrailing(code, 0, Start());
    ParsedErrorKind(code);
  }

  lemma {:induction false} ScannedTrailing(code: string, i: nat, st: ScanState)
    requires i < |code| && Consistent(st) && Operator(code[|code| - 1]) != OperatorInvalid
    ensures Scanned(code, i, st).Err?
    decreases |code| - i
  {
    ScannedUnfold(code, i, st);
    match Step(code, i, st)
    case Err(_) =>
    case Ok((j, next)) =>
      if j < |code| {
        ScannedTrailing(code, j, next);
      } else {
        LastStepLeavesNoOperand(code, i, st);
        FinishBare(next);
        ScannedEnd(code, next);
      }
  }

  /** A step that ends the line on an operator leaves neither an entity nor an operand behind. */
  lemma LastStepLeavesNoOperand(code: string, i: nat, st: ScanState)
    requires i < |code| && Consistent(st) && Operator(code[|code| - 1]) != OperatorInvalid
    requires Step(code, i, st).Ok? && Step(code, i, st).value.0 == |code|
    ensures Step(code, i, st).value.1.ent.None?
    ensures Step(code, i, st).value.1.buf == "" || Step(code, i, st).value.1.buf == "-"
  {
  }

  /** Nothing, or a bare sign, is no operand for the end of the line. */
  lemma FinishBare(st: ScanState)
    requires Consistent(st) && st.ent.None? && (st.buf == "" || st.buf == "-")
    ensures Finish(st).Err?
  {
    ParsedSingleValue("");
    assert !OperandValid("-") && !LiteralValid("-");
  }

  /**
   * Wherever a '(' is read, pending text other than nothing or a sign, or a
   * group result already pending, makes the line a SyntaxError.
   */
  lemma GroupRefusedInScan(code: string, i: nat, st: ScanState)
    requires i < |code| && code[i] == '(' && Consistent(st)
    requires (st.buf != "" && st.buf != "-") || st.ent.Some?
    ensures Scanned(code, i, st) == Err(SyntaxError)
  {
    GroupRefused(code, i, st.ent, st.buf);
    StepGroup(code, i, st);
    ScannedUnfold(code, i, st);
  }

  /** Plain text right before a group is neither empty nor a sign: "a(3)" and "2(3)" are syntax errors. */
  lemma TextBeforeGroupFails(x: string, rest: string)
    requires AllPlain(x) && x != ""
    ensures Parsed(x + "(" + rest) == Err(SyntaxError)
  {
    var code := x + "(" + rest;
    assert code[..|x|] == x && code[|x|] == '(';
    PlainStart(code, x);
    assert x != "-" by { assert Plain(x[0]); }
    GroupRefused(code, |x|, None, x);
    StepGroup(code, |x|, Buffered(x));
    ScannedUnfold(code, |x|, Buffered(x));
  }

  /** A group right after a group, as in "(2)(3)", is a syntax error. */
  lemma GroupAfterGroupFails(x: string, rest: string)
    requires AllPlain(x)
    ensures Parsed("(" + x + ")(" + rest) == Err(SyntaxError)
  {
    var code := "(" + x + ")(" + rest;
    var j := |x| + 1;
    assert code[0] == '(' && code[j] == ')' && code[j + 1] == '(';
    assert code[1..j] == x;
    ParsedUnfold(code);
    FindClosePlain(code, 1, j);
    ParsedErrorKind(x);
    GroupInner(code, 0, j, "");
    StepGroup(code, 0, Start());
    ScannedUnfold(code, 0, Start());
    if Parsed(x).Ok? {
      var st := Start().(ent := Some(Parenthesis(Parsed(x).value, false)), buf := "");
      GroupRefused(code, j + 1, st.ent, "");
      StepGroup(code, j + 1, st);
      ScannedUnfold(code, j + 1, st);
    }
  }

  // ---------------------------------------------------------------- precedence and associativity on whole lines

  /** A digit alone is that number, unsigned. */
  lemma DigitValue(d: char)
    requires '0' <= d <= '9'
    ensures AllPlain([d]) && GetEntityFrom([d]) == Ok(Literal([d], false))
  {
    assert DigitRun([d]) == 1 by { assert [d][1..] == ""; }
    assert !OperandValid([d]) && LiteralValid([d]);
  }

  /** A letter alone is that symbol, unsigned. */
  lemma LetterValue(c: char)
    requires 'a' <= c <= 'z'
    ensures AllPlain([c]) && GetEntityFrom([c]) == Ok(Operand([c], false))
  {
    assert [c][1..] == "";
    assert OperandValid([c]);
  }

  /** "2+3*4": the product binds tighter and hangs on the right of the sum. */
  lemma SumOfProduct()
    ensures Parsed("2+3*4")
         == Ok(Compound(ArithmeticAdd, Some(Literal("2", false)),
                        Some(Compound(ArithmeticMul, Some(Literal("3", false)), Some(Literal("4", false))))))
  {
    DigitValue('2'); DigitValue('3'); DigitValue('4');
    assert "2+3*4" == "2" + ['+'] + "3" + ['*'] + "4";
    TernaryLine("2", '+', "3", '*', "4", Literal("2", false), Literal("3", false), Literal("4", false));
  }

  /** "2*3+4": the product is complete when the sum arrives and becomes its left operand. */
  lemma ProductThenSum()
    ensures Parsed("2*3+4")
         == Ok(Compound(ArithmeticAdd, Some(Compound(ArithmeticMul, Some(Literal("2", false)), Some(Literal("3", false)))),
                        Some(Literal("4", false))))
  {
    DigitValue('2'); DigitValue('3'); DigitValue('4');
    assert "2*3+4" == "2" + ['*'] + "3" + ['+'] + "4";
    TernaryLine("2", '*', "3", '+', "4", Literal("2", false), Literal("3", false), Literal("4", false));
  }

  /** "1-2-3" groups to the left: (1-2)-3. */
  lemma DifferenceChain()
    ensures Parsed("1-2-3")
         == Ok(Compound(ArithmeticSub, Some(Compound(ArithmeticSub, Some(Literal("1", false)), Some(Literal("2", false)))),
                        Some(Literal("3", false))))
  {
    DigitValue('1'); DigitValue('2'); DigitValue('3');
    assert "1-2-3" == "1" + ['-'] + "2" + ['-'] + "3";
    TernaryLine("1", '-', "2", '-', "3", Literal("1", false), Literal("2", false), Literal("3", false));
  }

  /** "2^3^2" groups to the right: 2^(3^2). */
  lemma PowerChain()
    ensures Parsed("2^3^2")
         == Ok(Compound(ArithmeticPow, Some(Literal("2", false)),
                        Some(Compound(ArithmeticPow, Some(Literal("3", false)), Some(Literal("2", false))))))
  {
    DigitValue('2'); DigitValue('3');
    assert "2^3^2" == "2" + ['^'] + "3" + ['^'] + "2";
    TernaryLine("2", '^', "3", '^', "2", Literal("2", false), Literal("3", false), Literal("2", false));
  }

  /** "a=b=5" groups to the right: a=(b=5). */
  lemma AssignmentChain()
    ensures Parsed("a=b=5")
         == Ok(Compound(OperatorSet, Some(Operand("a", false)),
                        Some(Compound(OperatorSet, Some(Operand("b", false)), Some(Literal("5", false))))))
  {
    LetterValue('a'); LetterValue('b'); DigitValue('5');
    assert "a=b=5" == "a" + ['='] + "b" + ['='] + "5";
    TernaryLine("a", '=', "b", '=', "5", Operand("a", false), Operand("b", false), Literal("5", false));
  }
}

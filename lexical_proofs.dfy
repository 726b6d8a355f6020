/**
 * What the one-pass parser guarantees: every failure is a syntax error,
 * a successful parse has balanced parentheses, its tree has both children
 * and a binary operator at every compound node and respects precedence and
 * associativity, the splices keep the left-to-right reading, and a tree
 * with those properties is the only one with its reading.
 */
module LexicalProofs {
  import opened Errors
  import opened Tiered
  import opened Names
  import opened Entities
  import opened SingleValues
  import opened Lexical

  // ---------------------------------------------------------------- error kind

  /** Every error the parser raises is a SyntaxError. */
  lemma {:induction false} ParsedErrorKind(code: string)
    ensures Parsed(code).Err? ==> Parsed(code).error == SyntaxError
    decreases |code|, 1, 0
  {
    ScannedErrorKind(code, 0, Start());
  }

  lemma {:induction false} ScannedErrorKind(code: string, i: nat, st: ScanState)
    requires i <= |code| && Consistent(st)
    ensures Scanned(code, i, st).Err? ==> Scanned(code, i, st).error == SyntaxError
    decreases |code|, 0, |code| - i
  {
    if i < |code| {
      if code[i] == '(' {
        match FindClose(code, i + 1, 1)
        case None =>
        case Some(k) => ParsedErrorKind(code[i + 1..k]);
      }
      var r := Step(code, i, st);
      if r.Err? {
        if code[i] == '(' {
          var g := GroupOf(code, i, st.ent, st.buf);
          assert g.Err?;
          assert g.error == SyntaxError;
        } else if code[i] == ')' {
        } else {
          assert Operator(code[i]) != OperatorInvalid;
          assert Pending(st).Err?;
        }
        assert r.error == SyntaxError;
      } else {
        ScannedErrorKind(code, r.value.0, r.value.1);
      }
    }
  }

  // ---------------------------------------------------------------- balance

  /** A line that parses has as many '(' as ')'. */
  lemma {:induction false} ParsedBalanced(code: string)
    requires Parsed(code).Ok?
    ensures Count('(', code) == Count(')', code)
    decreases |code|, 1, 0
  {
    ScannedBalanced(code, 0, Start());
    assert code[0..] == code;
  }

  lemma {:induction false} ScannedBalanced(code: string, i: nat, st: ScanState)
    requires i <= |code| && Consistent(st)
    requires Scanned(code, i, st).Ok?
    ensures Count('(', code[i..]) == Count(')', code[i..])
    decreases |code|, 0, |code| - i
  {
    if i < |code| {
      var (j, next) := Step(code, i, st).value;
      ScannedBalanced(code, j, next);
      if code[i] == '(' {
        assert GroupOf(code, i, st.ent, st.buf).Ok?;
        var k := FindClose(code, i + 1, 1).value;
        ParsedBalanced(code[i + 1..k]);
        assert code[i..] == [code[i]] + code[i + 1..k] + [code[k]] + code[k + 1..];
        CountConcat('(', [code[i]] + code[i + 1..k] + [code[k]], code[k + 1..]);
        CountConcat(')', [code[i]] + code[i + 1..k] + [code[k]], code[k + 1..]);
        CountConcat('(', [code[i]] + code[i + 1..k], [code[k]]);
        CountConcat(')', [code[i]] + code[i + 1..k], [code[k]]);
        CountConcat('(', [code[i]], code[i + 1..k]);
        CountConcat(')', [code[i]], code[i + 1..k]);
      } else {
        assert code[i..] == [code[i]] + code[i + 1..];
        CountConcat('(', [code[i]], code[i + 1..]);
        CountConcat(')', [code[i]], code[i + 1..]);
      }
    }
  }

  // ---------------------------------------------------------------- well-formed results

  /** A leaf the parser can produce: a valid symbol or number as written, or a well-formed group. */
  predicate AtomOk(a: Entity)
    decreases a, 0
  {
    match a
    case Operand(_, _) => OperandValid(GetValue(a))
    case Literal(_, _) => LiteralValid(GetValue(a))
    case Parenthesis(c, _) => WellFormed(c)
    case _ => false
  }

  /** Every leaf of the tree, down to the groups, is one the parser can produce. */
  predicate AtomsOk(e: Entity)
    decreases e, 1
  {
    match e
    case Compound(_, l, r) => (l.Some? ==> AtomsOk(l.value)) && (r.Some? ==> AtomsOk(r.value))
    case _ => AtomOk(e)
  }

  /** The trees a successful parse yields: ordered at every level, with valid leaves. */
  predicate WellFormed(e: Entity)
    decreases e, 2
  {
    Ordered(e) && AtomsOk(e)
  }

  /** Every atom of a reading is one the parser can produce. */
  predicate AtomsAllOk(ts: seq<Token>) {
    forall k :: 0 <= k < |ts| && ts[k].Atom? ==> AtomOk(ts[k].atom)
  }

  /** AtomsOk is a property of the in-order reading alone. */
  lemma {:induction false} AtomsOkReading(e: Entity)
    ensures AtomsOk(e) <==> AtomsAllOk(Flatten(e))
  {
    match e
    case Compound(op, l, r) =>
      var ls := if l.Some? then Flatten(l.value) else [];
      var rs := if r.Some? then Flatten(r.value) else [];
      if l.Some? { AtomsOkReading(l.value); }
      if r.Some? { AtomsOkReading(r.value); }
      AtomsAllOkConcat(ls + [Op(op)], rs);
      AtomsAllOkConcat(ls, [Op(op)]);
    case _ =>
      assert Flatten(e)[0] == Atom(e);
  }

  lemma AtomsAllOkConcat(a: seq<Token>, b: seq<Token>)
    ensures AtomsAllOk(a + b) <==> AtomsAllOk(a) && AtomsAllOk(b)
  {
    if AtomsAllOk(a) && AtomsAllOk(b) {
      forall k | 0 <= k < |a + b| && (a + b)[k].Atom?
        ensures AtomOk((a + b)[k].atom)
      {
        if k >= |a| {
          assert (a + b)[k] == b[k - |a|];
        }
      }
    }
    if AtomsAllOk(a + b) {
      forall k | 0 <= k < |b| && b[k].Atom?
        ensures AtomOk(b[k].atom)
      {
        assert (a + b)[k + |a|] == b[k];
      }
      forall k | 0 <= k < |a| && a[k].Atom?
        ensures AtomOk(a[k].atom)
      {
        assert (a + b)[k] == a[k];
      }
    }
  }

  /** The scan states reachable from the start: the shape of TMP and HEAD between operators. */
  predicate Good(st: ScanState) {
    && Consistent(st)
    && (st.ent.Some? ==> WellFormed(st.ent.value))
    && match st.head
       case Some(h) =>
         WellFormed(h) && IsBinary(st.tmp.op) && st.tmp.left.None? && st.tmp.right.None?
       case None =>
         if st.tmp.op == OperatorInvalid then st.tmp.left.None? && st.tmp.right.None?
         else IsBinary(st.tmp.op) && st.tmp.left.Some? && IsAtom(st.tmp.left.value)
              && WellFormed(st.tmp.left.value) && st.tmp.right.None?
  }

  /** The operand completed by an operator or the end of input is a well-formed leaf. */
  lemma PendingWellFormed(st: ScanState)
    requires Good(st) && Pending(st).Ok?
    ensures IsAtom(Pending(st).value) && WellFormed(Pending(st).value)
  {
  }

  /** The tree so far, in reading order, followed by the operator waiting for its right operand. */
  function Reading(st: ScanState): seq<Token>
    requires Good(st)
  {
    match st.head
    case Some(h) => Flatten(h) + [Op(st.tmp.op)]
    case None => if st.tmp.op == OperatorInvalid then [] else [Atom(st.tmp.left.value), Op(st.tmp.op)]
  }

  /**
   * Inserting a completed node into a well-formed tree gives a well-formed
   * tree that reads as the old tree followed by the node.
   */
  lemma InsertWellFormed(h: Entity, node: Entity)
    requires h.Compound? && WellFormed(h)
    requires node.Compound? && Insertable(node, Associative(node.op) == AssocRight) && WellFormed(node.right.value)
    ensures SpineComplete(h)
    ensures WellFormed(Insert(Some(h), node))
    ensures Flatten(Insert(Some(h), node)) == Flatten(h) + Flatten(node)
  {
    OrderedSpineComplete(h);
    var r := Insert(Some(h), node);
    if Associative(node.op) == AssocRight {
      RightAssociateOrdered(h, node);
      RightAssociateFlatten(h, node);
    } else {
      LeftAssociateOrdered(h, node);
      LeftAssociateFlatten(h, node);
    }
    AtomsOkReading(h);
    AtomsOkReading(node);
    AtomsAllOkConcat(Flatten(h), Flatten(node));
    AtomsOkReading(r);
  }

  /**
   * An operator after an operand keeps the state reachable and extends the
   * reading by exactly that operand and that operator.
   */
  lemma ShiftReading(st: ScanState, t: OperatorType, ent: Entity)
    requires Good(st) && IsAtom(ent) && WellFormed(ent) && IsBinary(t)
    ensures Good(Shift(st, t, ent))
    ensures Reading(Shift(st, t, ent)) == Reading(st) + [Atom(ent), Op(t)]
  {
    if st.tmp.op == OperatorInvalid {
    } else if st.head.None? {
      ShiftSecond(st, t, ent);
    } else {
      ShiftLater(st, t, ent);
    }
  }

  /** The second operator of the line: the first node becomes the tree. */
  lemma ShiftSecond(st: ScanState, t: OperatorType, ent: Entity)
    requires Good(st) && IsAtom(ent) && WellFormed(ent) && IsBinary(t)
    requires st.head.None? && st.tmp.op != OperatorInvalid
    ensures Good(Shift(st, t, ent))
    ensures Reading(Shift(st, t, ent)) == Reading(st) + [Atom(ent), Op(t)]
  {
    var node := st.tmp.(right := Some(ent));
    assert Shift(st, t, ent).head == Some(node);
    assert Ordered(node) && AtomsOk(node);
    assert Flatten(node) == [Atom(st.tmp.left.value), Op(st.tmp.op), Atom(ent)];
  }

  /** Any later operator: the completed node is inserted into the tree. */
  lemma ShiftLater(st: ScanState, t: OperatorType, ent: Entity)
    requires Good(st) && IsAtom(ent) && WellFormed(ent) && IsBinary(t)
    requires st.head.Some?
    ensures Good(Shift(st, t, ent))
    ensures Reading(Shift(st, t, ent)) == Reading(st) + [Atom(ent), Op(t)]
  {
    var h := st.head.value;
    var node := st.tmp.(right := Some(ent));
    InsertWellFormed(h, node);
    var r := Insert(Some(h), node);
    assert Shift(st, t, ent) == ScanState(Some(r), Compound(t, None, None), None, "");
    FlattenHalfNode(st.tmp.op, ent);
    RegroupTokens(Flatten(h), Op(st.tmp.op), Atom(ent), Op(t));
  }

  /** A node with only a right operand reads as its operator, then that operand. */
  lemma FlattenHalfNode(op: OperatorType, ent: Entity)
    requires !ent.Compound?
    ensures Flatten(Compound(op, None, Some(ent))) == [Op(op), Atom(ent)]
  {
  }

  lemma RegroupTokens(a: seq<Token>, x: Token, y: Token, z: Token)
    ensures a + [x, y] + [z] == a + [x] + [y, z]
  {
  }

  /**
   * The end of input: the result is well formed, and its reading is the
   * state's reading followed by the last operand.
   */
  lemma FinishReading(st: ScanState)
    requires Good(st) && Finish(st).Ok?
    ensures Pending(st).Ok?
    ensures WellFormed(Finish(st).value)
    ensures Flatten(Finish(st).value) == Reading(st) + [Atom(Pending(st).value)]
  {
    if st.head.None? && st.tmp.op == OperatorInvalid {
      FinishSingleValue(st);
      PendingWellFormed(st);
    } else {
      PendingWellFormed(st);
      var ent := Pending(st).value;
      var node := st.tmp.(right := Some(ent));
      if st.head.None? {
        assert Finish(st).value == node;
        assert Ordered(node) && AtomsOk(node);
      } else {
        var h := st.head.value;
        assert Finish(st).value == Insert(Some(h), node);
        InsertWellFormed(h, node);
        FlattenHalfNode(st.tmp.op, ent);
        assert Flatten(h) + [Op(st.tmp.op), Atom(ent)] == Flatten(h) + [Op(st.tmp.op)] + [Atom(ent)];
      }
    }
  }

  /** With no operator read, the end of input makes of the buffer exactly what GetEntityFrom would. */
  lemma FinishSingleValue(st: ScanState)
    requires Consistent(st) && st.head.None? && GetOperator(st.tmp) == OperatorInvalid
    ensures Finish(st) == Pending(st)
  {
  }

  /** One iteration of the loop keeps the state reachable. */
  lemma {:induction false} StepGood(code: string, i: nat, st: ScanState)
    requires i < |code| && Good(st) && Step(code, i, st).Ok?
    ensures Good(Step(code, i, st).value.1)
    decreases |code|, 0, 0
  {
    var c := code[i];
    if c == '(' {
      var k := FindClose(code, i + 1, 1).value;
      ParsedWellFormed(code[i + 1..k]);
    } else if Operator(c) != OperatorInvalid && !(Operator(c) == ArithmeticSub && st.buf == "" && st.ent.None?) {
      PendingWellFormed(st);
      ShiftReading(st, Operator(c), Pending(st).value);
    }
  }

  lemma {:induction false} ScannedWellFormed(code: string, i: nat, st: ScanState)
    requires i <= |code| && Good(st) && Scanned(code, i, st).Ok?
    ensures WellFormed(Scanned(code, i, st).value)
    decreases |code|, 1, |code| - i
  {
    if i == |code| {
      FinishReading(st);
    } else {
      StepGood(code, i, st);
      var (j, next) := Step(code, i, st).value;
      ScannedWellFormed(code, j, next);
    }
  }

  /**
   * A successful parse yields a well-formed tree: every compound node has a
   * left child, a right child and one of the seven binary operators, every
   * child fits its parent's precedence and associativity, and the leaves
   * are valid symbols, valid numbers or well-formed groups.
   */
  lemma {:induction false} ParsedWellFormed(code: string)
    requires Parsed(code).Ok?
    ensures WellFormed(Parsed(code).value)
    decreases |code|, 2, 0
  {
    ScannedWellFormed(code, 0, Start());
  }

  // ---------------------------------------------------------------- uniqueness

  /** Every operator of the reading binds no looser than p. */
  predicate OpsAtMost(ts: seq<Token>, p: int) {
    forall k :: 0 <= k < |ts| && ts[k].Op? ==> Precedence(ts[k].op) <= p
  }

  lemma OpsAtMostConcat(a: seq<Token>, b: seq<Token>, p: int)
    requires OpsAtMost(a, p) && OpsAtMost(b, p)
    ensures OpsAtMost(a + b, p)
  {
    forall k | 0 <= k < |a + b| && (a + b)[k].Op?
      ensures Precedence((a + b)[k].op) <= p
    {
      if k >= |a| {
        assert (a + b)[k] == b[k - |a|];
      }
    }
  }

  /** In an ordered tree no operator binds looser than the root. */
  lemma {:induction false} OrderedOpsAtMost(e: Entity, p: int)
    requires Ordered(e) && (e.Compound? ==> Precedence(e.op) <= p)
    ensures OpsAtMost(Flatten(e), p)
  {
    match e
    case Compound(op, l, r) =>
      OrderedOpsAtMost(l.value, p);
      OrderedOpsAtMost(r.value, p);
      OpsAtMostConcat(Flatten(l.value), [Op(op)], p);
      OpsAtMostConcat(Flatten(l.value) + [Op(op)], Flatten(r.value), p);
    case _ =>
  }

  /** Below a left-associative root, every operator after it binds strictly tighter. */
  lemma OpsAfterLeftRoot(e: Entity)
    requires Ordered(e) && e.Compound? && Associative(e.op) == AssocLeft
    ensures forall k :: |Flatten(e.left.value)| < k < |Flatten(e)| && Flatten(e)[k].Op?
              ==> Precedence(Flatten(e)[k].op) < Precedence(e.op)
  {
    var n := |Flatten(e.left.value)|;
    var rs := Flatten(e.right.value);
    assert Flatten(e) == Flatten(e.left.value) + [Op(e.op)] + rs;
    OrderedOpsAtMost(e.right.value, Precedence(e.op) - 1);
    forall k | n < k < |Flatten(e)| && Flatten(e)[k].Op?
      ensures Precedence(Flatten(e)[k].op) < Precedence(e.op)
    {
      assert Flatten(e)[k] == rs[k - n - 1];
    }
  }

  /** Below a right-associative root, every operator before it binds strictly tighter. */
  lemma OpsBeforeRightRoot(e: Entity)
    requires Ordered(e) && e.Compound? && Associative(e.op) == AssocRight
    ensures forall k :: 0 <= k < |Flatten(e.left.value)| && Flatten(e)[k].Op?
              ==> Precedence(Flatten(e)[k].op) < Precedence(e.op)
  {
    var ls := Flatten(e.left.value);
    assert Flatten(e) == ls + [Op(e.op)] + Flatten(e.right.value);
    OrderedOpsAtMost(e.left.value, Precedence(e.op) - 1);
    forall k | 0 <= k < |ls| && Flatten(e)[k].Op?
      ensures Precedence(Flatten(e)[k].op) < Precedence(e.op)
    {
      assert Flatten(e)[k] == ls[k];
    }
  }

  /** The root operator of a compound tree sits in its reading right after the left subtree. */
  lemma RootPosition(e: Entity)
    requires e.Compound? && e.left.Some? && e.right.Some?
    ensures var n := |Flatten(e.left.value)|;
            n < |Flatten(e)| && Flatten(e)[n] == Op(e.op)
            && Flatten(e)[..n] == Flatten(e.left.value)
            && Flatten(e)[n + 1..] == Flatten(e.right.value)
  {
    var ls, rs := Flatten(e.left.value), Flatten(e.right.value);
    assert Flatten(e) == ls + [Op(e.op)] + rs;
    assert (ls + [Op(e.op)] + rs)[..|ls|] == ls;
    assert (ls + [Op(e.op)] + rs)[|ls| + 1..] == rs;
  }

  /**
   * Two trees that respect precedence and associativity and read the same
   * are the same tree: the reading determines the root (the last operator
   * of loosest binding when it groups to the left, the first when it
   * groups to the right), and so the whole tree.
   */
  lemma {:induction false} OrderedUnique(a: Entity, b: Entity)
    requires Ordered(a) && Ordered(b) && Flatten(a) == Flatten(b)
    ensures a == b
    decreases a
  {
    if !a.Compound? {
      if b.Compound? {
        RootPosition(b);
      }
    } else if !b.Compound? {
      RootPosition(a);
    } else {
      var f := Flatten(a);
      RootPosition(a);
      RootPosition(b);
      var ka, kb := |Flatten(a.left.value)|, |Flatten(b.left.value)|;
      OrderedOpsAtMost(a, Precedence(a.op));
      OrderedOpsAtMost(b, Precedence(b.op));
      assert f[kb] == Op(b.op) && f[ka] == Op(a.op);
      assert Precedence(a.op) == Precedence(b.op);
      SamePrecedenceSameAssociativity(a.op, b.op);
      if Associative(a.op) == AssocLeft {
        OpsAfterLeftRoot(a);
        OpsAfterLeftRoot(b);
      } else {
        OpsBeforeRightRoot(a);
        OpsBeforeRightRoot(b);
      }
      assert ka == kb;
      OrderedUnique(a.left.value, b.left.value);
      OrderedUnique(a.right.value, b.right.value);
    }
  }
}

/**
 * ASTInterpreter: walks a parsed tree against a table of symbols, binding a
 * symbol on assignment, and keeps named directives (stored trees, or an
 * empty entry) that can be called later against the same table.
 *
 * The number type is a parameter V with uninterpreted operations; Resolve
 * evaluates the left child of a binary node before the right one.
 */
module Interpreter {
  import opened Errors
  import opened Tiered
  import opened Names
  import opened Entities
  import opened SingleValues
  import opened Lexical
  import opened LexicalProofs
  import opened LexicalCases

  /**
   * The number type and its operations: the six binary operators, `neg`
   * for both `r *= -1` and unary minus, `zero` for the value GetSymbol
   * returns when it ignores a missing symbol, and `literal` for reading a
   * number out of its text, which can fail.
   */
  datatype Arithmetic<!V> = Arithmetic(
    add: (V, V) -> V, sub: (V, V) -> V, mul: (V, V) -> V,
    div: (V, V) -> V, fmod: (V, V) -> V, pow: (V, V) -> V,
    neg: V -> V, zero: V, literal: string -> Option<V>)

  /** What evaluating a tree yields: its value or the exception, and the symbol table after it. */
  datatype Eval<V> = Eval(result: Result<V>, symbols: map<string, V>)

  /** The number of nodes Resolve can visit, for termination. */
  function Size(e: Entity): (n: nat)
    ensures n >= 1
  {
    match e
    case Parenthesis(c, _) => 1 + Size(c)
    case Compound(_, l, r) => 1 + (if l.Some? then Size(l.value) else 0) + (if r.Some? then Size(r.value) else 0)
    case _ => 1
  }

  function OptSize(e: Option<Entity>): nat {
    if e.Some? then Size(e.value) else 0
  }

  /** The six operators ResolveCompound computes with. */
  predicate IsArithmetic(t: OperatorType) {
    t == ArithmeticAdd || t == ArithmeticSub || t == ArithmeticMul
    || t == ArithmeticDiv || t == ArithmeticMod || t == ArithmeticPow
  }

  function Apply<V>(ar: Arithmetic<V>, t: OperatorType, a: V, b: V): V
    requires IsArithmetic(t)
  {
    match t
    case ArithmeticAdd => ar.add(a, b)
    case ArithmeticSub => ar.sub(a, b)
    case ArithmeticMul => ar.mul(a, b)
    case ArithmeticDiv => ar.div(a, b)
    case ArithmeticMod => ar.fmod(a, b)
    case ArithmeticPow => ar.pow(a, b)
  }

  /** A value negated when the flag is set; an error passes through. */
  function Signed<V>(ar: Arithmetic<V>, r: Result<V>, negative: bool): Result<V> {
    if r.Ok? && negative then Ok(ar.neg(r.value)) else r
  }

  /** GetSymbol: the stored value, or zero when a missing symbol is ignored. */
  function Lookup<V>(ar: Arithmetic<V>, syms: map<string, V>, k: string, ignoreError: bool): Result<V> {
    if k in syms then Ok(syms[k]) else if ignoreError then Ok(ar.zero) else Err(NotFound)
  }

  /** The result of a call that returns nothing: its error, if it raised one. */
  function OutcomeOf<V>(r: Result<V>): Outcome {
    if r.Ok? then Pass else Fail(r.error)
  }

  // ---------------------------------------------------------------- what Resolve computes

  /**
   * Resolve: a missing node raises ValueError, the four resolvable kinds are
   * dispatched, every other kind raises TypeError. The symbol table is the
   * one in force when the exception, if any, was raised.
   */
  function Evaluated<V>(ar: Arithmetic<V>, e: Option<Entity>, syms: map<string, V>): Eval<V>
    decreases OptSize(e), 1
  {
    if e.None? then Eval(Err(ValueError), syms)
    else
      var x := e.value;
      if x.Parenthesis? then EvaluatedParenthesis(ar, x, syms)
      else if x.Compound? then EvaluatedCompound(ar, x, syms)
      else if x.Operand? then Eval(EvaluatedOperand(ar, x, syms), syms)
      else if x.Literal? then Eval(EvaluatedLiteral(ar, x), syms)
      else Eval(Err(TypeError), syms)
  }

  /** ResolveParenthesis: the child's value, negated when the group is. */
  function EvaluatedParenthesis<V>(ar: Arithmetic<V>, x: Entity, syms: map<string, V>): Eval<V>
    requires x.Parenthesis?
    decreases Size(x), 0
  {
    var v := Evaluated(ar, Some(x.child), syms);
    v.(result := Signed(ar, v.result, x.negative))
  }

  /**
   * ResolveCompound: an arithmetic node evaluates left, then right, then
   * applies its operator; `=` needs an operand on its left, evaluates the
   * right, and binds the operand's GetString (which is "(-a)" for a negated
   * one) to the value; any other operator raises InvalidOperation.
   */
  function EvaluatedCompound<V>(ar: Arithmetic<V>, x: Entity, syms: map<string, V>): Eval<V>
    requires x.Compound?
    decreases Size(x), 0
  {
    if IsArithmetic(x.op) then
      var a := Evaluated(ar, x.left, syms);
      if a.result.Err? then a
      else
        var b := Evaluated(ar, x.right, a.symbols);
        if b.result.Err? then b
        else Eval(Ok(Apply(ar, x.op, a.result.value, b.result.value)), b.symbols)
    else if x.op == OperatorSet then
      if x.left.Some? && x.left.value.Operand? then
        var b := Evaluated(ar, x.right, syms);
        if b.result.Err? then b
        else
          var name := GetString(x.left.value).value;
          if OperandValid(name) then Eval(b.result, b.symbols[name := b.result.value])
          else Eval(Err(ValueError), b.symbols)
      else Eval(Err(InvalidOperation), syms)
    else Eval(Err(InvalidOperation), syms)
  }

  /** ResolveOperand: the stored value of the unsigned name, negated when the operand is. */
  function EvaluatedOperand<V>(ar: Arithmetic<V>, x: Entity, syms: map<string, V>): Result<V>
    requires x.Operand?
  {
    Signed(ar, Lookup(ar, syms, GetAbsValue(x), false), x.negative)
  }

  /** ResolveLiteral: the number read from the unsigned text, negated when the literal is. */
  function EvaluatedLiteral<V>(ar: Arithmetic<V>, x: Entity): Result<V>
    requires x.Literal?
  {
    match ar.literal(GetAbsValue(x))
    case None => Err(ValueError)
    case Some(v) => Signed(ar, Ok(v), x.negative)
  }

  // ---------------------------------------------------------------- the interpreter object

  class AstInterpreter<V> {
    const ar: Arithmetic<V>
    var symbols: map<string, V>
    var directives: map<string, Option<Entity>>

    constructor(ar: Arithmetic<V>)
      ensures this.ar == ar && symbols == map[] && directives == map[]
    {
      this.ar := ar;
      symbols := map[];
      directives := map[];
    }

    method Resolve(e: Option<Entity>) returns (r: Result<V>)
      modifies this
      ensures Eval(r, symbols) == Evaluated(ar, e, old(symbols))
      ensures directives == old(directives)
      decreases OptSize(e), 1
    {
      if e.None? {
        return Err(ValueError);
      }
      var x := e.value;
      match GetType(x)
      case ParenthesisEntity =>
        r := ResolveParenthesis(x);
      case CompoundEntity =>
        r := ResolveCompound(x);
      case OperandEntity =>
        r := ResolveOperand(x);
      case LiteralEntity =>
        r := ResolveLiteral(x);
      case _ =>
        r := Err(TypeError);
    }

    method ResolveParenthesis(x: Entity) returns (r: Result<V>)
      requires x.Parenthesis?
      modifies this
      ensures Eval(r, symbols) == EvaluatedParenthesis(ar, x, old(symbols))
      ensures directives == old(directives)
      decreases Size(x), 0
    {
      r := Resolve(Some(x.child));
      if r.Ok? && x.negative {
        r := Ok(ar.neg(r.value));
      }
    }

    method ResolveCompound(x: Entity) returns (r: Result<V>)
      requires x.Compound?
      modifies this
      ensures Eval(r, symbols) == EvaluatedCompound(ar, x, old(symbols))
      ensures directives == old(directives)
      decreases Size(x), 0
    {
      var left, right := x.left, x.right;
      if IsArithmetic(x.op) {
        var a := Resolve(left);
        if a.Err? {
          return a;
        }
        var b := Resolve(right);
        if b.Err? {
          return b;
        }
        r := Ok(Apply(ar, x.op, a.value, b.value));
      } else if x.op == OperatorSet {
        if left.Some? && GetType(left.value) == OperandEntity {
          r := Resolve(right);
          if r.Err? {
            return;
          }
          var name := GetString(left.value);
          var o := SetSymbol(name.value, r.value);
          if o.Fail? {
            r := Err(o.error);
          }
        } else {
          r := Err(InvalidOperation);
        }
      } else {
        r := Err(InvalidOperation);
      }
    }

    method ResolveOperand(x: Entity) returns (r: Result<V>)
      requires x.Operand?
      ensures r == EvaluatedOperand(ar, x, symbols)
    {
      r := GetSymbol(GetAbsValue(x), false);
      if r.Ok? && x.negative {
        r := Ok(ar.neg(r.value));
      }
    }

    method ResolveLiteral(x: Entity) returns (r: Result<V>)
      requires x.Literal?
      ensures r == EvaluatedLiteral(ar, x)
    {
      var v := ar.literal(GetAbsValue(x));
      if v.None? {
        return Err(ValueError);
      }
      r := Ok(if x.negative then ar.neg(v.value) else v.value);
    }

    /** SymbolExists: whether the name is bound. */
    method SymbolExists(k: string) returns (b: bool)
      ensures b <==> k in symbols
    {
      b := k in symbols;
    }

    /** SetSymbol: a valid operand name is bound (created or overwritten), any other raises ValueError. */
    method SetSymbol(k: string, v: V) returns (o: Outcome)
      modifies this
      ensures OperandValid(k) ==> o == Pass && symbols == old(symbols)[k := v]
      ensures !OperandValid(k) ==> o == Fail(ValueError) && symbols == old(symbols)
      ensures directives == old(directives)
    {
      if !OperandValid(k) {
        return Fail(ValueError);
      }
      symbols := symbols[k := v];
      o := Pass;
    }

    /** GetSymbol: the stored value; a missing one is zero when ignored and NotFound otherwise. */
    method GetSymbol(k: string, ignoreError: bool) returns (r: Result<V>)
      ensures k in symbols ==> r == Ok(symbols[k])
      ensures k !in symbols && ignoreError ==> r == Ok(ar.zero)
      ensures k !in symbols && !ignoreError ==> r == Err(NotFound)
    {
      var found := SymbolExists(k);
      if found {
        r := Ok(symbols[k]);
      } else if !ignoreError {
        r := Err(NotFound);
      } else {
        r := Ok(ar.zero);
      }
    }

    /** DirectiveExists: whether the name has an entry, empty or not. */
    method DirectiveExists(k: string) returns (b: bool)
      ensures b <==> k in directives
    {
      b := k in directives;
    }

    /**
     * SetDirective: a name that is not [A-Za-z_][A-Za-z0-9_]* raises
     * NotFound; an empty body stores an empty entry; any other body is
     * parsed first, so a failed parse leaves the old entry in place; a
     * successful one replaces it.
     */
    method SetDirective(k: string, v: string) returns (o: Outcome)
      modifies this
      ensures !DirectiveName(k) ==> o == Fail(NotFound) && directives == old(directives)
      ensures DirectiveName(k) && v == "" ==> o == Pass && directives == old(directives)[k := None]
      ensures DirectiveName(k) && v != "" && Parsed(v).Err? ==>
                o == Fail(Parsed(v).error) && directives == old(directives)
      ensures DirectiveName(k) && v != "" && Parsed(v).Ok? ==>
                o == Pass && directives == old(directives)[k := Some(Parsed(v).value)]
      ensures symbols == old(symbols)
    {
      if !DirectiveName(k) {
        return Fail(NotFound);
      }
      var p: Option<Entity> := None;
      if v != "" {
        var t := Parse(v);
        if t.Err? {
          return Fail(t.error);
        }
        p := Some(t.value);
      }
      directives := directives[k := p];
      o := Pass;
    }

    /**
     * CallDirective: an empty entry raises InvalidOperation; a missing one
     * raises NotFound, or does nothing when ignored; a stored tree is
     * resolved against the current symbols and its value dropped.
     */
    method CallDirective(k: string, ignoreError: bool) returns (o: Outcome)
      modifies this
      ensures k in old(directives) && old(directives)[k].None? ==>
                o == Fail(InvalidOperation) && symbols == old(symbols)
      ensures k in old(directives) && old(directives)[k].Some? ==>
                var ev := Evaluated(ar, old(directives)[k], old(symbols));
                o == OutcomeOf(ev.result) && symbols == ev.symbols
      ensures k !in old(directives) ==>
                o == (if ignoreError then Pass else Fail(NotFound)) && symbols == old(symbols)
      ensures directives == old(directives)
    {
      var found := DirectiveExists(k);
      if found {
        if directives[k].None? {
          return Fail(InvalidOperation);
        }
        var r := Resolve(directives[k]);
        o := OutcomeOf(r);
      } else if !ignoreError {
        o := Fail(NotFound);
      } else {
        o := Pass;
      }
    }
  }

  // ---------------------------------------------------------------- what evaluation may change

  /** Whether the tree holds an assignment anywhere, groups included. */
  predicate HasAssignment(e: Entity) {
    match e
    case Parenthesis(c, _) => HasAssignment(c)
    case Compound(op, l, r) =>
      op == OperatorSet || (l.Some? && HasAssignment(l.value)) || (r.Some? && HasAssignment(r.value))
    case _ => false
  }

  /** The names an assignment in the tree may bind: the operand on the left of each `=`. */
  function Targets(e: Entity): set<string> {
    match e
    case Parenthesis(c, _) => Targets(c)
    case Compound(op, l, r) =>
      (if op == OperatorSet && l.Some? && l.value.Operand? then {l.value.value} else {})
      + (if l.Some? then Targets(l.value) else {})
      + (if r.Some? then Targets(r.value) else {})
    case _ => {}
  }

  function OptTargets(e: Option<Entity>): set<string> {
    if e.Some? then Targets(e.value) else {}
  }

  /** The table after keeps every name of the one before, and differs from it only at the given names. */
  ghost predicate Extends<V>(before: map<string, V>, after: map<string, V>, names: set<string>) {
    before.Keys <= after.Keys
    && forall k :: k in after && k !in names ==> k in before && after[k] == before[k]
  }

  lemma ExtendsTrans<V>(s1: map<string, V>, s2: map<string, V>, s3: map<string, V>, n1: set<string>, n2: set<string>, n: set<string>)
    requires Extends(s1, s2, n1) && Extends(s2, s3, n2) && n1 + n2 <= n
    ensures Extends(s1, s3, n)
  {
  }

  /** A tree without `=` leaves the symbol table as it was, whatever it raises. */
  lemma {:induction false} NoAssignmentKeepsSymbols<V>(ar: Arithmetic<V>, e: Option<Entity>, syms: map<string, V>)
    requires e.Some? ==> !HasAssignment(e.value)
    ensures Evaluated(ar, e, syms).symbols == syms
    decreases OptSize(e)
  {
    if e.Some? {
      var x := e.value;
      if x.Parenthesis? {
        NoAssignmentKeepsSymbols(ar, Some(x.child), syms);
      } else if x.Compound? {
        NoAssignmentKeepsSymbols(ar, x.left, syms);
        NoAssignmentKeepsSymbols(ar, x.right, syms);
      }
    }
  }

  /** Evaluation only ever binds the names on the left of the tree's `=` nodes, and never unbinds one. */
  lemma {:induction false} OnlyTargetsChange<V>(ar: Arithmetic<V>, e: Option<Entity>, syms: map<string, V>)
    ensures Extends(syms, Evaluated(ar, e, syms).symbols, OptTargets(e))
    decreases OptSize(e), 1
  {
    if e.Some? {
      var x := e.value;
      if x.Parenthesis? {
        OnlyTargetsChange(ar, Some(x.child), syms);
        assert Evaluated(ar, e, syms).symbols == Evaluated(ar, Some(x.child), syms).symbols;
      } else if x.Compound? {
        OnlyTargetsChangeCompound(ar, x, syms);
      }
    }
  }

  /** The compound case of OnlyTargetsChange, one operator kind at a time. */
  lemma {:induction false} OnlyTargetsChangeCompound<V>(ar: Arithmetic<V>, x: Entity, syms: map<string, V>)
    requires x.Compound?
    ensures Extends(syms, EvaluatedCompound(ar, x, syms).symbols, Targets(x))
    decreases Size(x), 0
  {
    var ev := EvaluatedCompound(ar, x, syms);
    if IsArithmetic(x.op) {
      OnlyTargetsChange(ar, x.left, syms);
      var a := Evaluated(ar, x.left, syms);
      if a.result.Ok? {
        OnlyTargetsChange(ar, x.right, a.symbols);
        ExtendsTrans(syms, a.symbols, Evaluated(ar, x.right, a.symbols).symbols,
                     OptTargets(x.left), OptTargets(x.right), Targets(x));
      }
    } else if x.op == OperatorSet && x.left.Some? && x.left.value.Operand? {
      OnlyTargetsChange(ar, x.right, syms);
      var b := Evaluated(ar, x.right, syms);
      if b.result.Ok? {
        var name := GetString(x.left.value).value;
        if x.left.value.negative {
          NegatedStringIsNoName(x.left.value);
        } else {
          assert name == x.left.value.value;
        }
      }
    }
  }

  // ---------------------------------------------------------------- parsed trees

  /** The unsigned names of the operands the tree reads, groups included. */
  function Operands(e: Entity): set<string> {
    match e
    case Operand(v, _) => {v}
    case Parenthesis(c, _) => Operands(c)
    case Compound(_, l, r) => (if l.Some? then Operands(l.value) else {}) + (if r.Some? then Operands(r.value) else {})
    case _ => {}
  }

  /** The unsigned texts of the literals in the tree, groups included. */
  function Numbers(e: Entity): set<string> {
    match e
    case Literal(v, _) => {v}
    case Parenthesis(c, _) => Numbers(c)
    case Compound(_, l, r) => (if l.Some? then Numbers(l.value) else {}) + (if r.Some? then Numbers(r.value) else {})
    case _ => {}
  }

  /** Every number of the tree can be read. */
  predicate Readable<V>(ar: Arithmetic<V>, e: Entity) {
    forall s :: s in Numbers(e) ==> ar.literal(s).Some?
  }

  /** A parser's tree never raises TypeError: every node it holds is one Resolve can dispatch. */
  lemma {:induction false} WellFormedHasNoTypeError<V>(ar: Arithmetic<V>, e: Entity, syms: map<string, V>)
    requires WellFormed(e)
    ensures Evaluated(ar, Some(e), syms).result != Err(TypeError)
    decreases Size(e)
  {
    if e.Parenthesis? {
      assert AtomOk(e);
      WellFormedHasNoTypeError(ar, e.child, syms);
    } else if e.Compound? {
      var l, r := e.left.value, e.right.value;
      assert WellFormed(l) && WellFormed(r);
      assert Evaluated(ar, Some(e), syms) == EvaluatedCompound(ar, e, syms);
      if IsArithmetic(e.op) {
        WellFormedHasNoTypeError(ar, l, syms);
        var a := Evaluated(ar, Some(l), syms);
        if a.result.Ok? {
          WellFormedHasNoTypeError(ar, r, a.symbols);
        }
      } else if l.Operand? {
        WellFormedHasNoTypeError(ar, r, syms);
      }
    } else {
      assert AtomsOk(e) && AtomOk(e);
    }
  }

  /**
   * A parser's tree without `=` has a value exactly when every operand it
   * reads is bound and every number in it can be read; otherwise it raises
   * NotFound or ValueError, and never any other error.
   */
  lemma {:induction false} WellFormedValue<V>(ar: Arithmetic<V>, e: Entity, syms: map<string, V>)
    requires WellFormed(e) && !HasAssignment(e)
    ensures Evaluated(ar, Some(e), syms).result.Ok? <==> Operands(e) <= syms.Keys && Readable(ar, e)
    ensures Evaluated(ar, Some(e), syms).result.Err? ==>
              Evaluated(ar, Some(e), syms).result.error in {NotFound, ValueError}
    decreases Size(e)
  {
    if e.Parenthesis? {
      assert AtomOk(e);
      WellFormedValue(ar, e.child, syms);
    } else if e.Compound? {
      var l, r := e.left.value, e.right.value;
      assert AtomsOk(l) && AtomsOk(r);
      NoAssignmentKeepsSymbols(ar, e.left, syms);
      WellFormedValue(ar, l, syms);
      WellFormedValue(ar, r, syms);
      assert Numbers(e) == Numbers(l) + Numbers(r);
      assert Readable(ar, e) <==> Readable(ar, l) && Readable(ar, r);
    } else if e.Literal? {
      assert Numbers(e) == {e.value};
      assert Readable(ar, e) <==> ar.literal(e.value).Some?;
    } else {
      assert AtomsOk(e) && AtomOk(e);
      assert Operands(e) == {e.value} && Numbers(e) == {};
    }
  }

  /** A whole line that parses never raises TypeError when resolved. */
  lemma ParsedLineHasNoTypeError<V>(ar: Arithmetic<V>, code: string, syms: map<string, V>)
    requires Parsed(code).Ok?
    ensures Evaluated(ar, Some(Parsed(code).value), syms).result != Err(TypeError)
  {
    ParsedWellFormed(code);
    WellFormedHasNoTypeError(ar, Parsed(code).value, syms);
  }

  // ---------------------------------------------------------------- assignments

  /** `=` with anything but an operand on its left raises InvalidOperation before its right side runs. */
  lemma AssignToNonOperand<V>(ar: Arithmetic<V>, l: Option<Entity>, r: Option<Entity>, syms: map<string, V>)
    requires l.Some? ==> !l.value.Operand?
    ensures Evaluated(ar, Some(Compound(OperatorSet, l, r)), syms) == Eval(Err(InvalidOperation), syms)
  {
  }

  /**
   * Assigning to any negated name raises ValueError once the right side
   * has been evaluated: the name is GetString's "(-v)", and no operand may
   * be called that, so the symbols are those the right side left.
   */
  lemma NegatedTargetAlwaysFails<V>(ar: Arithmetic<V>, v: string, r: Option<Entity>, syms: map<string, V>)
    requires Evaluated(ar, r, syms).result.Ok?
    ensures Evaluated(ar, Some(Compound(OperatorSet, Some(Operand(v, true)), r)), syms)
         == Eval(Err(ValueError), Evaluated(ar, r, syms).symbols)
  {
    NegatedStringIsNoName(Operand(v, true));
  }

  /**
   * Assigning to a negated name, the tree of "-a=5", raises ValueError: the
   * name is GetString's "(-a)", which no operand may be called.
   */
  lemma NegatedTargetFails<V>(ar: Arithmetic<V>, syms: map<string, V>)
    requires ar.literal("5").Some?
    ensures Evaluated(ar, Some(Compound(OperatorSet, Some(Operand("a", true)), Some(Literal("5", false)))), syms)
         == Eval(Err(ValueError), syms)
  {
    assert ValueString(Operand("a", true)) == "(-a)";
    assert !Identifier("(-a)") && !Identifier("-a)");
  }

  /** The tree of "a=b=5" binds b and then a to five, and yields five. */
  lemma ChainedAssignmentTree<V>(ar: Arithmetic<V>, five: V, syms: map<string, V>)
    requires ar.literal("5") == Some(five)
    ensures Evaluated(ar, Some(Compound(OperatorSet, Some(Operand("a", false)),
                                         Some(Compound(OperatorSet, Some(Operand("b", false)), Some(Literal("5", false)))))), syms)
         == Eval(Ok(five), syms["b" := five]["a" := five])
  {
    assert GetString(Operand("b", false)) == Ok("b");
    assert GetString(Operand("a", false)) == Ok("a");
    assert Identifier("b") && Identifier("a");
  }

  /** The line "a=b=5" binds both names to five. */
  lemma ChainedAssignment<V>(ar: Arithmetic<V>, five: V, syms: map<string, V>)
    requires ar.literal("5") == Some(five)
    ensures Parsed("a=b=5").Ok?
    ensures Evaluated(ar, Some(Parsed("a=b=5").value), syms) == Eval(Ok(five), syms["b" := five]["a" := five])
  {
    AssignmentChain();
    ChainedAssignmentTree(ar, five, syms);
  }
}

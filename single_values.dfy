/**
 * The single-value entities (symbols, literals, directive callers and
 * function names): their sign-aware getters, their validating setters and
 * their constructors.
 */
module SingleValues {
  import opened Errors
  import opened Names
  import opened Entities

  // ---------------------------------------------------------------- single_value_entity.cpp

  /** GetValue: the stored value, with '-' in front when the sign flag is set. */
  function GetValue(e: Entity): (s: string)
    requires e.IsSingleValue()
    ensures e.negative ==> |s| == |e.value| + 1 && s[0] == '-' && s[1..] == e.value
    ensures !e.negative ==> s == e.value
  {
    if e.negative then "-" + e.value else e.value
  }

  /** GetAbsValue: the stored value, whatever the sign; GetValue is it with the sign put back. */
  function GetAbsValue(e: Entity): (s: string)
    requires e.IsSingleValue()
    ensures GetValue(e) == (if e.negative then "-" + s else s)
  {
    e.value
  }

  /** What a kind's SetValue accepts; the base class accepts nothing. */
  predicate Accepts(e: Entity, s: string)
    requires e.IsSingleValue()
  {
    match e
    case Operand(_, _) => OperandValid(s)
    case Literal(_, _) => LiteralValid(s)
    case Caller(_, _) => CallerValid(s)
    case Function(_, _, _) => FunctionValid(s)
    case _ => false
  }

  /** Every string a kind accepts is non-empty and has no '-' past the first character's sign. */
  lemma AcceptedShapes(e: Entity, s: string)
    requires e.IsSingleValue()
    ensures Accepts(e, s) ==> |s| > 0
    ensures Accepts(e, s) && Negated(s) ==> |s| > 1 && s[1] != '-'
  {
    NumberStartsWithDigit(s);
    if Negated(s) {
      NumberStartsWithDigit(s[1..]);
    }
  }

  /**
   * SetValue, dispatched per kind: a string the kind accepts is stored with
   * one leading '-' moved into the sign flag (a string without '-' leaves the
   * flag as it was); anything else raises ValueError and changes nothing.
   * The bare SingleValueEntity always throws.
   */
  function SetValue(e: Entity, s: string): (r: Result<Entity>)
    requires e.IsSingleValue()
    ensures r.Ok? <==> Accepts(e, s)
    ensures r.Err? ==> r.error == (if e.SingleValue? then Generic else ValueError)
    ensures r.Ok? ==> r.value.IsSingleValue() && GetType(r.value) == GetType(e)
                      && (r.value.Function? ==> r.value.args == e.args)
    ensures r.Ok? ==> r.value.value == (if s[0] == '-' then s[1..] else s)
                      && r.value.negative == (e.negative || s[0] == '-')
    ensures r.Ok? ==> |r.value.value| > 0 && r.value.value[0] != '-'
  {
    AcceptedShapes(e, s);
    match e
    case Operand(_, neg) =>
      if !OperandValid(s) then Err(ValueError)
      else if s[0] == '-' then Ok(Operand(s[1..], true)) else Ok(Operand(s, neg))
    case Literal(_, neg) =>
      if !LiteralValid(s) then Err(ValueError)
      else if s[0] == '-' then Ok(Literal(s[1..], true)) else Ok(Literal(s, neg))
    case Caller(_, neg) =>
      if !CallerValid(s) then Err(ValueError)
      else if s[0] == '-' then Ok(Caller(s[1..], true)) else Ok(Caller(s, neg))
    case Function(_, neg, args) =>
      if !FunctionValid(s) then Err(ValueError)
      else if s[0] == '-' then Ok(Function(s[1..], true, args)) else Ok(Function(s, neg, args))
    case SingleValue(_, _) => Err(Generic)
  }

  // ---------------------------------------------------------------- constructors

  /** OperandEntity(value): SetValue on a fresh, unsigned operand. */
  function NewOperand(s: string): (r: Result<Entity>)
    ensures r.Ok? <==> OperandValid(s)
    ensures r.Err? ==> r.error == ValueError
    ensures r.Ok? ==> r.value.Operand? && GetType(r.value) == OperandEntity && GetValue(r.value) == s
    ensures r.Ok? ==> (r.value.negative <==> s[0] == '-')
  {
    SetValue(Operand("", false), s)
  }

  /** LiteralEntity(value): SetValue on a fresh, unsigned literal. */
  function NewLiteral(s: string): (r: Result<Entity>)
    ensures r.Ok? <==> LiteralValid(s)
    ensures r.Err? ==> r.error == ValueError
    ensures r.Ok? ==> r.value.Literal? && GetType(r.value) == LiteralEntity && GetValue(r.value) == s
    ensures r.Ok? ==> (r.value.negative <==> s[0] == '-')
  {
    SetValue(Literal("", false), s)
  }

  /**
   * CallerEntity(value) delegates to OperandEntity(value), whose SetValue runs
   * while the object is still an operand: construction uses the operand rule.
   */
  function NewCaller(s: string): (r: Result<Entity>)
    ensures r.Ok? <==> OperandValid(s)
    ensures r.Err? ==> r.error == ValueError
    ensures r.Ok? ==> r.value.Caller? && GetType(r.value) == CallerEntity && GetValue(r.value) == s
  {
    match NewOperand(s)
    case Err(x) => Err(x)
    case Ok(o) => Ok(Caller(o.value, o.negative))
  }

  /** FunctionEntity(value) delegates to OperandEntity(value) the same way; no arguments yet. */
  function NewFunction(s: string): (r: Result<Entity>)
    ensures r.Ok? <==> OperandValid(s)
    ensures r.Err? ==> r.error == ValueError
    ensures r.Ok? ==> r.value.Function? && GetType(r.value) == FunctionEntity
                      && GetValue(r.value) == s && r.value.args == []
  {
    match NewOperand(s)
    case Err(x) => Err(x)
    case Ok(o) => Ok(Function(o.value, o.negative, []))
  }

  /** A caller is built from a name its own SetValue would refuse. */
  lemma CallerConstructionIsLooser()
    ensures NewCaller("a_b").Ok?
    ensures SetValue(NewCaller("a_b").value, "a_b").Err?
  {
    NameExamples();
  }

  /** The rendering of a negated single value is "(-v)", which no symbol name matches. */
  lemma NegatedStringIsNoName(e: Entity)
    requires e.IsSingleValue() && e.negative
    ensures GetString(e) == Ok("(-" + e.value + ")")
    ensures !OperandValid(ValueString(e))
  {
    var s := ValueString(e);
    assert s[0] == '(';
  }

  /** A value without a sign leaves an already set sign flag set. */
  lemma UnsignedValueKeepsFlag(e: Entity, s: string)
    requires e.Operand? && e.negative && OperandValid(s) && s[0] != '-'
    ensures SetValue(e, s) == Ok(Operand(s, true))
  {
  }
}

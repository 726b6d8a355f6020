/**
 * The AST node kinds of the calculator as one closed sum type, with the
 * behaviour of the base Entity, TieredEntity, CompoundEntity and
 * ParenthesisEntity classes. Nodes are values: an operation that changes
 * a node in place returns the changed node.
 */
module Entities {
  import opened Errors
  import opened Tiered

  /** Entity::EntityType, with the FUNCTION_ENTITY tag that function entities report. */
  datatype EntityType =
    | InvalidEntity
    | CallerEntity
    | ParenthesisEntity
    | CompoundEntity
    | OperandEntity
    | LiteralEntity
    | FunctionEntity

  /** The label constants that GetTypeString returns, kept abstract and distinct. */
  datatype TypeLabel =
    | InvalidLabel
    | CompoundLabel
    | OperandLabel
    | LiteralLabel
    | FunctionLabel
    | ParenthesisLabel

  /** CompoundEntity::EntityPosition. */
  datatype Position = LeftEntity | RightEntity

  /**
   * Every class of the entity hierarchy that can be instantiated.
   * `negative` is the sign flag every negatable entity carries (false when a node is built).
   */
  datatype Entity =
    | Plain                                                         // a bare Entity
    | SingleValue(value: string, negative: bool)                    // a bare SingleValueEntity
    | Operand(value: string, negative: bool)                        // a symbol
    | Literal(value: string, negative: bool)                        // a number
    | Caller(value: string, negative: bool)                         // a directive name
    | Function(value: string, negative: bool, args: seq<Entity>)    // a named call with its arguments
    | Parenthesis(child: Entity, negative: bool)                    // (child) or -(child)
    | Compound(op: OperatorType, left: Option<Entity>, right: Option<Entity>)  // a binary operation
  {
    /** The SingleValueEntity subclasses. */
    predicate IsSingleValue() { SingleValue? || Operand? || Literal? || Caller? || Function? }

    /** The TieredEntity subclasses. */
    predicate IsTiered() { Compound? || Parenthesis? }
  }

  // ---------------------------------------------------------------- entity.cpp

  /** GetType: each concrete kind reports its own tag; the bare base classes report INVALID_ENTITY. */
  function GetType(e: Entity): (t: EntityType)
    ensures t == InvalidEntity <==> e.Plain? || e.SingleValue?
    ensures t == CompoundEntity <==> e.Compound?
    ensures t == ParenthesisEntity <==> e.Parenthesis?
    ensures t == OperandEntity <==> e.Operand?
    ensures t == LiteralEntity <==> e.Literal?
    ensures t == CallerEntity <==> e.Caller?
    ensures t == FunctionEntity <==> e.Function?
  {
    match e
    case Plain => InvalidEntity
    case SingleValue(_, _) => InvalidEntity
    case Operand(_, _) => OperandEntity
    case Literal(_, _) => LiteralEntity
    case Caller(_, _) => CallerEntity
    case Function(_, _, _) => FunctionEntity
    case Parenthesis(_, _) => ParenthesisEntity
    case Compound(_, _, _) => CompoundEntity
  }

  /** The switch of GetTypeString; it has no case for CALLER_ENTITY, which falls to the default. */
  function TypeString(t: EntityType): TypeLabel {
    match t
    case CompoundEntity => CompoundLabel
    case OperandEntity => OperandLabel
    case LiteralEntity => LiteralLabel
    case FunctionEntity => FunctionLabel
    case ParenthesisEntity => ParenthesisLabel
    case _ => InvalidLabel
  }

  /** Two different known kinds never share a label. */
  lemma TypeStringDistinct(s: EntityType, t: EntityType)
    requires s != t && TypeString(s) != InvalidLabel
    ensures TypeString(s) != TypeString(t)
  {
  }

  /** GetTypeString: the label of the node's type. */
  function GetTypeString(e: Entity): (l: TypeLabel)
    ensures l == InvalidLabel <==> e.Plain? || e.SingleValue? || e.Caller?
  {
    TypeString(GetType(e))
  }

  /** The nodes whose rendering reaches no bare base Entity. */
  predicate Renderable(e: Entity) {
    match e
    case Plain => false
    case Parenthesis(c, _) => Renderable(c)
    case Compound(_, l, r) => (l.Some? ==> Renderable(l.value)) && (r.Some? ==> Renderable(r.value))
    case _ => true
  }

  /** SingleValueEntity::GetString: the value, in "(-...)" when the sign flag is set. */
  function ValueString(e: Entity): string
    requires e.IsSingleValue()
  {
    if e.negative then "(-" + e.value + ")" else e.value
  }

  /**
   * GetString, dispatched as the virtual call is: the base Entity throws, a
   * parenthesis wraps its child, a compound node is infix with NULL for a
   * missing child, the single-value kinds render their value.
   */
  function GetString(e: Entity): (r: Result<string>)
    ensures r.Ok? <==> Renderable(e)
    ensures r.Err? ==> r.error == Generic
  {
    match e
    case Plain => Err(Generic)
    case Parenthesis(c, neg) =>
      (match GetString(c)
       case Err(x) => Err(x)
       case Ok(s) => Ok((if neg then "-(" else "(") + s + ")"))
    case Compound(op, l, r) =>
      var ls := if l.None? then Ok("NULL") else GetString(l.value);
      var rs := if r.None? then Ok("NULL") else GetString(r.value);
      if ls.Err? then ls else if rs.Err? then rs else Ok(ls.value + OperatorString(op) + rs.value)
    case _ => Ok(ValueString(e))
  }

  // ---------------------------------------------------------------- tiered_entity.cpp

  /** GetOperator: the operator stored in the node; a parenthesis never stores one. */
  function GetOperator(e: Entity): OperatorType
    requires e.IsTiered()
  {
    if e.Compound? then e.op else OperatorInvalid
  }

  /** SetOperator: a compound node takes the new operator; a parenthesis throws. */
  function SetOperator(e: Entity, t: OperatorType): (r: Result<Entity>)
    requires e.IsTiered()
    ensures e.Compound? ==> r.Ok? && r.value.Compound? && GetOperator(r.value) == t
                            && r.value.left == e.left && r.value.right == e.right
    ensures e.Parenthesis? ==> r == Err(Generic)
  {
    if e.Compound? then Ok(e.(op := t)) else Err(Generic)
  }

  /** GetOperatorString: the table entry for the stored operator. */
  function GetOperatorString(e: Entity): string
    requires e.IsTiered()
  {
    OperatorString(GetOperator(e))
  }

  /** GetOperatorPrecedence: a table lookup, overridden to PRECEDENCE(PARENTHESIS) = 0 for a group. */
  function GetOperatorPrecedence(e: Entity): (p: int)
    requires e.IsTiered()
    ensures e.Parenthesis? ==> p == 0
    ensures e.Compound? ==> p == Precedence(e.op)
  {
    if e.Parenthesis? then Precedence(ParenthesisOp) else Precedence(GetOperator(e))
  }

  /** GetOperatorAssociativity: a table lookup on the stored operator. */
  function GetOperatorAssociativity(e: Entity): Associativity
    requires e.IsTiered()
  {
    Associative(GetOperator(e))
  }

  /** SetOperator followed by GetOperatorString renders the character the operator was read from. */
  lemma SetOperatorRendersCharacter(e: Entity, c: char)
    requires e.Compound? && c in OperatorChars
    ensures SetOperator(e, Operator(c)).Ok?
    ensures GetOperatorString(SetOperator(e, Operator(c)).value) == [c]
  {
  }

  /** An unset operator renders as UNKNOWN_OPERATOR and has precedence -1. */
  lemma UnsetOperator(e: Entity)
    requires e.Compound? && e.op == OperatorInvalid
    ensures GetOperatorString(e) == "UNKNOWN_OPERATOR"
    ensures GetOperatorPrecedence(e) == -1
    ensures GetOperatorAssociativity(e) == AssocInvalid
  {
  }

  // ---------------------------------------------------------------- compound_entity.cpp

  /** CompoundEntity(): no children, operator unset. */
  function NewDefaultCompound(): (e: Entity)
    ensures e.Compound? && GetOperator(e) == OperatorInvalid
    ensures CompoundGet(e, LeftEntity).None? && CompoundGet(e, RightEntity).None?
  {
    Compound(OperatorInvalid, None, None)
  }

  /** The slots that Set refuses: a child whose type is INVALID_ENTITY. */
  predicate Acceptable(v: Option<Entity>) {
    v.None? || GetType(v.value) != InvalidEntity
  }

  /** CompoundEntity::Get. */
  function CompoundGet(e: Entity, pos: Position): Option<Entity>
    requires e.Compound?
  {
    match pos
    case LeftEntity => e.left
    case RightEntity => e.right
  }

  /** CompoundEntity::Set: store v in the slot, or raise ValueError for a child of type INVALID_ENTITY. */
  function CompoundSet(e: Entity, pos: Position, v: Option<Entity>): (r: Result<Entity>)
    requires e.Compound?
    ensures r.Ok? <==> Acceptable(v)
    ensures r.Err? ==> r.error == ValueError
    ensures r.Ok? ==> r.value.Compound? && r.value.op == e.op && CompoundGet(r.value, pos) == v
    ensures r.Ok? ==> forall q :: q != pos ==> CompoundGet(r.value, q) == CompoundGet(e, q)
  {
    if !Acceptable(v) then Err(ValueError)
    else match pos
      case LeftEntity => Ok(e.(left := v))
      case RightEntity => Ok(e.(right := v))
  }

  /** CompoundEntity(t, l, r): SetOperator, then Set of each side in turn. */
  function NewCompound(t: OperatorType, l: Option<Entity>, r: Option<Entity>): (res: Result<Entity>)
    ensures res.Ok? <==> Acceptable(l) && Acceptable(r)
    ensures res.Err? ==> res.error == ValueError
    ensures res.Ok? ==> res.value.Compound? && GetOperator(res.value) == t
                        && CompoundGet(res.value, LeftEntity) == l && CompoundGet(res.value, RightEntity) == r
  {
    var e := SetOperator(NewDefaultCompound(), t).value;
    match CompoundSet(e, LeftEntity, l)
    case Err(x) => Err(x)
    case Ok(e1) => CompoundSet(e1, RightEntity, r)
  }

  // ---------------------------------------------------------------- parenthesis_entity.cpp

  /** ParenthesisEntity(e, negative). */
  function NewParenthesis(c: Entity, negative: bool): (e: Entity)
    ensures e.Parenthesis? && ParenthesisGet(e) == c && e.negative == negative
    ensures GetType(e) == ParenthesisEntity && GetOperatorPrecedence(e) == 0
  {
    Parenthesis(c, negative)
  }

  /** ParenthesisEntity::Get. */
  function ParenthesisGet(e: Entity): Entity
    requires e.Parenthesis?
  {
    e.child
  }

  /** ParenthesisEntity::Set: replaces the child and keeps the sign. */
  function ParenthesisSet(e: Entity, c: Entity): (r: Entity)
    requires e.Parenthesis?
    ensures r.Parenthesis? && ParenthesisGet(r) == c && r.negative == e.negative
  {
    e.(child := c)
  }

  /** A group renders as its child in parentheses, with a leading '-' when negated. */
  lemma ParenthesisString(c: Entity, negative: bool)
    requires Renderable(c)
    ensures GetString(NewParenthesis(c, negative))
         == Ok((if negative then "-(" else "(") + GetString(c).value + ")")
  {
  }

  /** A compound node renders infix: left, operator, right, with NULL for a missing child. */
  lemma CompoundString(t: OperatorType, l: Option<Entity>, r: Option<Entity>)
    requires l.Some? ==> Renderable(l.value)
    requires r.Some? ==> Renderable(r.value)
    ensures GetString(Compound(t, l, r)).Ok?
    ensures GetString(Compound(t, l, r)).value
         == (if l.None? then "NULL" else GetString(l.value).value)
            + OperatorString(t)
            + (if r.None? then "NULL" else GetString(r.value).value)
  {
  }
}

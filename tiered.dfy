/**
 * The fixed operator tables shared by every tiered entity: which character
 * names which operator, how tightly it binds (a lower number binds tighter)
 * and how chains of equal precedence nest.
 */
module Tiered {

  datatype OperatorType =
    | OperatorInvalid   // also the "unset" value of a fresh node
    | DirectiveArgs
    | DirectiveCall
    | ArithmeticAdd
    | ArithmeticSub
    | ArithmeticMul
    | ArithmeticDiv
    | ArithmeticMod
    | ArithmeticPow
    | ParenthesisOp
    | OperatorSet

  datatype Associativity = AssocInvalid | AssocLeft | AssocRight

  /** The seven operators that the parser can put into a binary node. */
  predicate IsBinary(t: OperatorType) {
    t == ArithmeticAdd || t == ArithmeticSub || t == ArithmeticMul || t == ArithmeticDiv
    || t == ArithmeticMod || t == ArithmeticPow || t == OperatorSet
  }

  /** The characters that name an operator. */
  const OperatorChars: string := "+-*/%^="

  /** OPERATOR: the operator a character names, or OperatorInvalid. */
  function Operator(c: char): (t: OperatorType)
    ensures t != OperatorInvalid <==> c in OperatorChars
    ensures t != OperatorInvalid ==> IsBinary(t)
  {
    if c == '+' then ArithmeticAdd
    else if c == '-' then ArithmeticSub
    else if c == '*' then ArithmeticMul
    else if c == '/' then ArithmeticDiv
    else if c == '%' then ArithmeticMod
    else if c == '^' then ArithmeticPow
    else if c == '=' then OperatorSet
    else OperatorInvalid
  }

  /** PRECEDENCE: lower binds tighter; -1 for everything that is not an operator of the grammar. */
  function Precedence(t: OperatorType): (p: int)
    ensures -1 <= p <= 4
    ensures p == -1 <==> !(IsBinary(t) || t == ParenthesisOp)
    ensures IsBinary(t) ==> p >= 1
  {
    match t
    case OperatorSet => 4
    case ArithmeticAdd => 3
    case ArithmeticSub => 3
    case ArithmeticMul => 2
    case ArithmeticDiv => 2
    case ArithmeticMod => 2
    case ArithmeticPow => 1
    case ParenthesisOp => 0
    case DirectiveCall => -1
    case DirectiveArgs => -1
    case OperatorInvalid => -1
  }

  /** ASSOCIATIVE: only exponentiation and assignment group to the right. */
  function Associative(t: OperatorType): (a: Associativity)
    ensures a == AssocRight <==> t == ArithmeticPow || t == OperatorSet
    ensures a == AssocInvalid <==> t == OperatorInvalid
  {
    match t
    case DirectiveCall => AssocLeft
    case DirectiveArgs => AssocLeft
    case ArithmeticAdd => AssocLeft
    case ArithmeticSub => AssocLeft
    case ArithmeticMul => AssocLeft
    case ArithmeticDiv => AssocLeft
    case ArithmeticMod => AssocLeft
    case ArithmeticPow => AssocRight
    case ParenthesisOp => AssocLeft
    case OperatorSet => AssocRight
    case OperatorInvalid => AssocInvalid
  }

  /** GetOperatorString's table. */
  function OperatorString(t: OperatorType): (s: string)
    ensures IsBinary(t) ==> |s| == 1 && s[0] in OperatorChars
    ensures !IsBinary(t) ==> |s| > 1
  {
    match t
    case DirectiveCall => "!!"
    case DirectiveArgs => "&&"
    case ArithmeticAdd => "+"
    case ArithmeticSub => "-"
    case ArithmeticMul => "*"
    case ArithmeticDiv => "/"
    case ArithmeticMod => "%"
    case ArithmeticPow => "^"
    case OperatorSet => "="
    case _ => "UNKNOWN_OPERATOR"
  }

  /** Rendering an operator read from c gives back c. */
  lemma OperatorStringRoundTrip(c: char)
    requires c in OperatorChars
    ensures OperatorString(Operator(c)) == [c]
  {
  }

  /** Reading the rendering of a binary operator gives back the operator. */
  lemma OperatorRoundTrip(t: OperatorType)
    requires IsBinary(t)
    ensures Operator(OperatorString(t)[0]) == t
  {
  }

  /** Among the seven binary operators, equal precedence means equal associativity. */
  lemma SamePrecedenceSameAssociativity(s: OperatorType, t: OperatorType)
    requires IsBinary(s) && IsBinary(t) && Precedence(s) == Precedence(t)
    ensures Associative(s) == Associative(t)
  {
  }

  /** A parenthesised group binds tighter than every binary operator. */
  lemma ParenthesisBindsTightest(t: OperatorType)
    requires IsBinary(t)
    ensures Precedence(ParenthesisOp) < Precedence(t)
  {
  }
}

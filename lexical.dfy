/**
 * The one-pass parser: it scans a line left to right with a pending text
 * buffer, parses the text of every parenthesised group recursively, and
 * splices each completed binary node into the right spine of the tree
 * built so far, according to the new operator's precedence and
 * associativity.
 */
module Lexical {
  import opened Errors
  import opened Tiered
  import opened Names
  import opened Entities
  import opened SingleValues

  // ---------------------------------------------------------------- tree shapes

  /** The in-order reading of a tree: its atoms and operators, left to right. */
  datatype Token = Atom(atom: Entity) | Op(op: OperatorType)

  function Flatten(e: Entity): seq<Token> {
    match e
    case Compound(op, l, r) =>
      (if l.Some? then Flatten(l.value) else []) + [Op(op)] + (if r.Some? then Flatten(r.value) else [])
    case _ => [Atom(e)]
  }

  /** A child may hang on the left of t: it binds tighter, or as tightly when t groups to the left. */
  predicate LeftFits(child: Entity, t: OperatorType) {
    child.Compound? ==>
      Precedence(child.op) < Precedence(t)
      || (Precedence(child.op) == Precedence(t) && Associative(t) == AssocLeft)
  }

  /** A child may hang on the right of t: it binds tighter, or as tightly when t groups to the right. */
  predicate RightFits(child: Entity, t: OperatorType) {
    child.Compound? ==>
      Precedence(child.op) < Precedence(t)
      || (Precedence(child.op) == Precedence(t) && Associative(t) == AssocRight)
  }

  /**
   * A tree that respects precedence and associativity: every compound node
   * has both children and one of the seven operators, and its children fit.
   * Parenthesised groups are atoms here.
   */
  predicate Ordered(e: Entity) {
    match e
    case Compound(op, l, r) =>
      IsBinary(op) && l.Some? && r.Some?
      && LeftFits(l.value, op) && RightFits(r.value, op)
      && Ordered(l.value) && Ordered(r.value)
    case _ => true
  }

  /** Every compound node on the right spine has a right child (the spine walk dereferences it). */
  predicate SpineComplete(e: Entity) {
    e.Compound? ==> e.right.Some? && SpineComplete(e.right.value)
  }

  lemma {:induction false} OrderedSpineComplete(e: Entity)
    requires Ordered(e)
    ensures SpineComplete(e)
  {
    if e.Compound? {
      OrderedSpineComplete(e.right.value);
    }
  }

  /** A node ready for insertion: an operator, no left child yet, an atom on the right. */
  predicate Insertable(node: Entity, right: bool) {
    node.Compound? && IsBinary(node.op) && node.left.None? && node.right.Some?
    && !node.right.value.Compound?
    && (Associative(node.op) == AssocRight <==> right)
  }

  // ---------------------------------------------------------------- LeftAssociate / RightAssociate

  /**
   * Whether the spine walk goes on below n: while n binds looser than the
   * new node (left-associative), or no tighter (right-associative).
   */
  predicate Descends(n: Entity, node: Entity, right: bool)
    requires n.Compound? && node.Compound?
  {
    if right then GetOperatorPrecedence(n) >= GetOperatorPrecedence(node)
    else GetOperatorPrecedence(n) > GetOperatorPrecedence(node)
  }

  /**
   * The for(;;) walk down the right children that are compound and on which
   * the walk descends, then the splice: node.left = cur.right; cur.right = node.
   */
  function Splice(cur: Entity, node: Entity, right: bool): (r: Entity)
    requires cur.Compound? && node.Compound? && SpineComplete(cur)
    ensures r.Compound? && r.op == cur.op && r.left == cur.left
    ensures SpineComplete(node) ==> SpineComplete(r)
    decreases cur
  {
    var n := cur.right.value;
    if n.Compound? && Descends(n, node, right) then cur.(right := Some(Splice(n, node, right)))
    else cur.(right := Some(node.(left := cur.right)))
  }

  /** The splice keeps the in-order reading: the new node's tokens come after the old tree's. */
  lemma {:induction false} SpliceFlatten(cur: Entity, node: Entity, right: bool)
    requires cur.Compound? && node.Compound? && SpineComplete(cur) && node.left.None?
    ensures Flatten(Splice(cur, node, right)) == Flatten(cur) + Flatten(node)
  {
    var n := cur.right.value;
    var rest := if n.Compound? && Descends(n, node, right) then Splice(n, node, right) else node.(left := cur.right);
    assert Splice(cur, node, right) == cur.(right := Some(rest));
    if n.Compound? && Descends(n, node, right) {
      SpliceFlatten(n, node, right);
    } else {
      FlattenWithLeft(node, n);
    }
    FlattenRightGrows(cur, rest, Flatten(node));
  }

  /** A node without a left child, given n as its left child, reads n first. */
  lemma FlattenWithLeft(node: Entity, n: Entity)
    requires node.Compound? && node.left.None?
    ensures Flatten(node.(left := Some(n))) == Flatten(n) + Flatten(node)
  {
    var rn := if node.right.Some? then Flatten(node.right.value) else [];
    assert Flatten(node) == [Op(node.op)] + rn;
    SeqAssoc(Flatten(n), [Op(node.op)], rn);
  }

  /** Replacing the right child by one that reads the same plus t makes the node read the same plus t. */
  lemma FlattenRightGrows(cur: Entity, rest: Entity, t: seq<Token>)
    requires cur.Compound? && cur.right.Some? && Flatten(rest) == Flatten(cur.right.value) + t
    ensures Flatten(cur.(right := Some(rest))) == Flatten(cur) + t
  {
    var l := if cur.left.Some? then Flatten(cur.left.value) else [];
    assert Flatten(cur) == l + [Op(cur.op)] + Flatten(cur.right.value);
    SeqAssoc(l + [Op(cur.op)], Flatten(cur.right.value), t);
  }

  lemma SeqAssoc<T>(a: seq<T>, b: seq<T>, c: seq<T>)
    ensures a + (b + c) == a + b + c
  {
  }

  /** The splice of an insertable node into an ordered tree, below a node it descends from, is ordered. */
  lemma {:induction false} SpliceOrdered(cur: Entity, node: Entity, right: bool)
    requires cur.Compound? && Ordered(cur) && Insertable(node, right)
    requires Descends(cur, node, right)
    ensures SpineComplete(cur)
    ensures Ordered(Splice(cur, node, right))
  {
    OrderedSpineComplete(cur);
    var n := cur.right.value;
    if n.Compound? && Descends(n, node, right) {
      SpliceOrdered(n, node, right);
      var s := Splice(n, node, right);
      assert RightFits(s, cur.op);
      OrderedCompound(cur.op, cur.left.value, s);
    } else {
      SpliceHere(cur, node, right);
      OrderedCompound(cur.op, cur.left.value, node.(left := cur.right));
    }
  }

  /** Building a compound node from two ordered children that fit. */
  lemma OrderedCompound(op: OperatorType, l: Entity, r: Entity)
    requires IsBinary(op) && LeftFits(l, op) && RightFits(r, op) && Ordered(l) && Ordered(r)
    ensures Ordered(Compound(op, Some(l), Some(r)))
  {
  }

  /** Where the walk stops, the old right child fits below the new node, and the new node below cur. */
  lemma SpliceHere(cur: Entity, node: Entity, right: bool)
    requires cur.Compound? && Ordered(cur) && Insertable(node, right)
    requires Descends(cur, node, right)
    requires !(cur.right.value.Compound? && Descends(cur.right.value, node, right))
    ensures Ordered(node.(left := cur.right)) && RightFits(node.(left := cur.right), cur.op)
  {
    var n := cur.right.value;
    var t := node.op;
    assert LeftFits(n, t) by {
      if n.Compound? && Precedence(n.op) == Precedence(t) {
        SamePrecedenceSameAssociativity(n.op, t);
      }
    }
    assert RightFits(node.(left := cur.right), cur.op) by {
      if Precedence(t) == Precedence(cur.op) {
        SamePrecedenceSameAssociativity(t, cur.op);
      }
    }
  }

  /**
   * LeftAssociate: when the root binds at least as tightly as the new node
   * (precedence number <=), the new node takes the whole tree as its left
   * child; otherwise it is spliced into the right spine.
   */
  function LeftAssociate(head: Entity, node: Entity): (r: Entity)
    requires head.Compound? && node.Compound? && SpineComplete(head)
    ensures r.Compound? && (SpineComplete(node) ==> SpineComplete(r))
    ensures GetOperatorPrecedence(head) <= GetOperatorPrecedence(node) ==> r.op == node.op && r.left == Some(head)
    ensures GetOperatorPrecedence(head) > GetOperatorPrecedence(node) ==> r.op == head.op && r.left == head.left
  {
    if GetOperatorPrecedence(head) <= GetOperatorPrecedence(node) then node.(left := Some(head))
    else Splice(head, node, false)
  }

  /**
   * RightAssociate: the root is replaced only when it binds strictly
   * tighter; the walk goes on through equal precedence, so chains nest to
   * the right.
   */
  function RightAssociate(head: Entity, node: Entity): (r: Entity)
    requires head.Compound? && node.Compound? && SpineComplete(head)
    ensures r.Compound? && (SpineComplete(node) ==> SpineComplete(r))
    ensures GetOperatorPrecedence(head) < GetOperatorPrecedence(node) ==> r.op == node.op && r.left == Some(head)
    ensures GetOperatorPrecedence(head) >= GetOperatorPrecedence(node) ==> r.op == head.op && r.left == head.left
  {
    if GetOperatorPrecedence(head) < GetOperatorPrecedence(node) then node.(left := Some(head))
    else Splice(head, node, true)
  }

  /** Hanging the old tree on the left of a node without a left child reads the old tree first. */
  lemma HangLeftFlatten(head: Entity, node: Entity)
    requires node.Compound? && node.left.None?
    ensures Flatten(node.(left := Some(head))) == Flatten(head) + Flatten(node)
  {
    var rn := if node.right.Some? then Flatten(node.right.value) else [];
    assert Flatten(node) == [Op(node.op)] + rn;
  }

  /** LeftAssociate keeps the in-order reading: the old tree, then the new node. */
  lemma LeftAssociateFlatten(head: Entity, node: Entity)
    requires head.Compound? && node.Compound? && SpineComplete(head) && node.left.None?
    ensures Flatten(LeftAssociate(head, node)) == Flatten(head) + Flatten(node)
  {
    if GetOperatorPrecedence(head) <= GetOperatorPrecedence(node) {
      HangLeftFlatten(head, node);
    } else {
      SpliceFlatten(head, node, false);
    }
  }

  /** RightAssociate keeps the in-order reading: the old tree, then the new node. */
  lemma RightAssociateFlatten(head: Entity, node: Entity)
    requires head.Compound? && node.Compound? && SpineComplete(head) && node.left.None?
    ensures Flatten(RightAssociate(head, node)) == Flatten(head) + Flatten(node)
  {
    if GetOperatorPrecedence(head) < GetOperatorPrecedence(node) {
      HangLeftFlatten(head, node);
    } else {
      SpliceFlatten(head, node, true);
    }
  }

  /** LeftAssociate of a left-associative node into an ordered tree gives an ordered tree. */
  lemma LeftAssociateOrdered(head: Entity, node: Entity)
    requires head.Compound? && Ordered(head) && Insertable(node, false)
    ensures SpineComplete(head)
    ensures Ordered(LeftAssociate(head, node))
  {
    OrderedSpineComplete(head);
    if GetOperatorPrecedence(head) <= GetOperatorPrecedence(node) {
      assert LeftFits(head, node.op);
    } else {
      SpliceOrdered(head, node, false);
    }
  }

  /** RightAssociate of a right-associative node into an ordered tree gives an ordered tree. */
  lemma RightAssociateOrdered(head: Entity, node: Entity)
    requires head.Compound? && Ordered(head) && Insertable(node, true)
    ensures SpineComplete(head)
    ensures Ordered(RightAssociate(head, node))
  {
    OrderedSpineComplete(head);
    if GetOperatorPrecedence(head) >= GetOperatorPrecedence(node) {
      SpliceOrdered(head, node, true);
    }
  }

  /** The insertion of a completed node: the first one becomes the tree; later ones go by associativity. */
  function Insert(head: Option<Entity>, node: Entity): (r: Entity)
    requires node.Compound? && (head.Some? ==> head.value.Compound? && SpineComplete(head.value))
    ensures r.Compound? && (SpineComplete(node) ==> SpineComplete(r))
  {
    if head.None? then node
    else match GetOperatorAssociativity(node)
      case AssocLeft => LeftAssociate(head.value, node)
      case AssocRight => RightAssociate(head.value, node)
      case AssocInvalid => head.value   // "should not go here": the tree is left as it was
  }

  // ---------------------------------------------------------------- the scanner

  predicate IsWhitespace(c: char) { c == ' ' || c == '\t' || c == '\n' }

  /** GetEntityFrom: a symbol if the text is one, else a number if it is one, else SyntaxError. */
  function GetEntityFrom(code: string): (r: Result<Entity>)
    ensures r.Ok? <==> OperandValid(code) || LiteralValid(code)
    ensures r.Err? ==> r.error == SyntaxError
    ensures r.Ok? ==> (r.value.Operand? <==> OperandValid(code))
    ensures r.Ok? ==> (r.value.Operand? || r.value.Literal?) && GetValue(r.value) == code
  {
    if OperandValid(code) then NewOperand(code)
    else if LiteralValid(code) then NewLiteral(code)
    else Err(SyntaxError)
  }

  /** The number of occurrences of c in s. */
  function Count(c: char, s: string): nat {
    if s == [] then 0 else (if s[0] == c then 1 else 0) + Count(c, s[1..])
  }

  lemma {:induction false} CountConcat(c: char, a: string, b: string)
    ensures Count(c, a + b) == Count(c, a) + Count(c, b)
  {
    if a == [] {
      assert a + b == b;
    } else {
      assert (a + b)[0] == a[0];
      assert (a + b)[1..] == a[1..] + b;
      CountConcat(c, a[1..], b);
    }
  }

  /** Counting over s[k..m] counts s[k], then s[k + 1..m]. */
  lemma CountFirst(c: char, s: string, k: nat)
    requires k < |s|
    ensures forall m :: k < m <= |s| ==> Count(c, s[k..m]) == (if s[k] == c then 1 else 0) + Count(c, s[k + 1..m])
  {
    forall m | k < m <= |s|
      ensures Count(c, s[k..m]) == (if s[k] == c then 1 else 0) + Count(c, s[k + 1..m])
    {
      assert s[k..m][0] == s[k];
      assert s[k..m][1..] == s[k + 1..m];
    }
  }

  /** Starting at the given level at index k, the level is still positive at every index up to end. */
  predicate StaysOpen(s: string, k: nat, level: nat, end: nat)
    requires k <= end <= |s|
  {
    forall m :: k <= m <= end ==> Count(')', s[k..m]) < level + Count('(', s[k..m])
  }

  /**
   * Starting at the given level at index k, the ')' at index j brings the
   * level to zero for the first time: the level is 1 just before it and
   * positive all the way to it.
   */
  predicate ClosesAt(s: string, k: nat, level: nat, j: nat)
    requires k <= j < |s|
  {
    && s[j] == ')'
    && level + Count('(', s[k..j]) == Count(')', s[k..j]) + 1
    && StaysOpen(s, k, level, j)
  }

  /**
   * The nested level-counting scan from index k of s at the given level:
   * the index of the ')' that brings the level to zero, if there is one.
   */
  function FindClose(s: string, k: nat, level: nat): (r: Option<nat>)
    requires k <= |s| && level >= 1
    ensures r.Some? ==> k <= r.value < |s| && s[r.value] == ')'
    decreases |s| - k
  {
    if k == |s| then None
    else
      var next := if s[k] == '(' then level + 1 else if s[k] == ')' then level - 1 else level;
      if next == 0 then Some(k) else FindClose(s, k + 1, next)
  }

  /**
   * The ')' FindClose finds is the matching one: the level stays positive
   * up to it and it brings the level to zero; when FindClose finds none,
   * the level stays positive to the end of s.
   */
  lemma {:induction false} FindCloseMatches(s: string, k: nat, level: nat)
    requires k <= |s| && level >= 1
    ensures FindClose(s, k, level).Some? ==> ClosesAt(s, k, level, FindClose(s, k, level).value)
    ensures FindClose(s, k, level).None? ==> StaysOpen(s, k, level, |s|)
    decreases |s| - k
  {
    if k < |s| {
      var next := if s[k] == '(' then level + 1 else if s[k] == ')' then level - 1 else level;
      CountFirst('(', s, k);
      CountFirst(')', s, k);
      if next != 0 {
        FindCloseMatches(s, k + 1, next);
      }
    }
  }

  /** The parser's local variables: HEAD, TMP, ENT and tmp_str. */
  datatype ScanState = ScanState(head: Option<Entity>, tmp: Entity, ent: Option<Entity>, buf: string)

  /** What the scanner hands to an operator: a symbol, a number or a group. */
  predicate IsAtom(e: Entity) {
    e.Operand? || e.Literal? || e.Parenthesis?
  }

  /** What every state of the scan satisfies, enough for the splices to be defined. */
  predicate Consistent(st: ScanState) {
    && st.tmp.Compound?
    && (st.head.Some? ==> st.head.value.Compound? && SpineComplete(st.head.value))
    && (st.ent.Some? ==> IsAtom(st.ent.value))
  }

  /** The state before the first character. */
  function Start(): (st: ScanState)
    ensures Consistent(st)
  {
    ScanState(None, NewDefaultCompound(), None, "")
  }

  /** The operand that an operator or the end of input completes: a pending group, else the buffer. */
  function Pending(st: ScanState): (r: Result<Entity>)
    requires Consistent(st)
    ensures r.Ok? ==> IsAtom(r.value)
    ensures r.Err? ==> r.error == SyntaxError
  {
    if st.ent.Some? then Ok(st.ent.value) else GetEntityFrom(st.buf)
  }

  /**
   * An operator t after the operand ent: the first operator fills TMP's left
   * side; each later one completes TMP with ent on its right, inserts it and
   * starts a fresh node for t.
   */
  function Shift(st: ScanState, t: OperatorType, ent: Entity): (r: ScanState)
    requires Consistent(st) && IsAtom(ent)
    ensures Consistent(r) && r.ent.None? && r.buf == ""
  {
    if GetOperator(st.tmp) == OperatorInvalid then
      ScanState(st.head, st.tmp.(op := t, left := Some(ent)), None, "")
    else
      var node := st.tmp.(right := Some(ent));
      assert SpineComplete(node) by { assert !ent.Compound?; }
      ScanState(Some(Insert(st.head, node)), Compound(t, None, None), None, "")
  }

  /** The end of input: the last operand completes the tree, or is the whole result. */
  function Finish(st: ScanState): (r: Result<Entity>)
    requires Consistent(st)
    ensures st.head.None? && GetOperator(st.tmp) == OperatorInvalid ==> r == Pending(st)
    ensures r.Err? ==> Pending(st).Err?
  {
    if st.head.None? then
      if GetOperator(st.tmp) == OperatorInvalid then
        // a single value; these tests are GetEntityFrom's, in the same order
        if st.ent.Some? then Ok(st.ent.value)
        else if OperandValid(st.buf) then NewOperand(st.buf)
        else if LiteralValid(st.buf) then NewLiteral(st.buf)
        else Err(SyntaxError)
      else
        match Pending(st)
        case Err(x) => Err(x)
        case Ok(ent) => Ok(st.tmp.(right := Some(ent)))
    else
      match Pending(st)
      case Err(x) => Err(x)
      case Ok(ent) => Ok(Insert(st.head, st.tmp.(right := Some(ent))))
  }

  /** Parse, as a function of the input: the scan of the whole line from the start state. */
  function Parsed(code: string): Result<Entity>
    decreases |code|, 3, 0
  {
    Scanned(code, 0, Start())
  }

  /**
   * The group opened at index i of code: the pending text may only be a
   * sign, the group must close, no group may be pending, and its text must
   * parse.
   */
  function GroupOf(code: string, i: nat, ent: Option<Entity>, buf: string): (r: Result<Entity>)
    requires i < |code| && code[i] == '('
    ensures r.Ok? ==> FindClose(code, i + 1, 1).Some? && r.value.Parenthesis?
    decreases |code|, 0, 0
  {
    if buf != "" && buf != "-" then Err(SyntaxError)
    else match FindClose(code, i + 1, 1)
      case None => Err(SyntaxError)
      case Some(j) =>
        if ent.Some? then Err(SyntaxError)
        else match Parsed(code[i + 1..j])
          case Err(x) => Err(x)
          case Ok(inner) => Ok(Parenthesis(inner, buf == "-"))
  }

  /**
   * One iteration of the for loop at index i: the index it leaves the
   * iterator at and the state after it, or the error it throws.
   */
  function Step(code: string, i: nat, st: ScanState): (r: Result<(nat, ScanState)>)
    requires i < |code| && Consistent(st)
    ensures r.Ok? ==> i < r.value.0 <= |code| && Consistent(r.value.1)
    decreases |code|, 1, 0
  {
    var c := code[i];
    if IsWhitespace(c) then Ok((i + 1, st))
    else if c == ')' then Err(SyntaxError)
    else if c == '(' then
      match GroupOf(code, i, st.ent, st.buf)
      case Err(x) => Err(x)
      case Ok(group) => Ok((FindClose(code, i + 1, 1).value + 1, st.(ent := Some(group), buf := "")))
    else if Operator(c) != OperatorInvalid then
      if Operator(c) == ArithmeticSub && st.buf == "" && st.ent.None? then
        Ok((i + 1, st.(buf := st.buf + [c])))   // a sign, not a subtraction
      else match Pending(st)
        case Err(x) => Err(x)
        case Ok(ent) => Ok((i + 1, Shift(st, Operator(c), ent)))
    else Ok((i + 1, st.(buf := st.buf + [c])))
  }

  /** The scan of code from index i in state st. */
  function Scanned(code: string, i: nat, st: ScanState): Result<Entity>
    requires i <= |code| && Consistent(st)
    decreases |code|, 2, |code| - i
  {
    if i == |code| then Finish(st)
    else match Step(code, i, st)
      case Err(x) => Err(x)
      case Ok((j, next)) => Scanned(code, j, next)
  }

  // ---------------------------------------------------------------- the imperative parser

  /** The level-counting loop that follows a '(' at index begin - 1; k is where it stops. */
  method ScanGroup(code: string, begin: nat) returns (k: nat, level: int)
    requires begin <= |code|
    ensures begin <= k <= |code|
    ensures level == 0 <==> FindClose(code, begin, 1).Some?
    ensures level == 0 ==> FindClose(code, begin, 1) == Some(k) && ClosesAt(code, begin, 1, k)
    ensures level != 0 ==> StaysOpen(code, begin, 1, |code|)
  {
    level := 1;
    k := begin;
    while k < |code|
      invariant begin <= k <= |code| && level >= 1
      invariant FindClose(code, begin, 1) == FindClose(code, k, level)
    {
      var c := code[k];
      if c == '(' {
        level := level + 1;
      } else if c == ')' {
        level := level - 1;
      }
      if level == 0 {
        break;
      }
      k := k + 1;
    }
    FindCloseMatches(code, begin, 1);
  }

  /** The operator branch once the operand ent is known: fill TMP's left side, or complete and insert TMP. */
  method ShiftOperator(head: Option<Entity>, tmp: Entity, ent: Entity, t: OperatorType)
    returns (head': Option<Entity>, tmp': Entity)
    requires Consistent(ScanState(head, tmp, None, "")) && IsAtom(ent)
    ensures ScanState(head', tmp', None, "") == Shift(ScanState(head, tmp, Some(ent), ""), t, ent)
  {
    head' := head;
    if GetOperator(tmp) == OperatorInvalid {
      tmp' := SetOperator(tmp, t).value;
      tmp' := CompoundSet(tmp', LeftEntity, Some(ent)).value;
    } else {
      var node := CompoundSet(tmp, RightEntity, Some(ent)).value;
      assert node == tmp.(right := Some(ent));
      assert SpineComplete(node) by { assert !ent.Compound?; }
      if head.None? {
        head' := Some(node);
      } else {
        match GetOperatorAssociativity(node)
        case AssocLeft => head' := Some(LeftAssociate(head.value, node));
        case AssocRight => head' := Some(RightAssociate(head.value, node));
        case AssocInvalid =>
      }
      tmp' := NewCompound(t, None, None).value;
      assert tmp' == Compound(t, None, None);
    }
  }

  /** The code after the loop: the last operand completes the tree, or is the whole result. */
  method Complete(head: Option<Entity>, tmp: Entity, ent: Option<Entity>, tmpStr: string)
    returns (r: Result<Entity>)
    requires Consistent(ScanState(head, tmp, ent, tmpStr))
    ensures r == Finish(ScanState(head, tmp, ent, tmpStr))
  {
    if head.None? && GetOperator(tmp) == OperatorInvalid {
      if ent.Some? {
        r := Ok(ent.value);
      } else if OperandValid(tmpStr) {
        r := NewOperand(tmpStr);
      } else if LiteralValid(tmpStr) {
        r := NewLiteral(tmpStr);
      } else {
        r := Err(SyntaxError);
      }
      return;
    }
    var last := ent;
    if last.None? {
      var v := GetEntityFrom(tmpStr);
      if v.Err? {
        return Err(v.error);
      }
      last := Some(v.value);
    }
    var node := CompoundSet(tmp, RightEntity, last).value;
    if head.None? {
      r := Ok(node);
    } else {
      var h := head.value;
      match GetOperatorAssociativity(node) {
        case AssocLeft => h := LeftAssociate(h, node);
        case AssocRight => h := RightAssociate(h, node);
        case AssocInvalid =>
      }
      r := Ok(h);
    }
  }

  /**
   * The '(' branch at index i: the sign check, the level-counting scan, and
   * the recursive parse of the group's text; k is the index of its ')'.
   */
  method ParseGroup(code: string, i: nat, ent: Option<Entity>, tmpStr: string)
    returns (r: Result<Entity>, k: nat)
    requires i < |code| && code[i] == '('
    ensures r == GroupOf(code, i, ent, tmpStr)
    ensures r.Ok? ==> FindClose(code, i + 1, 1) == Some(k)
    decreases |code|, 0
  {
    k := i;
    var begin := i + 1;
    var negative := false;
    if tmpStr != "" {
      if |tmpStr| != 1 || tmpStr[0] != '-' {
        return Err(SyntaxError), k;
      } else {
        negative := true;
      }
    }
    var level;
    k, level := ScanGroup(code, begin);
    if level != 0 || ent.Some? {
      return Err(SyntaxError), k;
    }
    var inner := Parse(code[begin..k]);
    if inner.Err? {
      return Err(inner.error), k;
    }
    r := Ok(Parenthesis(inner.value, negative));
  }

  /** Parse: the for loop over the line, with the nested group scan and the recursive parse of each group. */
  method Parse(code: string) returns (r: Result<Entity>)
    ensures r == Parsed(code)
    decreases |code|, 1
  {
    var head: Option<Entity> := None;
    var tmp := NewDefaultCompound();
    var ent: Option<Entity> := None;
    var tmpStr := "";
    var i := 0;
    while i < |code|
      invariant 0 <= i <= |code|
      invariant Consistent(ScanState(head, tmp, ent, tmpStr))
      invariant Scanned(code, i, ScanState(head, tmp, ent, tmpStr)) == Parsed(code)
    {
      ghost var st, i0 := ScanState(head, tmp, ent, tmpStr), i;
      var c := code[i];
      var t := Operator(c);
      if IsWhitespace(c) {
        i := i + 1;
      } else if c == ')' {
        return Err(SyntaxError);
      } else if c == '(' {
        var group, k := ParseGroup(code, i, ent, tmpStr);
        if group.Err? {
          return Err(group.error);
        }
        ent := Some(group.value);
        tmpStr := "";
        i := k + 1;
      } else if t != OperatorInvalid {
        if t == ArithmeticSub && tmpStr == "" && ent.None? {
          tmpStr := tmpStr + [c];
        } else {
          if ent.None? {
            var v := GetEntityFrom(tmpStr);
            if v.Err? {
              return Err(v.error);
            }
            ent := Some(v.value);
          }
          head, tmp := ShiftOperator(head, tmp, ent.value, t);
          ent := None;
          tmpStr := "";
        }
        i := i + 1;
      } else {
        tmpStr := tmpStr + [c];
        i := i + 1;
      }
      assert Step(code, i0, st) == Ok((i, ScanState(head, tmp, ent, tmpStr)));
    }
    r := Complete(head, tmp, ent, tmpStr);
  }
}

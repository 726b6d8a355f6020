/**
 * GetPostfix, the debugging renderer of a tree in reverse Polish order:
 * each compound node after its two operands, a missing node as "[NULL]",
 * every other node by its own GetString.
 */
module Postfix {
  import opened Errors
  import opened Tiered
  import opened Entities
  import opened Lexical
  import opened LexicalCases

  const NullText: string := "[NULL]"

  /** The postfix text of a possibly missing node; the first node that cannot be rendered raises. */
  function GetPostfix(e: Option<Entity>): (r: Result<string>)
    ensures r.Ok? <==> (e.Some? ==> Renderable(e.value))
    ensures r.Err? ==> r.error == Generic
    ensures e.None? ==> r == Ok(NullText)
    ensures e.Some? && !e.value.Compound? ==> r == GetString(e.value)
    decreases e
  {
    match e
    case None => Ok(NullText)
    case Some(x) =>
      if !x.Compound? then GetString(x)
      else
        var ls := GetPostfix(x.left);
        var rs := GetPostfix(x.right);
        if ls.Err? then ls else if rs.Err? then rs else Ok(ls.value + rs.value + OperatorString(x.op))
  }

  // ---------------------------------------------------------------- the pieces of the text

  /** One slot of the postfix text: a missing node, a node that is not compound, or an operator. */
  datatype Piece = NullPiece | Leaf(e: Entity) | OpPiece(op: OperatorType)

  /** The pieces of the text, in the order GetPostfix writes them. */
  function Pieces(e: Option<Entity>): (ps: seq<Piece>)
    ensures |ps| >= 1
    ensures forall k :: 0 <= k < |ps| ==> (ps[k].Leaf? ==> !ps[k].e.Compound?)
    decreases e
  {
    match e
    case None => [NullPiece]
    case Some(x) => if x.Compound? then Pieces(x.left) + Pieces(x.right) + [OpPiece(x.op)] else [Leaf(x)]
  }

  function PieceText(p: Piece): Result<string> {
    match p
    case NullPiece => Ok(NullText)
    case Leaf(x) => GetString(x)
    case OpPiece(t) => Ok(OperatorString(t))
  }

  /** The texts of the pieces one after the other; the first piece that cannot be rendered raises. */
  function Render(ps: seq<Piece>): (r: Result<string>)
    ensures r.Ok? <==> forall k :: 0 <= k < |ps| ==> PieceText(ps[k]).Ok?
    ensures r.Err? ==> r.error == Generic
  {
    if ps == [] then Ok("")
    else match PieceText(ps[0])
      case Err(x) => Err(x)
      case Ok(s) =>
        match Render(ps[1..])
        case Err(x) => Err(x)
        case Ok(t) => Ok(s + t)
  }

  lemma {:induction false} RenderConcat(a: seq<Piece>, b: seq<Piece>)
    requires Render(a).Ok? && Render(b).Ok?
    ensures Render(a + b) == Ok(Render(a).value + Render(b).value)
  {
    if a == [] {
      assert a + b == b;
      assert "" + Render(b).value == Render(b).value;
    } else {
      assert (a + b)[0] == a[0] && (a + b)[1..] == a[1..] + b;
      RenderConcat(a[1..], b);
      var s, t, u := PieceText(a[0]).value, Render(a[1..]).value, Render(b).value;
      assert s + (t + u) == s + t + u;
    }
  }

  lemma {:induction false} RenderFailsOnLeft(a: seq<Piece>, b: seq<Piece>)
    requires Render(a).Err?
    ensures Render(a + b).Err?
  {
    var k :| 0 <= k < |a| && PieceText(a[k]).Err?;
    assert (a + b)[k] == a[k];
  }

  lemma {:induction false} RenderFailsOnRight(a: seq<Piece>, b: seq<Piece>)
    requires Render(b).Err?
    ensures Render(a + b).Err?
  {
    var k :| 0 <= k < |b| && PieceText(b[k]).Err?;
    assert (a + b)[|a| + k] == b[k];
  }

  /** The text of three runs of pieces, each run failing or rendering as a whole. */
  lemma RenderThree(a: seq<Piece>, b: seq<Piece>, c: seq<Piece>)
    requires Render(c).Ok?
    ensures Render(a).Err? ==> Render(a + b + c) == Render(a)
    ensures Render(a).Ok? && Render(b).Err? ==> Render(a + b + c) == Render(b)
    ensures Render(a).Ok? && Render(b).Ok? ==> Render(a + b + c) == Ok(Render(a).value + Render(b).value + Render(c).value)
  {
    if Render(a).Err? {
      RenderFailsOnLeft(a, b);
      RenderFailsOnLeft(a + b, c);
    } else if Render(b).Err? {
      RenderFailsOnRight(a, b);
      RenderFailsOnLeft(a + b, c);
    } else {
      RenderConcat(a, b);
      RenderConcat(a + b, c);
    }
  }

  /** A single operator piece renders as the operator's text. */
  lemma RenderOperator(t: OperatorType)
    ensures Render([OpPiece(t)]) == Ok(OperatorString(t))
  {
    assert [OpPiece(t)][1..] == [];
    assert OperatorString(t) + "" == OperatorString(t);
  }

  /** A single leaf renders as the leaf's GetString. */
  lemma RenderLeaf(x: Entity)
    ensures Render([Leaf(x)]) == GetString(x)
  {
    assert [Leaf(x)][1..] == [];
    if GetString(x).Ok? {
      assert GetString(x).value + "" == GetString(x).value;
    }
  }

  /** The compound step of PostfixIsRenderedPieces. */
  lemma PostfixCompound(x: Entity)
    requires x.Compound?
    requires GetPostfix(x.left) == Render(Pieces(x.left)) && GetPostfix(x.right) == Render(Pieces(x.right))
    ensures GetPostfix(Some(x)) == Render(Pieces(Some(x)))
  {
    var a, b, c := Pieces(x.left), Pieces(x.right), [OpPiece(x.op)];
    assert Pieces(Some(x)) == a + b + c;
    RenderOperator(x.op);
    RenderThree(a, b, c);
  }

  /** The postfix text is the text of its pieces written out one after the other. */
  lemma {:induction false} PostfixIsRenderedPieces(e: Option<Entity>)
    ensures GetPostfix(e) == Render(Pieces(e))
    decreases e
  {
    match e
    case None =>
      assert [NullPiece][1..] == [];
      assert NullText + "" == NullText;
    case Some(x) =>
      if x.Compound? {
        PostfixIsRenderedPieces(x.left);
        PostfixIsRenderedPieces(x.right);
        PostfixCompound(x);
      } else {
        RenderLeaf(x);
      }
  }

  // ---------------------------------------------------------------- reading the pieces back

  /**
   * The stack machine that reads reverse Polish order: a missing node or a
   * leaf is pushed, an operator pops its right and then its left operand
   * and pushes the node it makes of them; None when an operator finds
   * fewer than two operands.
   */
  function Rebuild(ps: seq<Piece>, stack: seq<Option<Entity>>): Option<seq<Option<Entity>>>
    decreases |ps|
  {
    if ps == [] then Some(stack)
    else match ps[0]
      case NullPiece => Rebuild(ps[1..], stack + [None])
      case Leaf(x) => Rebuild(ps[1..], stack + [Some(x)])
      case OpPiece(t) =>
        if |stack| < 2 then None
        else Rebuild(ps[1..], stack[..|stack| - 2] + [Some(Compound(t, stack[|stack| - 2], stack[|stack| - 1]))])
  }

  /** Reading the pieces of a tree pushes exactly that tree, whatever is below it. */
  lemma {:induction false} RebuildPieces(e: Option<Entity>, rest: seq<Piece>, stack: seq<Option<Entity>>)
    ensures Rebuild(Pieces(e) + rest, stack) == Rebuild(rest, stack + [e])
    decreases e
  {
    match e
    case None =>
      assert ([NullPiece] + rest)[1..] == rest;
    case Some(x) =>
      if x.Compound? {
        var pl, pr := Pieces(x.left), Pieces(x.right);
        assert Pieces(e) + rest == pl + (pr + ([OpPiece(x.op)] + rest));
        RebuildPieces(x.left, pr + ([OpPiece(x.op)] + rest), stack);
        RebuildPieces(x.right, [OpPiece(x.op)] + rest, stack + [x.left]);
        var s2 := stack + [x.left] + [x.right];
        assert s2[..|s2| - 2] == stack && s2[|s2| - 2] == x.left && s2[|s2| - 1] == x.right;
        assert ([OpPiece(x.op)] + rest)[1..] == rest;
        assert Compound(x.op, x.left, x.right) == x;
      } else {
        assert ([Leaf(x)] + rest)[1..] == rest;
      }
  }

  /** The pieces of the postfix text determine the tree they came from. */
  lemma PostfixRoundTrip(e: Option<Entity>)
    ensures Rebuild(Pieces(e), []) == Some([e])
  {
    RebuildPieces(e, [], []);
    assert Pieces(e) + [] == Pieces(e);
    assert [] + [e] == [e];
  }

  /** The pieces of two different trees differ. */
  lemma PiecesInjective(e: Option<Entity>, f: Option<Entity>)
    requires Pieces(e) == Pieces(f)
    ensures e == f
  {
    PostfixRoundTrip(e);
    PostfixRoundTrip(f);
  }

  /** The text of a compound node with two unsigned numbers below it. */
  lemma PostfixOfPair(t: OperatorType, x: string, y: string)
    ensures GetPostfix(Some(Compound(t, Some(Literal(x, false)), Some(Literal(y, false))))) == Ok(x + y + OperatorString(t))
  {
    assert GetPostfix(Some(Literal(x, false))) == Ok(x);
    assert GetPostfix(Some(Literal(y, false))) == Ok(y);
  }

  /**
   * The text alone does not: the values of neighbouring leaves run
   * together, so 12+3 and 1+23 both render as "123+".
   */
  lemma PostfixTextAmbiguous()
    ensures GetPostfix(Some(Compound(ArithmeticAdd, Some(Literal("12", false)), Some(Literal("3", false))))) == Ok("123+")
    ensures GetPostfix(Some(Compound(ArithmeticAdd, Some(Literal("1", false)), Some(Literal("23", false))))) == Ok("123+")
  {
    PostfixOfPair(ArithmeticAdd, "12", "3");
    PostfixOfPair(ArithmeticAdd, "1", "23");
    assert "12" + "3" + "+" == "123+";
    assert "1" + "23" + "+" == "123+";
  }

  /** The tree of 2+(3*4) renders as "234*+". */
  lemma PostfixOfSumTree()
    ensures GetPostfix(Some(Compound(ArithmeticAdd, Some(Literal("2", false)),
                                     Some(Compound(ArithmeticMul, Some(Literal("3", false)), Some(Literal("4", false)))))))
         == Ok("234*+")
  {
    var product := Compound(ArithmeticMul, Some(Literal("3", false)), Some(Literal("4", false)));
    PostfixOfPair(ArithmeticMul, "3", "4");
    assert GetPostfix(Some(Literal("2", false))) == Ok("2");
    var tree := Compound(ArithmeticAdd, Some(Literal("2", false)), Some(product));
    assert GetPostfix(Some(tree)) == Ok("2" + ("3" + "4" + "*") + "+");
    assert "2" + ("3" + "4" + "*") + "+" == "234*+";
  }

  /** The line "2+3*4" renders as "234*+". */
  lemma PostfixOfSumOfProduct()
    ensures Parsed("2+3*4").Ok? && GetPostfix(Some(Parsed("2+3*4").value)) == Ok("234*+")
  {
    SumOfProduct();
    PostfixOfSumTree();
  }

  /** A group renders by its infix GetString, and a missing child takes its slot as "[NULL]". */
  lemma PostfixOfGroupAndMissingChild()
    ensures GetPostfix(Some(Compound(ArithmeticMul,
                                     Some(Parenthesis(Compound(ArithmeticAdd, Some(Literal("1", false)), Some(Literal("2", false))), true)),
                                     None)))
         == Ok("-(1+2)[NULL]*")
  {
    var sum := Compound(ArithmeticAdd, Some(Literal("1", false)), Some(Literal("2", false)));
    assert GetString(sum) == Ok("1" + "+" + "2");
    assert "1" + "+" + "2" == "1+2";
    assert "-(" + "1+2" + ")" == "-(1+2)";
    assert GetString(Parenthesis(sum, true)) == Ok("-(" + "1+2" + ")");
    assert GetPostfix(Some(Parenthesis(sum, true))) == Ok("-(1+2)");
    assert GetPostfix(Some(Compound(ArithmeticMul, Some(Parenthesis(sum, true)), None))) == Ok("-(1+2)" + NullText + "*");
    assert "-(1+2)" + NullText + "*" == "-(1+2)[NULL]*";
  }
}

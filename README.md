# A verified model of the are-we-ast-yet calculator core

This project models, in Dafny, the expression front end and the tree-walking
evaluator of a small calculator language. The language has numbers, symbols,
parenthesised groups with an optional leading sign, the seven binary operators
`+ - * / % ^ =`, and named directives (stored expression trees).

The model has four parts:

- **Entities** (`errors.dfy`, `tiered.dfy`, `names.dfy`, `entities.dfy`,
  `single_values.dfy`, `arguments.dfy`). The AST node classes form one closed
  datatype `Entities.Entity`, with one constructor per class that the
  parser, the interpreter and the tests build. The fixed operator tables (character, precedence,
  associativity, rendering) are in `Tiered`. The regular expressions that
  validate names and numbers are written out as predicates in `Names`. Each
  exception class is one tag of `Errors.Error`, and a thrown exception is the
  `Err` side of a `Result`.
- **The one-pass parser** (`lexical.dfy`, with its proofs in
  `lexical_proofs.dfy`, `line_reading.dfy`, `whitespace.dfy` and
  `lexical_cases.dfy`).
  `Lexical.Parse` is an imperative method. Its loop scans the line with the
  pending text buffer and the `HEAD`/`TMP`/`ENT` variables of the source, and
  a nested level-counting loop finds the end of each group. It is proved equal
  to the specification function `Lexical.Parsed`. The splices `LeftAssociate`
  and `RightAssociate` are recursive functions over the right spine of the
  tree. The proofs cover these facts:
  - every failure is a SyntaxError;
  - whitespace never matters;
  - a successful parse has balanced parentheses;
  - its tree respects precedence and associativity at every node;
  - the splices keep the left-to-right order of operands and operators;
  - the tree's left-to-right reading is the line's own sequence of words,
    groups and operators (`LineReading.Tokens`), and the tree is the only
    ordered tree with that reading;
  - whole example lines parse as expected, including the error cases.
- **The evaluator** (`interpreter.dfy`). `Interpreter.AstInterpreter` is a
  class with the symbol map and the directive map as fields. Its `Resolve*`
  methods are proved equal to the specification function
  `Interpreter.Evaluated`. The number type is a type parameter `V`. Its
  operations are function values in an `Arithmetic<V>` record; they stand for
  the double arithmetic and the text-to-number conversion.
- **The postfix renderer** (`postfix.dfy`). `Postfix.GetPostfix` is proved to
  write out the pieces of the tree in reverse Polish order. Those pieces
  determine the tree.

Notes on the code's behaviour:
- C++ leaves the order of the two operand evaluations of an arithmetic node
  unspecified. The model evaluates the left child first, then the right one,
  for every operator (see "## Left out").
- `Resolve` returns the value. The `.cpp` files keep no operand stack,
  reserve no names and define no comparison built-ins.
- Assigning to a name that `SetSymbol` refuses raises ValueError.
- An invalid directive name raises NotFound.
- The parser never builds a call node. Text in front of `(` must be empty or
  a single `-`.
- The parser compares operators against an `OPERATOR_NONE` that the operator
  enumeration does not declare. The model reads it as the unset value
  `OPERATOR_INVALID`.

## Model

| member | source | states |
|---|---|---|
| Tiered.Operator | entities/tiered_entity.cpp:3-21 | exactly the seven characters `+ - * / % ^ =` name an operator, each one of the seven binary operators; every other character gives OPERATOR_INVALID |
| Tiered.Precedence | entities/tiered_entity.cpp:23-58 | values lie in -1..4; -1 exactly for the tags that are neither binary operators nor PARENTHESIS; every binary operator is at least 1 |
| Tiered.Associative | entities/tiered_entity.cpp:60-95 | right-associative exactly for POW and SET; ASSOC_INVALID exactly for OPERATOR_INVALID |
| Tiered.OperatorString | entities/tiered_entity.cpp:101-133 | a binary operator renders as one operator character; every other tag renders as a longer label |
| Tiered.OperatorStringRoundTrip | entities/tiered_entity.cpp:3-21 | rendering the operator read from an operator character gives back that one-character string |
| Tiered.OperatorRoundTrip | entities/tiered_entity.cpp:101-133 | reading the rendering of a binary operator gives back that operator |
| Tiered.SamePrecedenceSameAssociativity | entities/tiered_entity.cpp:23-95 | two binary operators of equal precedence have the same associativity, which the splices rely on |
| Tiered.ParenthesisBindsTightest | entities/tiered_entity.cpp:46-47 | a group's precedence is below that of every binary operator |
| Entities.GetType | entities/entity.cpp:4-6 | each concrete kind reports its own tag, and only the bare base classes report INVALID_ENTITY |
| Entities.GetTypeString | entities/entity.cpp:8-29 | the invalid label is given exactly to the base classes and to callers, which the switch has no case for |
| Entities.TypeStringDistinct | entities/entity.cpp:8-29 | two different kinds with a known label never share it |
| Entities.GetString | entities/entity.cpp:31-33 | rendering succeeds exactly when no bare base Entity is reached; otherwise it raises the plain exception |
| Entities.SetOperator | entities/tiered_entity.cpp:143-145 | a compound node keeps its children and takes the new operator, which GetOperator then returns; a group raises the plain exception |
| Entities.SetOperatorRendersCharacter | entities/tiered_entity.cpp:101-145 | after setting the operator read from an operator character, GetOperatorString is that character |
| Entities.UnsetOperator | entities/tiered_entity.cpp:55-56 | an unset operator renders as UNKNOWN_OPERATOR, has precedence -1 and ASSOC_INVALID |
| Entities.GetOperatorPrecedence | entities/parenthesis_entity.cpp:20-22 | a group's precedence is 0; a compound node's is the table value of its operator |
| Entities.NewDefaultCompound | entities/compound_entity.cpp:5 | the default compound node has no children and the unset operator |
| Entities.CompoundSet | entities/compound_entity.cpp:48-64 | Set succeeds exactly for null or a child whose type is not INVALID_ENTITY; then Get of that side returns the child and the other side and the operator are unchanged; otherwise ValueError |
| Entities.NewCompound | entities/compound_entity.cpp:7-11 | the node has the given operator and children, or ValueError when a child has type INVALID_ENTITY |
| Entities.CompoundString | entities/compound_entity.cpp:31-46 | the infix rendering is left text, operator text, right text, with NULL for a missing child |
| Entities.NewParenthesis | entities/parenthesis_entity.cpp:7-10 | the group holds the given child and sign, has type PARENTHESIS_ENTITY and precedence 0 |
| Entities.ParenthesisSet | entities/parenthesis_entity.cpp:28-30 | Get returns the new child and the sign is unchanged |
| Entities.ParenthesisString | entities/parenthesis_entity.cpp:24-26 | a group renders as `(child)`, or `-(child)` when negative |
| SingleValues.GetValue | entities/single_value_entity.cpp:7-9 | the value with `-` in front exactly when the sign flag is set |
| SingleValues.GetAbsValue | entities/single_value_entity.cpp:7-13 | the stored value whatever the sign, which is GetValue without its leading `-` when the flag is set |
| SingleValues.SetValue | entities/operand_entity.cpp:22-31 | for each kind: success exactly for a string its validator accepts, storing it without one leading `-` and setting the flag for `-` (an unsigned string keeps the old flag); the stored value is never empty and never starts with `-`; otherwise ValueError, and the bare single-value class always raises the plain exception |
| SingleValues.UnsignedValueKeepsFlag | entities/operand_entity.cpp:22-27 | a value without `-` does not clear a flag that is already set |
| SingleValues.NewOperand | entities/operand_entity.cpp:9-11 | an operand can be built exactly from a valid operand string, and GetValue gives back that string; otherwise ValueError |
| SingleValues.NewLiteral | entities/literal_entity.cpp:7-9 | a literal can be built exactly from a valid number string, and GetValue gives back that string; otherwise ValueError |
| SingleValues.NewCaller | entities/caller_entity.cpp:7 | construction delegates to the operand constructor, so it accepts exactly the operand strings |
| SingleValues.NewFunction | entities/function_entity.cpp:7 | construction uses the operand rule and starts with no arguments |
| SingleValues.CallerConstructionIsLooser | entities/caller_entity.cpp:7-27 | a caller can be built from `a_b`, which its own SetValue refuses |
| SingleValues.NegatedStringIsNoName | entities/single_value_entity.cpp:3-5 | a negated value renders as `(-v)`, which is no valid symbol name |
| Names.OperandLiteralDisjoint | entities/literal_entity.cpp:11-14 | no string is both a valid operand and a valid literal |
| Names.CallerValidIsOperandValid | entities/caller_entity.cpp:9-12 | every valid caller or function name is a valid operand name |
| Names.WordTailChars | entities/operand_entity.cpp:13-16 | the operand name tail is exactly a run of letters, digits and `_` |
| Names.NameExamples | entities/operand_entity.cpp:13-16 | `-inf` and `a_b` are operands, `inf`, `nan`, `--a`, the empty string and `-` are not; `a_b` is no caller name, `_a` is one |
| Names.NumberExamples | entities/literal_entity.cpp:11-14 | `inf`, `nan`, `12` and `-1.25` are literals; `-inf`, `.5` and `5.` are not |
| Names.TwoPointsExample | entities/literal_entity.cpp:11-14 | `1.2.3` is not a literal |
| Arguments.HasArguments | entities/function_entity.cpp:33-35 | holds exactly when the argument count is positive |
| Arguments.AddArgument | entities/function_entity.cpp:37-39 | the count grows by one, earlier arguments are unchanged and the new one is last |
| Arguments.PopArgument | entities/function_entity.cpp:41-46 | on a non-empty list, returns the last argument and removes only it; on an empty list, out_of_range |
| Arguments.PopAfterAdd | entities/function_entity.cpp:37-46 | popping right after adding gives back the added argument and the entity as it was |
| Arguments.GetArguments | entities/function_entity.cpp:48-54 | the loop returns the arguments in insertion order |
| Arguments.ClearArguments | entities/function_entity.cpp:56-60 | the loop leaves no arguments and the name and sign unchanged |
| Lexical.GetEntityFrom | lexical.cpp:5-15 | success exactly for a valid operand or literal string; the operand test wins; GetValue gives back the text; otherwise SyntaxError |
| Lexical.FindClose | lexical.cpp:52-66 | a closing index found is a `)` at or after the start |
| Lexical.FindCloseMatches | lexical.cpp:52-66 | the `)` found is the matching one: the level stays positive up to it and it brings the level to zero; when none is found the level stays positive to the end of the line |
| Lexical.ScanGroup | lexical.cpp:38-66 | the level-counting loop stops with level 0 exactly at the `)` that closes the group, where the level first reaches zero, and only when there is one; otherwise the level stays positive to the end of the line |
| Lexical.Splice | lexical.cpp:217-229 | the spine walk keeps the root's operator and left child |
| Lexical.LeftAssociate | lexical.cpp:209-231 | when the root's precedence is at most the new node's, the new node is the root with the old root on its left; otherwise the root keeps its operator and left child |
| Lexical.RightAssociate | lexical.cpp:233-255 | the root is replaced only when its precedence is strictly lower; otherwise the walk continues through equal precedence |
| Lexical.LeftAssociateFlatten | lexical.cpp:209-231 | LeftAssociate keeps left-to-right order: the old tree's operands and operators, then the new node's |
| Lexical.RightAssociateFlatten | lexical.cpp:233-255 | RightAssociate keeps left-to-right order likewise |
| Lexical.LeftAssociateOrdered | lexical.cpp:209-231 | splicing a left-associative node into a tree that respects precedence and associativity keeps that property |
| Lexical.RightAssociateOrdered | lexical.cpp:233-255 | splicing a right-associative node keeps it too |
| Lexical.SpliceOrdered | lexical.cpp:217-229 | the spine walk stops where the new node fits below its parent and the displaced subtree fits below it |
| Lexical.Shift | lexical.cpp:108-139 | the operator branch leaves the scan state consistent, with no pending operand or text |
| Lexical.ShiftOperator | lexical.cpp:108-137 | the imperative operator branch computes the same state as the specification's step |
| Lexical.GroupOf | lexical.cpp:37-88 | a group parses only when its `)` is found, and then it is a parenthesis node |
| Lexical.ParseGroup | lexical.cpp:37-88 | the `(` branch: text before it other than empty or `-` is a SyntaxError, an unclosed group or a pending group is a SyntaxError, and the inner text is parsed recursively and negated after `-` |
| Lexical.Step | lexical.cpp:25-143 | each iteration moves forward and keeps the scan state consistent |
| Lexical.Finish | lexical.cpp:145-158 | with no operator read, the end of the line makes of the pending text exactly what GetEntityFrom makes of it; it fails only when the pending operand does |
| Lexical.Complete | lexical.cpp:145-204 | the code after the loop computes the specification's final step |
| Lexical.Parse | lexical.cpp:17-207 | the imperative parser returns exactly Parsed(code), the specification's scan of the line |
| LexicalProofs.ParsedErrorKind | lexical.cpp:12-158 | every error the parser raises is a SyntaxError |
| LexicalProofs.ParsedBalanced | lexical.cpp:32-86 | a line that parses has as many `(` as `)` |
| LexicalProofs.ParsedWellFormed | lexical.cpp:108-137 | a parsed tree has both children and one of the seven operators at every compound node, every child fits its parent's precedence and associativity, and every leaf is a valid symbol, a valid number or a well-formed group |
| LexicalProofs.InsertWellFormed | lexical.cpp:118-131 | inserting a completed node keeps the tree well formed and appends the node's operator and operand to its left-to-right order |
| LexicalProofs.OrderedUnique | lexical.cpp:209-255 | two trees that respect precedence and associativity and have the same left-to-right order are equal |
| LineReading.TokensOfSpacedLine | lexical.cpp:25-143 | `2 + -x` has the pieces `2`, `+`, `-x` |
| LineReading.TokensOfGroupLine | lexical.cpp:37-99 | `-(1)z*y` has the pieces `-(1)`, `*`, `y`: the text `z` after the group is dropped |
| LineReading.ParsedReadsTokens | lexical.cpp:17-207 | a successful parse reads as its line: its tree's tokens stand one for one for the line's pieces (`Tokens`: whitespace skipped, a `-` with nothing read yet kept as a sign, a group's text between its `(` and matching `)`, text after a group dropped), each word for the value GetEntityFrom makes of it and each group for the parse of its text |
| LineReading.ParsedIsTheOrderedTree | lexical.cpp:17-207 | the parse is the only tree that respects precedence and associativity and reads as the line's pieces |
| Whitespace.ParsedStripped | lexical.cpp:29-31 | a line parses exactly like the same line with every space, tab and newline removed |
| LexicalCases.SpacedNumber | lexical.cpp:29-31 | `1 2` parses as the literal 12 |
| LexicalCases.ParsedSingleValue | lexical.cpp:145-158 | a line without operators, groups or whitespace is the single value GetEntityFrom makes of it |
| LexicalCases.SignedSingleValue | lexical.cpp:91-95 | a leading `-` is a sign, kept in the value's flag |
| LexicalCases.BinaryLine | lexical.cpp:89-137 | `x c y` and `x c -y` parse as one node exactly when both operands are valid |
| LexicalCases.TernaryLine | lexical.cpp:114-131 | `x c1 y c2 z` is the first node with the second inserted by its associativity |
| LexicalCases.PlainGroup | lexical.cpp:37-88 | `(x)` and `-(x)` are groups whose flag records the sign |
| LexicalCases.TextAfterGroupDropped | lexical.cpp:97-99 | text between a closed group and the end of the line is dropped: `(x)z` parses as `(x)` |
| LexicalCases.BlankLineFails | lexical.cpp:152-158 | an empty or blank line is a SyntaxError |
| LexicalCases.EmptyGroupFails | lexical.cpp:78 | `()` is a SyntaxError |
| LexicalCases.LeadingOperatorFails | lexical.cpp:97-99 | an operator other than `-` at the start of a line is a SyntaxError |
| LexicalCases.StrayCloseFails | lexical.cpp:32-36 | a `)` after text with as many `(` as `)` is one no group scan consumes, and the line is a SyntaxError whatever follows |
| LexicalCases.LeadingCloseFails | lexical.cpp:32-36 | a `)` at the start of a line is a SyntaxError |
| LexicalCases.UnbalancedFails | lexical.cpp:70-74 | a line with unbalanced parentheses, such as an unclosed `(`, is a SyntaxError |
| LexicalCases.TrailingOperatorFails | lexical.cpp:174-184 | an operator at the end of a line is a SyntaxError |
| LexicalCases.GroupRefusedInScan | lexical.cpp:43-74 | wherever a `(` is read, pending text other than nothing or `-`, or a group result already pending, makes the line a SyntaxError: this covers `1+a(3)`, `-a(3)`, `(1+2)(3)` and `1+(2)(3)` |
| LexicalCases.TextBeforeGroupFails | lexical.cpp:43-49 | at the start of a line, plain text (no operator, space or parenthesis) right before `(`, as in `a(3)` or `2(3)`, is a SyntaxError |
| LexicalCases.GroupAfterGroupFails | lexical.cpp:70-74 | at the start of a line, a group with plain text inside right before another `(`, as in `(2)(3)`, is a SyntaxError |
| LexicalCases.SumOfProduct | lexical.cpp:209-231 | `2+3*4` parses as 2+(3*4) |
| LexicalCases.ProductThenSum | lexical.cpp:209-231 | `2*3+4` parses as (2*3)+4 |
| LexicalCases.DifferenceChain | lexical.cpp:209-231 | `1-2-3` parses as (1-2)-3 |
| LexicalCases.PowerChain | lexical.cpp:233-255 | `2^3^2` parses as 2^(3^2) |
| LexicalCases.AssignmentChain | lexical.cpp:233-255 | `a=b=5` parses as a=(b=5) |
| Interpreter.AstInterpreter.constructor | interpreter.cpp:11-18 | a new interpreter has empty symbol and directive maps |
| Interpreter.AstInterpreter.Resolve | interpreter.cpp:106-131 | the result and new symbols are those of Evaluated: null is ValueError, kinds other than the four resolvable ones are TypeError; directives do not change |
| Interpreter.AstInterpreter.ResolveParenthesis | interpreter.cpp:133-140 | the child's value, negated when the group is |
| Interpreter.AstInterpreter.ResolveCompound | interpreter.cpp:142-181 | arithmetic on the left then the right value; `=` needs an operand on the left (else InvalidOperation), evaluates the right, binds it and returns it; any other operator is InvalidOperation |
| Interpreter.AstInterpreter.ResolveOperand | interpreter.cpp:183-186 | the stored value of the unsigned name, negated when the operand is; NotFound when it is unbound |
| Interpreter.AstInterpreter.ResolveLiteral | interpreter.cpp:188-197 | the number read from the unsigned text, negated when the literal is; ValueError when it cannot be read |
| Interpreter.AstInterpreter.SymbolExists | interpreter.cpp:199-211 | holds exactly when the name is bound |
| Interpreter.AstInterpreter.SetSymbol | interpreter.cpp:213-218 | a valid operand name is bound to the value and nothing else changes; any other name is ValueError and nothing changes |
| Interpreter.AstInterpreter.GetSymbol | interpreter.cpp:220-228 | the stored value; a missing name gives zero when ignored and NotFound otherwise |
| Interpreter.AstInterpreter.DirectiveExists | interpreter.cpp:230-242 | holds exactly when the name has an entry, empty or not |
| Interpreter.AstInterpreter.SetDirective | interpreter.cpp:244-257 | an invalid name is NotFound; an empty body stores an empty entry; a failed parse changes nothing; a successful one replaces the old entry; symbols never change |
| Interpreter.AstInterpreter.CallDirective | interpreter.cpp:259-270 | an empty entry is InvalidOperation; a missing one is NotFound, or nothing when ignored; a stored tree is evaluated against the current symbols; directives never change |
| Interpreter.NoAssignmentKeepsSymbols | interpreter.cpp:142-181 | a tree without `=` leaves the symbol map unchanged, whatever it raises |
| Interpreter.OnlyTargetsChange | interpreter.cpp:166-174 | evaluation never unbinds a name and changes only names on the left of the tree's `=` nodes |
| Interpreter.WellFormedHasNoTypeError | interpreter.cpp:112-128 | a tree the parser can produce never raises TypeError |
| Interpreter.WellFormedValue | interpreter.cpp:142-197 | a parsed tree without `=` has a value exactly when every symbol it reads is bound and every number in it can be read; otherwise the error is NotFound or ValueError |
| Interpreter.ParsedLineHasNoTypeError | interpreter.cpp:106-131 | a line that parses never raises TypeError when resolved |
| Interpreter.AssignToNonOperand | interpreter.cpp:166-174 | `=` with anything but an operand on its left is InvalidOperation before its right side runs |
| Interpreter.NegatedTargetAlwaysFails | interpreter.cpp:166-174 | assigning to any negated name raises ValueError once the right side is evaluated, because the name is `(-v)`; the symbols are those the right side left |
| Interpreter.NegatedTargetFails | interpreter.cpp:166-174 | the tree of `-a=5` raises ValueError, because the name it binds is `(-a)` |
| Interpreter.ChainedAssignment | interpreter.cpp:166-174 | `a=b=5` binds b and then a to five and yields five |
| Postfix.GetPostfix | ast.cpp:14-34 | null renders as `[NULL]`; a node that is not compound renders by its GetString; rendering fails exactly when some node reached is a bare Entity |
| Postfix.PostfixIsRenderedPieces | ast.cpp:20-32 | the text is left postfix, right postfix, then the operator, piece by piece |
| Postfix.PostfixRoundTrip | ast.cpp:14-34 | reading the pieces back on a stack rebuilds the tree |
| Postfix.PiecesInjective | ast.cpp:14-34 | two different trees never have the same pieces |
| Postfix.PostfixTextAmbiguous | ast.cpp:32 | the text alone is ambiguous: 12+3 and 1+23 both render as `123+` |
| Postfix.PostfixOfSumOfProduct | ast.cpp:20-32 | the line `2+3*4` renders as `234*+` |
| Postfix.PostfixOfGroupAndMissingChild | ast.cpp:17-30 | a group renders infix inside, and a missing child renders as `[NULL]` in its slot |

## Left out

- Entity nodes are values, so changing one builds a new node. The model has
  no in-place update, no aliasing between nodes, and no ownership or deletion
  (`CLEANUP`, destructors, the `delete` calls in `SetDirective` and
  `ClearArguments`).
- Lexical.LeftAssociate and Lexical.RightAssociate are recursive functions
  over the right spine. They are not `for(;;)` loops relinking pointers in
  place.
- Interpreter.AstInterpreter.ResolveLiteral: the numbers are an abstract type
  `V`. `literal` stands for the `istringstream` conversion, and the
  arithmetic (`fmod`, `pow`, IEEE doubles) is uninterpreted. No numeric
  result beyond what these operations give is stated.
- C++ does not fix the order in which the two children of an arithmetic node
  are evaluated. The model picks left then right. The order matters through
  assignments inside the operands, and for which error is raised when both
  children raise: with `b` unbound, `b+inf` raises NotFound left first and
  ValueError right first, because the number conversion cannot read `inf`.
- A null left child of `=` is undefined behaviour in C++ (it is
  dereferenced). The model reports InvalidOperation.
- A bare `TieredEntity` can be instantiated in C++ (entities/tiered_entity.hpp
  declares no pure virtual member), and its `GetType` would be
  INVALID_ENTITY. `Entities.Entity` has no constructor for it, because the
  parser, the interpreter and the tests never build one.
- A default-constructed group has no child in C++. The model's group always
  has one, as every group the parser builds does.
- `ASTInterpreter::Run`, its regular-expression line dispatch, the include
  branch that reads files, and the verbose logging are not modelled. They
  depend on `std::regex` capture rules and on I/O.
- The stack-based interface declared in `interpreter.hpp`, the operand stack,
  the reserved names `_` and `__`, the comparison built-ins, and call syntax
  in the parser are not modelled. The `.cpp` files modelled here implement
  none of them.
- `TestSuite`, `REPL` and `main` in `ast.cpp` are not modelled. They are
  stream reading and printing.
- Exception messages are not modelled, only the exception class. The
  `catch (ASTException *ex)` handlers in the parser never match the by-value
  throws, so the model lets each error propagate.
- The label strings of `GetTypeString` are abstract distinct constants. The
  constants the source uses are not declared in `entities/entity.hpp`.

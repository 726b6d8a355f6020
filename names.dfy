/**
 * The string validators of the single-value entities, written out from the
 * regular expressions they use (each is matched against the whole string).
 */
module Names {

  predicate IsLetter(c: char) { 'A' <= c <= 'Z' || 'a' <= c <= 'z' }

  predicate IsDigit(c: char) { '0' <= c <= '9' }

  /** [A-Za-z0-9_]* */
  predicate WordTail(s: string) {
    s == [] || ((IsLetter(s[0]) || IsDigit(s[0]) || s[0] == '_') && WordTail(s[1..]))
  }

  /** [A-Za-z0-9]* */
  predicate AlnumTail(s: string) {
    s == [] || ((IsLetter(s[0]) || IsDigit(s[0])) && AlnumTail(s[1..]))
  }

  /** [0-9]* */
  predicate Digits(s: string) {
    s == [] || (IsDigit(s[0]) && Digits(s[1..]))
  }

  /** [A-Za-z_][A-Za-z0-9_]* */
  predicate Identifier(s: string) {
    |s| > 0 && (IsLetter(s[0]) || s[0] == '_') && WordTail(s[1..])
  }

  /** [A-Za-z_][A-Za-z0-9]* */
  predicate CallerIdentifier(s: string) {
    |s| > 0 && (IsLetter(s[0]) || s[0] == '_') && AlnumTail(s[1..])
  }

  /** The length of the run of digits that s starts with. */
  function DigitRun(s: string): (k: nat)
    ensures k <= |s|
    ensures forall i :: 0 <= i < k ==> IsDigit(s[i])
    ensures k < |s| ==> !IsDigit(s[k])
  {
    if s != [] && IsDigit(s[0]) then 1 + DigitRun(s[1..]) else 0
  }

  /** [0-9]+(\.[0-9]+){0,1} */
  predicate Number(s: string) {
    var k := DigitRun(s);
    k > 0 && (k == |s| || (s[k] == '.' && k + 1 < |s| && Digits(s[k + 1..])))
  }

  /** An optional single '-' in front of a pattern: the regex prefix -{0,1}. */
  predicate Negated(s: string) { |s| > 0 && s[0] == '-' }

  /** OperandEntity::IsValid: -{0,1}[A-Za-z_][A-Za-z0-9_]*, but not the exact strings inf and nan. */
  predicate OperandValid(s: string) {
    s != "inf" && s != "nan" && (Identifier(s) || (Negated(s) && Identifier(s[1..])))
  }

  /** LiteralEntity::IsValid: inf, nan, or -{0,1}[0-9]+(\.[0-9]+){0,1}. */
  predicate LiteralValid(s: string) {
    s == "inf" || s == "nan" || Number(s) || (Negated(s) && Number(s[1..]))
  }

  /** CallerEntity::IsValid: like an operand, but no '_' after the first character. */
  predicate CallerValid(s: string) {
    s != "inf" && s != "nan" && (CallerIdentifier(s) || (Negated(s) && CallerIdentifier(s[1..])))
  }

  /** FunctionEntity::IsValid repeats the caller's pattern. */
  predicate FunctionValid(s: string) {
    CallerValid(s)
  }

  /** The pattern SetDirective checks a directive name against. */
  predicate DirectiveName(s: string) {
    Identifier(s)
  }

  /** The quantified reading of the character-class tails. */
  lemma {:induction false} WordTailChars(s: string)
    ensures WordTail(s) <==> forall i :: 0 <= i < |s| ==> IsLetter(s[i]) || IsDigit(s[i]) || s[i] == '_'
  {
    if s != [] {
      WordTailChars(s[1..]);
      assert forall i :: 1 <= i < |s| ==> s[i] == s[1..][i - 1];
    }
  }

  lemma {:induction false} AlnumTailIsWordTail(s: string)
    requires AlnumTail(s)
    ensures WordTail(s)
  {
    if s != [] {
      AlnumTailIsWordTail(s[1..]);
    }
  }

  /** A literal starts with a digit, after at most one '-'; an operand starts with a letter or '_'. */
  lemma OperandLiteralDisjoint(s: string)
    ensures !(OperandValid(s) && LiteralValid(s))
  {
    NumberStartsWithDigit(s);
    if Negated(s) {
      NumberStartsWithDigit(s[1..]);
    }
  }

  lemma NumberStartsWithDigit(s: string)
    ensures Number(s) ==> |s| > 0 && IsDigit(s[0])
  {
    if Number(s) {
      assert DigitRun(s) > 0;
    }
  }

  /** The caller pattern accepts a subset of the operand pattern. */
  lemma CallerValidIsOperandValid(s: string)
    requires CallerValid(s)
    ensures OperandValid(s)
  {
    if CallerIdentifier(s) {
      AlnumTailIsWordTail(s[1..]);
    } else {
      AlnumTailIsWordTail(s[1..][1..]);
    }
  }

  /** What the operand and caller patterns accept and reject at their edges. */
  lemma NameExamples()
    ensures OperandValid("-inf") && !OperandValid("inf") && !OperandValid("nan")
    ensures OperandValid("a_b") && !CallerValid("a_b") && CallerValid("_a")
    ensures !OperandValid("--a") && !OperandValid("") && !OperandValid("-")
    ensures !CallerValid("inf") && !CallerValid("nan")
  {
  }

  /** What the literal pattern accepts and rejects at its edges. */
  lemma NumberExamples()
    ensures LiteralValid("inf") && LiteralValid("nan") && !LiteralValid("-inf")
    ensures LiteralValid("12") && LiteralValid("-1.25")
    ensures !LiteralValid(".5") && !LiteralValid("5.")
  {
    assert ".5"[0] == '.';
    assert DigitRun("5.") == 1;
    assert DigitRun("1.25") == 1 by {
      assert DigitRun(".25") == 0;
    }
  }

  /** At most one fractional part. */
  lemma TwoPointsExample()
    ensures !LiteralValid("1.2.3")
  {
    assert DigitRun("1.2.3") == 1;
    assert DigitRun("2.3") == 1;
  }
}

/**
 * The parser drops space, tab and newline wherever they occur, even in the
 * middle of a name or a number and inside groups: a line parses exactly as
 * the same line with all whitespace removed.
 */
module Whitespace {
  import opened Errors
  import opened Entities
  import opened Lexical

  /** The line without its whitespace characters. */
  function Strip(s: string): (r: string)
    ensures |r| <= |s|
  {
    if s == [] then [] else (if IsWhitespace(s[0]) then [] else [s[0]]) + Strip(s[1..])
  }

  lemma {:induction false} StripConcat(x: string, y: string)
    ensures Strip(x + y) == Strip(x) + Strip(y)
  {
    if x == [] {
      assert x + y == y;
    } else {
      assert (x + y)[0] == x[0];
      assert (x + y)[1..] == x[1..] + y;
      StripConcat(x[1..], y);
    }
  }

  lemma {:induction false} StripClean(s: string)
    requires forall k :: 0 <= k < |s| ==> !IsWhitespace(s[k])
    ensures Strip(s) == s
  {
    if s != [] {
      StripClean(s[1..]);
    }
  }

  /** Where index i of a + [w] + b lands once w is removed. */
  function Shifted(a: string, i: nat): nat {
    if i <= |a| then i else i - 1
  }

  /** The matching ')' is found at the same place, shifted, once w is removed. */
  lemma {:induction false} FindCloseSkip(a: string, w: char, b: string, k: nat, level: nat)
    requires IsWhitespace(w) && k <= |a| + 1 + |b| && level >= 1
    ensures FindClose(a + [w] + b, k, level).Some? <==> FindClose(a + b, Shifted(a, k), level).Some?
    ensures FindClose(a + [w] + b, k, level).Some? ==>
              FindClose(a + [w] + b, k, level).value != |a|
              && FindClose(a + b, Shifted(a, k), level).value == Shifted(a, FindClose(a + [w] + b, k, level).value)
    decreases |a| + 1 + |b| - k
  {
    var code, code' := a + [w] + b, a + b;
    if k < |code| {
      if k == |a| {
        assert code[k] == w;
        FindCloseSkip(a, w, b, k + 1, level);
      } else {
        assert code[k] == code'[Shifted(a, k)];
        var next := if code[k] == '(' then level + 1 else if code[k] == ')' then level - 1 else level;
        if next != 0 {
          FindCloseSkip(a, w, b, k + 1, next);
        }
      }
    }
  }

  /** The text of a group that does not start or end at w parses the same once w is removed. */
  lemma {:induction false} InnerSkip(a: string, w: char, b: string, i: nat, k: nat)
    requires IsWhitespace(w) && i < k < |a| + 1 + |b| && i != |a| && k != |a|
    ensures Parsed((a + [w] + b)[i + 1..k]) == Parsed((a + b)[Shifted(a, i) + 1..Shifted(a, k)])
    decreases |a| + 1 + |b|, 0, 0
  {
    var code, code' := a + [w] + b, a + b;
    if i < |a| && k > |a| {
      var a1, b1 := a[i + 1..], b[..k - |a| - 1];
      assert code[i + 1..k] == a1 + [w] + b1;
      assert code'[i + 1..k - 1] == code'[i + 1..|a|] + code'[|a|..k - 1];
      assert code'[i + 1..|a|] == a1;
      assert code'[|a|..k - 1] == b1;
      ParsedSkip(a1, w, b1);
    } else {
      assert code[i + 1..k] == code'[Shifted(a, i) + 1..Shifted(a, k)];
    }
  }

  /** A group opened away from w closes at the shifted place and parses the same. */
  lemma {:induction false} GroupSkip(a: string, w: char, b: string, i: nat, ent: Option<Entity>, buf: string)
    requires IsWhitespace(w) && i < |a| + 1 + |b| && i != |a| && (a + [w] + b)[i] == '('
    ensures (a + b)[Shifted(a, i)] == '('
    ensures GroupOf(a + [w] + b, i, ent, buf) == GroupOf(a + b, Shifted(a, i), ent, buf)
    ensures GroupOf(a + [w] + b, i, ent, buf).Ok? ==>
              FindClose(a + b, Shifted(a, i) + 1, 1).value + 1
              == Shifted(a, FindClose(a + [w] + b, i + 1, 1).value + 1)
    decreases |a| + 1 + |b|, 0, 1
  {
    var code, code' := a + [w] + b, a + b;
    var i' := Shifted(a, i);
    assert code[i] == code'[i'];
    assert Shifted(a, i + 1) == i' + 1;
    FindCloseSkip(a, w, b, i + 1, 1);
    var r := FindClose(code, i + 1, 1);
    if r.Some? {
      InnerSkip(a, w, b, i, r.value);
    }
  }

  /** One iteration away from w reads the same character and leaves the same state. */
  lemma {:induction false} StepSkip(a: string, w: char, b: string, i: nat, st: ScanState)
    requires IsWhitespace(w) && i < |a| + 1 + |b| && i != |a| && Consistent(st)
    ensures Step(a + [w] + b, i, st).Err? <==> Step(a + b, Shifted(a, i), st).Err?
    ensures Step(a + [w] + b, i, st).Err? ==> Step(a + [w] + b, i, st).error == Step(a + b, Shifted(a, i), st).error
    ensures Step(a + [w] + b, i, st).Ok? ==>
              Step(a + b, Shifted(a, i), st).value
              == (Shifted(a, Step(a + [w] + b, i, st).value.0), Step(a + [w] + b, i, st).value.1)
    decreases |a| + 1 + |b|, 1, 0
  {
    var code, code' := a + [w] + b, a + b;
    assert code[i] == code'[Shifted(a, i)];
    if code[i] == '(' {
      GroupSkip(a, w, b, i, st.ent, st.buf);
    }
  }

  lemma {:induction false} ScannedSkip(a: string, w: char, b: string, i: nat, st: ScanState)
    requires IsWhitespace(w) && i <= |a| + 1 + |b| && Consistent(st)
    ensures Scanned(a + [w] + b, i, st) == Scanned(a + b, Shifted(a, i), st)
    decreases |a| + 1 + |b|, 2, |a| + 1 + |b| - i
  {
    var code := a + [w] + b;
    if i < |code| {
      if i == |a| {
        assert code[i] == w;
        ScannedSkip(a, w, b, i + 1, st);
      } else {
        StepSkip(a, w, b, i, st);
        if Step(code, i, st).Ok? {
          var (j, next) := Step(code, i, st).value;
          ScannedSkip(a, w, b, j, next);
        }
      }
    }
  }

  /** Removing one whitespace character does not change the parse. */
  lemma {:induction false} ParsedSkip(a: string, w: char, b: string)
    requires IsWhitespace(w)
    ensures Parsed(a + [w] + b) == Parsed(a + b)
    decreases |a| + 1 + |b|, 3, 0
  {
    ScannedSkip(a, w, b, 0, Start());
  }

  /** A line parses exactly as the line with every space, tab and newline removed. */
  lemma {:induction false} ParsedStripped(code: string)
    ensures Parsed(code) == Parsed(Strip(code))
    decreases |code|
  {
    if forall k :: 0 <= k < |code| ==> !IsWhitespace(code[k]) {
      StripClean(code);
    } else {
      var p :| 0 <= p < |code| && IsWhitespace(code[p]);
      var a, b := code[..p], code[p + 1..];
      assert code == a + [code[p]] + b;
      ParsedSkip(a, code[p], b);
      ParsedStripped(a + b);
      assert Strip([code[p]]) == [];
      calc {
        Strip(code);
        Strip(a + [code[p]] + b);
        { StripConcat(a + [code[p]], b); }
        Strip(a + [code[p]]) + Strip(b);
        { StripConcat(a, [code[p]]); }
        Strip(a) + Strip(b);
        { StripConcat(a, b); }
        Strip(a + b);
      }
    }
  }

  /** "1 2" is read as "12". */
  lemma SpaceInsideNumber()
    ensures Strip("1 2") == "12"
  {
  }
}

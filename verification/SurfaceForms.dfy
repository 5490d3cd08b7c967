/** The line patterns as the texts they stand for. */
module SurfaceForms {
  import opened Wrappers
  import opened CclPolicy
  import opened Text
  import opened SurfaceSyntax
  import opened SurfaceLines

  ghost predicate AllBlank(s: string) { forall i :: 0 <= i < |s| ==> IsSpace(s[i]) }

  /** One or more blanks. */
  ghost predicate Blanks(s: string) { s != [] && AllBlank(s) }

  ghost predicate Solid(s: string) { s != [] && !IsSpace(s[0]) }

  lemma {:induction false} SpaceLenOf(x: string, rest: string)
    requires AllBlank(x) && (rest == [] || !IsSpace(rest[0]))
    ensures SpaceLen(x + rest) == |x|
  {
    if x == [] {
      assert x + rest == rest;
    } else {
      assert (x + rest)[1..] == x[1..] + rest;
      SpaceLenOf(x[1..], rest);
    }
  }

  lemma {:induction false} SpaceLenPrefix(s: string)
    ensures AllBlank(s[..SpaceLen(s)])
    ensures SpaceLen(s) < |s| ==> !IsSpace(s[SpaceLen(s)])
  {
    if s != [] && IsSpace(s[0]) {
      SpaceLenPrefix(s[1..]);
      assert s[..SpaceLen(s)] == [s[0]] + s[1..][..SpaceLen(s[1..])];
    }
  }

  lemma SkipBlanks(x: string, rest: string)
    requires AllBlank(x) && Solid(rest)
    ensures (x + rest)[SpaceLen(x + rest)..] == rest && SpaceLen(x + rest) == |x|
    ensures x != [] ==> DropSpaces(x + rest) == Some(rest)
  {
    SpaceLenOf(x, rest);
    assert (x + rest)[|x|..] == rest;
  }

  lemma IdentIsSolid(w: string, rest: string)
    requires IsIdent(w)
    ensures Solid(w) && Solid(w + rest)
  {
    WordIsNoSpace(w[0]);
  }

  lemma DropSpacesMeans(s: string) returns (x: string)
    requires DropSpaces(s).Some?
    ensures Blanks(x) && s == x + DropSpaces(s).value
  {
    x := s[..SpaceLen(s)];
    SpaceLenPrefix(s);
  }

  lemma TakeWordMeans(s: string)
    requires TakeWord(s).Some?
    ensures IsIdent(TakeWord(s).value.0) && s == TakeWord(s).value.0 + TakeWord(s).value.1
  {
    WordLenPrefix(s);
  }

  lemma BlankEndsWord(x: string, rest: string)
    requires Blanks(x)
    ensures !IsWord((x + rest)[0])
  {
    if IsWord(x[0]) { WordIsNoSpace(x[0]); }
  }

  // ----- policy NAME vVERSION --------------------------------------------------------------------

  ghost predicate IsPolicyLine(line: string, name: string, version: string, x: string, y: string) {
    && Blanks(x) && Blanks(y) && IsIdent(name) && version != [] && !HasSpace(version)
    && line == "policy" + (x + (name + (y + ("v" + version))))
  }

  lemma PolicyForm(line: string, name: string, version: string)
    ensures MatchPolicy(line) == Some((name, version)) <==> exists x, y :: IsPolicyLine(line, name, version, x, y)
  {
    hide MatchPolicy, IsPolicyLine;
    if MatchPolicy(line) == Some((name, version)) {
      var x, y := PolicyMeans(line, name, version);
    }
    if x, y :| IsPolicyLine(line, name, version, x, y) { PolicyMatches(line, name, version, x, y); }
  }

  lemma PolicyMeans(line: string, name: string, version: string) returns (x: string, y: string)
    requires MatchPolicy(line) == Some((name, version))
    ensures IsPolicyLine(line, name, version, x, y)
  {
    hide IsSpace, IsWord, SpaceLen, WordLen, DropSpaces, TakeWord, HasSpace, AllBlank, IsIdent;
    var a := DropPrefix("policy", line).value;
    assert line == "policy" + a;
    x := DropSpacesMeans(a);
    var b := DropSpaces(a).value;
    TakeWordMeans(b);
    var c := TakeWord(b).value.1;
    y := DropSpacesMeans(c);
    var d := DropSpaces(c).value;
    assert d == "v" + version;
  }

  lemma PolicyMatches(line: string, name: string, version: string, x: string, y: string)
    requires IsPolicyLine(line, name, version, x, y)
    ensures MatchPolicy(line) == Some((name, version))
  {
    hide IsWord, SpaceLen, WordLen, DropSpaces, TakeWord, HasSpace, AllBlank, IsIdent;
    var d := "v" + version;
    assert Solid(d);
    hide IsSpace, Solid;
    DropPrefixOf("policy", x + (name + (y + d)));
    IdentIsSolid(name, y + d);
    SkipBlanks(x, name + (y + d));
    BlankEndsWord(y, d);
    TakeWordOf(name, y + d);
    SkipBlanks(y, d);
    DropPrefixOf("v", version);
  }

  // ----- KEYWORD NAME(PARAMS): -------------------------------------------------------------------

  ghost predicate IsHeadLine(keyword: string, line: string, name: string, params: seq<string>, x: string,
                             inner: string) {
    && Blanks(x) && IsIdent(name) && ')' !in inner && params == SplitArgs(inner)
    && line == keyword + (x + (name + ("(" + (inner + "):"))))
  }

  lemma {:induction false} ParenAtMeans(s: string)
    ensures ')' !in s[..ParenAt(s)]
  {
    if s != [] && s[0] != ')' {
      ParenAtMeans(s[1..]);
      assert s[..ParenAt(s)] == [s[0]] + s[1..][..ParenAt(s[1..])];
    }
  }

  lemma HeadForm(keyword: string, line: string, name: string, params: seq<string>)
    ensures MatchHead(keyword, line) == Some((name, params)) <==>
            exists x, inner :: IsHeadLine(keyword, line, name, params, x, inner)
  {
    hide MatchHead, IsHeadLine;
    if MatchHead(keyword, line) == Some((name, params)) {
      var x, inner := HeadMeans(keyword, line, name, params);
    }
    if x, inner :| IsHeadLine(keyword, line, name, params, x, inner) {
      HeadMatches(keyword, line, name, params, x, inner);
    }
  }

  lemma HeadMeans(keyword: string, line: string, name: string, params: seq<string>) returns (x: string, inner: string)
    requires MatchHead(keyword, line) == Some((name, params))
    ensures IsHeadLine(keyword, line, name, params, x, inner)
  {
    hide IsSpace, IsWord, SpaceLen, WordLen, DropSpaces, TakeWord, AllBlank, IsIdent, SplitArgs, ParenAt;
    var a := DropPrefix(keyword, line).value;
    assert line == keyword + a;
    x := DropSpacesMeans(a);
    var b := DropSpaces(a).value;
    TakeWordMeans(b);
    var c := TakeWord(b).value.1;
    var rest := DropPrefix("(", c).value;
    assert c == "(" + rest;
    inner := rest[..ParenAt(rest)];
    ParenAtMeans(rest);
    assert rest == inner + "):";
  }

  lemma HeadMatches(keyword: string, line: string, name: string, params: seq<string>, x: string, inner: string)
    requires IsHeadLine(keyword, line, name, params, x, inner)
    ensures MatchHead(keyword, line) == Some((name, params))
  {
    var rest := inner + "):";
    assert !IsWord('(') && ("(" + rest)[0] == '(';
    hide IsSpace, IsWord, SpaceLen, WordLen, DropSpaces, TakeWord, AllBlank, IsIdent, SplitArgs, ParenAt, Solid;
    DropPrefixOf(keyword, x + (name + ("(" + rest)));
    IdentIsSolid(name, "(" + rest);
    SkipBlanks(x, name + ("(" + rest));
    TakeWordOf(name, "(" + rest);
    DropPrefixOf("(", rest);
    ParenAtEnd(inner, "):");
    assert rest[..|inner|] == inner && rest[|inner|..] == "):";
  }

  // ----- KEYWORD VAR where -------------------------------------------------------------------------

  ghost predicate IsExistsLine(keyword: string, line: string, v: string, x: string, y: string) {
    Blanks(x) && Blanks(y) && IsIdent(v) && line == keyword + (x + (v + (y + "where")))
  }

  lemma ExistsForm(keyword: string, line: string, v: string)
    ensures MatchExistential(keyword, line) == Some(v) <==> exists x, y :: IsExistsLine(keyword, line, v, x, y)
  {
    if MatchExistential(keyword, line) == Some(v) {
      var a := DropPrefix(keyword, line).value;
      var x := DropSpacesMeans(a);
      var b := DropSpaces(a).value;
      TakeWordMeans(b);
      var y := DropSpacesMeans(TakeWord(b).value.1);
      assert IsExistsLine(keyword, line, v, x, y);
    }
    if x, y :| IsExistsLine(keyword, line, v, x, y) {
      var d := "where";
      DropPrefixOf(keyword, x + (v + (y + d)));
      IdentIsSolid(v, y + d);
      SkipBlanks(x, v + (y + d));
      BlankEndsWord(y, d);
      TakeWordOf(v, y + d);
      SkipBlanks(y, d);
    }
  }

  // ----- V1, V2, ... where -------------------------------------------------------------------------

  /** Names separated by commas with blanks around them as one likes. */
  ghost predicate IsVarList(s: string, vars: seq<string>)
    decreases |vars|
  {
    && vars != [] && IsIdent(vars[0])
    && if |vars| == 1 then exists y :: Blanks(y) && s == vars[0] + (y + "where")
       else exists x, y, rest :: IsVarCons(s, vars[0], x, y, rest) && IsVarList(rest, vars[1..])
  }

  ghost predicate IsVarCons(s: string, v: string, x: string, y: string, rest: string) {
    AllBlank(x) && AllBlank(y) && s == v + (x + ("," + (y + rest)))
  }

  lemma LastVarMatches(s: string, v: string, y: string)
    requires IsIdent(v) && Blanks(y) && s == v + (y + "where")
    ensures MatchVars(s) == Some([v]) && Solid(s)
  {
    assert Solid("where") && !IsWord((y + "where")[0]) by { BlankEndsWord(y, "where"); }
    hide IsSpace, IsWord, WordLen, TakeWord, AllBlank, IsIdent;
    IdentIsSolid(v, y + "where");
    TakeWordOf(v, y + "where");
    SkipBlanks(y, "where");
  }

  lemma CommaTail(x: string, y: string, rest: string)
    requires AllBlank(x)
    ensures var tail := "," + (y + rest);
            Solid(tail) && !IsWord((x + tail)[0]) && tail[0] == ',' && tail[1..] == y + rest
  {
    var tail := "," + (y + rest);
    if x != [] { BlankEndsWord(x, tail); } else { assert x + tail == tail; }
  }

  lemma NextVarMatches(s: string, v: string, x: string, y: string, rest: string, vars: seq<string>)
    requires IsIdent(v) && IsVarCons(s, v, x, y, rest) && Solid(rest) && MatchVars(rest) == Some(vars)
    ensures MatchVars(s) == Some([v] + vars) && Solid(s)
  {
    hide IsSpace, IsWord, WordLen, SpaceLen, TakeWord, AllBlank, IsIdent, Solid;
    var tail := "," + (y + rest);
    CommaTail(x, y, rest);
    IdentIsSolid(v, x + tail);
    TakeWordOf(v, x + tail);
    SkipBlanks(x, tail);
    SkipBlanks(y, rest);
  }

  lemma {:induction false} VarsMatch(s: string, vars: seq<string>)
    requires IsVarList(s, vars)
    ensures MatchVars(s) == Some(vars) && Solid(s)
    decreases |vars|
  {
    hide MatchVars, Solid, IsIdent;
    var v := vars[0];
    if |vars| == 1 {
      var y :| Blanks(y) && s == v + (y + "where");
      LastVarMatches(s, v, y);
      assert vars == [v];
    } else {
      var x, y, rest :| IsVarCons(s, v, x, y, rest) && IsVarList(rest, vars[1..]);
      VarsMatch(rest, vars[1..]);
      NextVarMatches(s, v, x, y, rest, vars[1..]);
      assert [v] + vars[1..] == vars;
    }
  }

  lemma {:induction false} VarsMean(s: string)
    requires MatchVars(s).Some?
    ensures IsVarList(s, MatchVars(s).value)
    decreases |s|
  {
    hide IsSpace, IsWord, WordLen, TakeWord, AllBlank, IsIdent, SpaceLen;
    TakeWordMeans(s);
    var (v, a) := TakeWord(s).value;
    var x, b := a[..SpaceLen(a)], a[SpaceLen(a)..];
    SpaceLenPrefix(a);
    assert a == x + b;
    if b != [] && b[0] == ',' {
      var c := b[1..];
      var y, rest := c[..SpaceLen(c)], c[SpaceLen(c)..];
      SpaceLenPrefix(c);
      WordNotEmpty(s);
      VarsMean(rest);
      assert b == "," + (y + rest);
      assert IsVarCons(s, v, x, y, rest);
      var vars := [v] + MatchVars(rest).value;
      assert vars[1..] == MatchVars(rest).value;
      assert IsVarList(s, vars);
    } else {
      assert Blanks(x) && s == v + (x + "where");
      assert IsVarList(s, [v]);
    }
  }

  lemma WordNotEmpty(s: string)
    requires TakeWord(s).Some?
    ensures |TakeWord(s).value.1| < |s|
  {
  }

  ghost predicate IsCountLine(line: string, vars: seq<string>, x: string, rest: string) {
    Blanks(x) && IsVarList(rest, vars) && line == "count_distinct" + (x + rest)
  }

  lemma CountForm(line: string, vars: seq<string>)
    ensures MatchCount(line) == Some(vars) <==> exists x, rest :: IsCountLine(line, vars, x, rest)
  {
    hide MatchVars, IsVarList;
    if MatchCount(line) == Some(vars) {
      var a := DropPrefix("count_distinct", line).value;
      var x := DropSpacesMeans(a);
      VarsMean(DropSpaces(a).value);
      assert IsCountLine(line, vars, x, DropSpaces(a).value);
    }
    if x, rest :| IsCountLine(line, vars, x, rest) {
      VarsMatch(rest, vars);
      DropPrefixOf("count_distinct", x + rest);
      SkipBlanks(x, rest);
    }
  }

  // ----- OP NUMBER ---------------------------------------------------------------------------------

  ghost predicate IsCompareLine(line: string, op: Comparator, n: nat, x: string, digits: string) {
    && Blanks(x) && digits != [] && AllDigits(digits) && n == Decimal(digits)
    && (op == Ge ==> line == ">=" + (x + digits)) && (op == Gt ==> line == ">" + (x + digits))
    && (op == Eq ==> line == "==" + (x + digits)) && (op == Le ==> line == "<=" + (x + digits))
    && (op == Lt ==> line == "<" + (x + digits)) && op != Unsupported
  }

  lemma ThresholdForm(op: Comparator, rest: string, n: nat)
    ensures MatchThreshold(op, rest) == Some((op, n)) <==>
            exists x, digits :: Blanks(x) && digits != [] && AllDigits(digits) && n == Decimal(digits)
                && rest == x + digits
  {
    hide Decimal;
    if MatchThreshold(op, rest) == Some((op, n)) {
      var x := DropSpacesMeans(rest);
      var digits := DropSpaces(rest).value;
      assert Blanks(x) && digits != [] && AllDigits(digits) && n == Decimal(digits) && rest == x + digits;
    }
    if x, digits :| Blanks(x) && digits != [] && AllDigits(digits) && n == Decimal(digits) && rest == x + digits {
      WordIsNoSpace(digits[0]);
      SkipBlanks(x, digits);
    }
  }

  lemma CompareForm(line: string, op: Comparator, n: nat)
    ensures MatchCompare(line) == Some((op, n)) <==> exists x, digits :: IsCompareLine(line, op, n, x, digits)
  {
    hide MatchThreshold, Decimal;
    if MatchCompare(line) == Some((op, n)) {
      var k := if op == Ge || op == Le || op == Eq then 2 else 1;
      CompareOp(line, op, n);
      ThresholdForm(op, line[k..], n);
      var x, digits :| Blanks(x) && digits != [] && AllDigits(digits) && n == Decimal(digits)
          && line[k..] == x + digits;
      assert line == line[..k] + line[k..];
      assert IsCompareLine(line, op, n, x, digits);
    }
    if x, digits :| IsCompareLine(line, op, n, x, digits) {
      var k := if op == Ge || op == Le || op == Eq then 2 else 1;
      assert line[k..] == x + digits && line[k] == x[0] && IsSpace(line[k]);
      ThresholdForm(op, line[k..], n);
      CompareDispatch(line, op);
    }
  }

  /** Which comparator a line begins with decides how it is read. */
  lemma CompareDispatch(line: string, op: Comparator)
    requires op == Ge ==> |line| > 2 && line[0] == '>' && line[1] == '='
    requires op == Le ==> |line| > 2 && line[0] == '<' && line[1] == '='
    requires op == Eq ==> |line| > 2 && line[0] == '=' && line[1] == '='
    requires op == Gt ==> |line| > 1 && line[0] == '>' && IsSpace(line[1])
    requires op == Lt ==> |line| > 1 && line[0] == '<' && IsSpace(line[1])
    requires op != Unsupported
    ensures MatchCompare(line) == MatchThreshold(op, line[if op == Ge || op == Le || op == Eq then 2 else 1..])
  {
    assert !IsSpace('=');
    hide IsSpace, MatchThreshold;
    assert ">=" <= line <==> line[0] == '>' && line[1] == '=' by { assert |line| > 1; }
    assert "<=" <= line <==> line[0] == '<' && line[1] == '=';
    assert "==" <= line <==> line[0] == '=' && line[1] == '=';
    assert ">" <= line <==> line[0] == '>';
    assert "<" <= line <==> line[0] == '<';
  }

  lemma CompareOp(line: string, op: Comparator, n: nat)
    requires MatchCompare(line) == Some((op, n))
    ensures op != Unsupported
    ensures var k := if op == Ge || op == Le || op == Eq then 2 else 1;
            k <= |line| && MatchThreshold(op, line[k..]) == Some((op, n))
            && line[..k] == (match op case Ge => ">=" case Le => "<=" case Eq => "==" case Gt => ">" case _ => "<")
  {
    ThresholdKeepsOp(line);
  }

  lemma ThresholdKeepsOp(line: string)
    ensures forall op, rest :: MatchThreshold(op, rest).Some? ==> MatchThreshold(op, rest).value.0 == op
  {
  }

  // ----- PRED(ARGS) --------------------------------------------------------------------------------

  ghost predicate IsAtomLine(line: string, p: string, args: seq<Value>, inner: string) {
    && IsIdent(p) && !HasLineBreak(inner) && args == CanonicalArgs(SplitArgs(inner))
    && line == p + ("(" + (inner + ")"))
  }

  lemma AtomForm(line: string, p: string, args: seq<Value>)
    ensures MatchAtomLine(line) == Some(Atom(p, args)) <==> exists inner :: IsAtomLine(line, p, args, inner)
  {
    hide SplitArgs, CanonicalArgs;
    if MatchAtomLine(line) == Some(Atom(p, args)) {
      TakeWordMeans(line);
      var b := DropPrefix("(", TakeWord(line).value.1).value;
      assert b == b[..|b| - 1] + ")";
      assert IsAtomLine(line, p, args, b[..|b| - 1]);
    }
    if inner :| IsAtomLine(line, p, args, inner) {
      var b := inner + ")";
      TakeWordOf(p, "(" + b);
      DropPrefixOf("(", b);
      assert b[..|b| - 1] == inner;
    }
  }

  // ----- Arguments ---------------------------------------------------------------------------------

  /** Trimming takes the blanks off both ends and nothing else. */
  lemma {:induction false} TrimMeans(s: string) returns (x: string, y: string)
    ensures s == x + Trim(s) + y && AllBlank(x) && AllBlank(y) && Tight(Trim(s))
  {
    TrimTight(s);
    x := TrimStartMeans(s);
    y := TrimEndMeans(TrimStart(s));
  }

  lemma {:induction false} TrimStartMeans(s: string) returns (x: string)
    ensures s == x + TrimStart(s) && AllBlank(x)
  {
    x := [];
    if s != [] && IsSpace(s[0]) {
      var rest := TrimStartMeans(s[1..]);
      x := [s[0]] + rest;
    }
  }

  lemma {:induction false} TrimEndMeans(s: string) returns (y: string)
    ensures s == TrimEnd(s) + y && AllBlank(y)
  {
    y := [];
    if s != [] && IsSpace(s[|s| - 1]) {
      var rest := TrimEndMeans(s[..|s| - 1]);
      y := rest + [s[|s| - 1]];
    }
  }

  /** Splitting at commas: piece by piece, blanks around pieces and empty pieces
      dropped. */
  lemma SplitArgsOfPiece(piece: string)
    requires ',' !in piece
    ensures SplitArgs(piece) == if Trim(piece) == [] then [] else [Trim(piece)]
  {
    hide Trim;
    SplitNone(piece, ',');
    assert [piece][1..] == [];
    assert TrimAll([]) == [];
  }

  lemma SplitArgsAtComma(piece: string, rest: string)
    requires ',' !in piece
    ensures SplitArgs(piece + "," + rest) == SplitArgs(piece) + SplitArgs(rest)
  {
    SplitArgsOfPiece(piece);
    SplitPrefix(piece, rest, ',');
    assert ([piece] + Split(rest, ','))[1..] == Split(rest, ',');
  }

  /** An argument is a variable when it is a word that begins with a capital letter, a
      number when it is digits with or without a minus sign, and itself otherwise. */
  lemma ArgumentMeans(s: string)
    ensures var isWord := forall i :: 0 <= i < |s| ==>
                            ('a' <= s[i] <= 'z') || ('A' <= s[i] <= 'Z') || ('0' <= s[i] <= '9') || s[i] == '_';
            var digits := if |s| > 0 && s[0] == '-' then s[1..] else s;
            var isNumber := |digits| > 0 && forall i :: 0 <= i < |digits| ==> '0' <= digits[i] <= '9';
            if |s| > 0 && 'A' <= s[0] <= 'Z' && isWord then ToCanonicalArg(s) == Str("$" + s)
            else if isNumber then
              AllDigits(digits)
                  && ToCanonicalArg(s) == Num(if s[0] == '-' then -(Decimal(digits) as int) else Decimal(digits))
            else ToCanonicalArg(s) == Str(s)
  {
    hide Decimal;
    assert IsCapitalized(s) <==> |s| > 0 && 'A' <= s[0] <= 'Z' && AllWord(s);
  }

  /** The indent of a line is the number of spaces before anything else; a tab is
      something else. */
  lemma {:induction false} IndentMeans(s: string)
    ensures forall i :: 0 <= i < Indent(s) ==> s[i] == ' '
    ensures Indent(s) < |s| ==> s[Indent(s)] != ' '
  {
    if s != [] && s[0] == ' ' {
      IndentMeans(s[1..]);
      assert forall i :: 0 < i < |s| ==> s[i] == s[1..][i - 1];
    }
  }

  /** Digits are read in base ten. */
  lemma DecimalMeans(digits: string, c: char)
    requires AllDigits(digits) && '0' <= c <= '9'
    ensures AllDigits(digits + [c]) && Decimal([]) == 0
    ensures Decimal(digits + [c]) == 10 * Decimal(digits) + (c as nat - '0' as nat)
  {
    assert (digits + [c])[..|digits|] == digits;
  }
}

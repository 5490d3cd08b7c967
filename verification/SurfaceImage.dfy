/** The compiler's image, and the round trip on whole source texts. */
module SurfaceImage {
  import opened Wrappers
  import opened CclPolicy
  import opened Text
  import opened SurfaceSyntax
  import opened SurfaceLines
  import opened SurfaceRoundTrip

  // ----- Lines of a text ---------------------------------------------------------------

  /** A line that survives being written into a text: no newline inside, no CR last. */
  predicate IsClean(line: string) {
    line != [] && '\n' !in line && line[|line| - 1] != '\r'
  }

  predicate AllClean(lines: seq<string>) {
    forall i :: 0 <= i < |lines| ==> IsClean(lines[i])
  }

  predicate NoCrLf(s: string) {
    forall i :: 0 <= i < |s| - 1 ==> !(s[i] == '\r' && s[i + 1] == '\n')
  }

  lemma {:induction false} UnixLinesIdentity(s: string)
    requires NoCrLf(s)
    ensures UnixLines(s) == s
  {
    if s != [] {
      UnixLinesIdentity(s[1..]);
      assert [s[0]] + s[1..] == s;
    }
  }

  lemma {:induction false} JoinedHasNoCrLf(lines: seq<string>)
    requires AllClean(lines)
    ensures NoCrLf(Join(lines, "\n"))
    ensures lines != [] ==> Join(lines, "\n") != [] && Join(lines, "\n")[0] == lines[0][0]
  {
    if |lines| == 1 {
      assert IsClean(lines[0]);
    } else if |lines| > 1 {
      var head, rest := lines[0], Join(lines[1..], "\n");
      assert IsClean(head);
      JoinedHasNoCrLf(lines[1..]);
      var s := head + "\n" + rest;
      forall i | 0 <= i < |s| - 1 ensures !(s[i] == '\r' && s[i + 1] == '\n') {
        if i > |head| {
          assert s[i] == rest[i - |head| - 1] && s[i + 1] == rest[i - |head|];
        } else if i < |head| - 1 {
          assert s[i + 1] == head[i + 1];
        }
      }
    }
  }

  lemma TextRoundTrip(lines: seq<string>)
    requires AllClean(lines) && lines != []
    ensures Split(UnixLines(Join(lines, "\n")), '\n') == lines
  {
    JoinedHasNoCrLf(lines);
    UnixLinesIdentity(Join(lines, "\n"));
    assert "\n" == ['\n'];
    SplitJoin(lines, '\n');
  }

  // ----- Printed lines are clean ---------------------------------------------------------

  lemma TightIsClean(core: string, indent: nat)
    requires core != [] && Tight(core) && '\n' !in core
    ensures IsClean(Spaces(indent) + core)
  {
    SpacesAreBlank(indent);
    var line := Spaces(indent) + core;
    assert line[|line| - 1] == core[|core| - 1];
  }

  lemma {:induction false} SpacesAreBlank(n: nat)
    ensures forall c :: c in Spaces(n) ==> c == ' '
  {
    if n > 0 { SpacesAreBlank(n - 1); }
  }

  lemma IdentHasNoNewline(s: string)
    requires AllWord(s)
    ensures '\n' !in s
  {
  }

  lemma VarsHaveNoNewline(vars: seq<string>)
    requires AllIdents(vars)
    ensures '\n' !in VarsText(vars)
  {
    var text := Join(vars, ", ");
    if '\n' in text {
      JoinChars(vars, ", ", '\n');
      var i :| 0 <= i < |vars| && '\n' in vars[i];
      IdentHasNoNewline(vars[i]);
    }
  }

  lemma AtomIsClean(p: string, args: seq<Value>, indent: nat)
    requires WellFormedCondition(Atom(p, args))
    ensures IsClean(Spaces(indent) + AtomText(p, args))
  {
    AtomRoundTrip(p, args);
    ArgsRoundTrip(args);
    IdentHasNoNewline(p);
    var inner := Join(PrintArgs(args), ", ");
    assert '\n' !in inner;
    TightIsClean(AtomText(p, args), indent);
  }

  lemma CompareIsClean(op: Comparator, value: real, indent: nat)
    requires op != Unsupported && value >= 0.0 && value.Floor as real == value
    ensures IsClean(Spaces(indent) + CompareText(op, value))
  {
    CompareRoundTrip(op, value);
    var digits := Digits(value.Floor);
    assert '\n' !in digits by { assert AllDigits(digits); }
    TightIsClean(CompareText(op, value), indent);
  }

  lemma CountIsClean(vars: seq<string>, indent: nat)
    requires vars != [] && AllIdents(vars)
    ensures IsClean(Spaces(indent) + CountText(vars))
  {
    hide MatchCount, VarsText, Tight, AllIdents;
    CountRoundTrip(vars);
    VarsHaveNoNewline(vars);
    assert '\n' !in "count_distinct";
    TightIsClean(CountText(vars), indent);
  }

  lemma ExistsIsClean(keyword: string, vars: seq<string>, indent: nat)
    requires |vars| == 1 && IsIdent(vars[0]) && keyword != [] && !IsSpace(keyword[0]) && '\n' !in keyword
    ensures IsClean(Spaces(indent) + ExistsText(keyword, vars))
  {
    assert vars == [vars[0]];
    ExistentialRoundTrip(keyword, vars[0]);
    VarsHaveNoNewline(vars);
    TightIsClean(ExistsText(keyword, vars), indent);
  }

  lemma {:induction false} ConditionsAreClean(conds: seq<Condition>, indent: nat)
    requires WellFormedConditions(conds)
    ensures AllClean(PrintConditions(conds, indent))
    decreases conds
  {
    if conds != [] {
      ConditionIsClean(conds[0], indent);
      ConditionsAreClean(conds[1..], indent);
    }
  }

  lemma {:induction false} ConditionIsClean(c: Condition, indent: nat)
    requires WellFormedCondition(c)
    ensures AllClean(PrintCondition(c, indent))
    decreases c
  {
    hide IsClean, AtomText, ExistsText, CountText, CompareText;
    match c
    case Atom(p, args) => AtomIsClean(p, args, indent);
    case Exists(vars, body) => ExistsIsClean("exists", vars, indent); ConditionsAreClean(body, indent + 2);
    case NotExists(vars, body) => ExistsIsClean("not exists", vars, indent); ConditionsAreClean(body, indent + 2);
    case CountDistinct(vars, body, op, value) =>
      CountIsClean(vars, indent);
      CompareIsClean(op, value, indent);
      ConditionsAreClean(body, indent + 2);
  }

  lemma HeadIsClean(keyword: string, e: Entry)
    requires WellFormedEntry(e) && keyword != [] && !IsSpace(keyword[0]) && '\n' !in keyword
    ensures IsClean(HeadText(keyword, e))
  {
    HeadRoundTrip(keyword, e);
    IdentHasNoNewline(e.name);
    var params := Join(e.params, ", ");
    if '\n' in params {
      JoinChars(e.params, ", ", '\n');
    }
    var line := HeadText(keyword, e);
    assert line[|line| - 1] == ':';
  }

  lemma {:induction false} EntriesAreClean(keyword: string, entries: seq<Entry>)
    requires forall i :: 0 <= i < |entries| ==> WellFormedEntry(entries[i])
    requires keyword != [] && !IsSpace(keyword[0]) && '\n' !in keyword
    ensures AllClean(PrintEntries(keyword, entries))
  {
    hide IsClean, HeadText, PrintConditions;
    if entries != [] {
      HeadIsClean(keyword, entries[0]);
      ConditionsAreClean(entries[0].all, 2);
      EntriesAreClean(keyword, entries[1..]);
    }
  }

  lemma HeaderIsClean(name: string, version: string)
    requires IsIdent(name) && WellFormedVersion(version)
    ensures IsClean(PolicyText(name, version))
  {
    hide MatchPolicy, Tight;
    IdentHasNoNewline(name);
    assert '\n' !in version && version[|version| - 1] != '\r';
    var line := PolicyText(name, version);
    assert line[|line| - 1] == version[|version| - 1];
  }

  /** Compiling the printed text of an expressible policy gives that policy. */
  lemma PrintCompile(p: Policy)
    requires WellFormed(p)
    ensures CompileText(PrintPolicy(p)) == Some(p)
  {
    hide CompileLines, PrintEntries, IsClean, PolicyText;
    var lines := PrintLines(p);
    EntriesAreClean("rule", p.rules);
    EntriesAreClean("decision", p.decisions);
    if p.policy.Some? { HeaderIsClean(p.policy.value, p.version.value); }
    LinesRoundTrip(p);
    if lines == [] {
      BlankText();
    } else {
      TextRoundTrip(lines);
    }
  }

  lemma BlankText()
    ensures CompileText(Join([], "\n")) == CompileLines([], EMPTY_POLICY)
  {
    var lines: seq<string> := [[]];
    assert UnixLines([]) == [];
    assert Split([], '\n') == lines;
    assert lines[1..] == [];
    assert Trim([]) == [];
  }

  // ----- What the compiler can produce -----------------------------------------------------

  lemma {:induction false} TrimAllParts(parts: seq<string>, i: nat)
    requires i < |TrimAll(parts)|
    ensures exists k :: 0 <= k < |parts| && TrimAll(parts)[i] == Trim(parts[k]) && Trim(parts[k]) != []
  {
    if Trim(parts[0]) == [] {
      TrimAllParts(parts[1..], i);
      var k :| 0 <= k < |parts| - 1 && TrimAll(parts[1..])[i] == Trim(parts[1..][k]) && Trim(parts[1..][k]) != [];
      assert parts[k + 1] == parts[1..][k];
    } else if i > 0 {
      TrimAllParts(parts[1..], i - 1);
      var k :| 0 <= k < |parts| - 1 && TrimAll(parts[1..])[i - 1] == Trim(parts[1..][k]) && Trim(parts[1..][k]) != [];
      assert parts[k + 1] == parts[1..][k];
    }
  }

  /** Every argument piece is non-empty, trimmed, free of commas and part of the text. */
  lemma SplitArgsParts(s: string, i: nat)
    requires i < |SplitArgs(s)|
    ensures IsPart(SplitArgs(s)[i])
    ensures forall c :: c in SplitArgs(s)[i] ==> c in s
  {
    var pieces := Split(s, ',');
    TrimAllParts(pieces, i);
    var k :| 0 <= k < |pieces| && SplitArgs(s)[i] == Trim(pieces[k]) && Trim(pieces[k]) != [];
    SplitPieces(s, ',');
    TrimTight(pieces[k]);
  }

  lemma CanonicalArgIsWellFormed(s: string)
    requires IsPart(s) && !HasLineBreak(s)
    ensures WellFormedArg(ToCanonicalArg(s))
  {
    if IsCapitalized(s) {
      var v := "$" + s;
      assert v[0] == '$' && v[|v| - 1] == s[|s| - 1];
      forall i | 0 <= i < |v| ensures !IsLineBreak(v[i]) && v[i] != ',' {
        if i > 0 { assert v[i] == s[i - 1]; }
      }
    }
  }

  lemma TakeWordIsIdent(s: string)
    requires TakeWord(s).Some?
    ensures IsIdent(TakeWord(s).value.0)
  {
    WordLenPrefix(s);
  }

  lemma AtomIsWellFormed(line: string)
    requires MatchAtomLine(line).Some?
    ensures WellFormedCondition(MatchAtomLine(line).value)
  {
    TakeWordIsIdent(line);
    var b := DropPrefix("(", TakeWord(line).value.1).value;
    var inner := b[..|b| - 1];
    var args := SplitArgs(inner);
    forall i | 0 <= i < |args| ensures WellFormedArg(ToCanonicalArg(args[i])) {
      SplitArgsParts(inner, i);
      forall k | 0 <= k < |args[i]| ensures !IsLineBreak(args[i][k]) {
        assert args[i][k] in inner;
      }
      CanonicalArgIsWellFormed(args[i]);
    }
  }

  lemma {:induction false} VarsAreIdents(s: string)
    requires MatchVars(s).Some?
    ensures MatchVars(s).value != [] && AllIdents(MatchVars(s).value)
    decreases |s|
  {
    TakeWordIsIdent(s);
    var (v, a) := TakeWord(s).value;
    var b := a[SpaceLen(a)..];
    if b != [] && b[0] == ',' {
      var c := b[1..];
      VarsAreIdents(c[SpaceLen(c)..]);
    }
  }

  lemma ExistentialIsIdent(keyword: string, line: string)
    requires MatchExistential(keyword, line).Some?
    ensures IsIdent(MatchExistential(keyword, line).value)
  {
    TakeWordIsIdent(DropSpaces(DropPrefix(keyword, line).value).value);
  }

  lemma CompareIsSupported(line: string)
    requires MatchCompare(line).Some?
    ensures MatchCompare(line).value.0 != Unsupported
  {
  }

  lemma CountVarsAreIdents(line: string)
    requires MatchCount(line).Some?
    ensures MatchCount(line).value != [] && AllIdents(MatchCount(line).value)
  {
    hide MatchVars;
    VarsAreIdents(DropSpaces(DropPrefix("count_distinct", line).value).value);
  }

  lemma ExistentialLineIsIdent(line: string)
    requires IsExistential(line) && MatchExistentialLine(line).Some?
    ensures IsIdent(MatchExistentialLine(line).value.1)
  {
    hide MatchExistential;
    ExistentialIsIdent(if "exists " <= line then "exists" else "not exists", line);
  }

  lemma AfterIsWellFormed(c: Condition, used: nat, rest: Parsed)
    requires WellFormedCondition(c) && rest.Block? && WellFormedConditions(rest.conds)
    ensures WellFormedConditions(After([c], used, rest).conds)
  {
  }

  lemma {:induction false} BlockIsWellFormed(lines: seq<string>, indent: nat)
    requires ParseLines(lines, indent).Block?
    ensures WellFormedConditions(ParseLines(lines, indent).conds)
    decreases |lines|
  {
    hide Trim, Indent, IsExistential, MatchCount, MatchCompare, MatchExistentialLine, MatchAtomLine, IsIdent, AllIdents;
    if lines == [] || Trim(lines[0]) == [] || Indent(lines[0]) < indent {
      if lines != [] && Trim(lines[0]) == [] { BlockIsWellFormed(lines[1..], indent); }
    } else {
      var line := Trim(lines[0]);
      if "count_distinct " <= line {
        var body := ParseLines(lines[1..], indent + 2);
        BlockIsWellFormed(lines[1..], indent + 2);
        BlockIsWellFormed(lines[body.used + 2..], indent);
        CountVarsAreIdents(line);
        var compare := MatchCompare(Trim(lines[body.used + 1]));
        CompareIsSupported(Trim(lines[body.used + 1]));
        AfterIsWellFormed(CountDistinct(MatchCount(line).value, body.conds, compare.value.0, compare.value.1 as real),
                          body.used + 2, ParseLines(lines[body.used + 2..], indent));
      } else if IsExistential(line) {
        var body := ParseLines(lines[1..], indent + 2);
        BlockIsWellFormed(lines[1..], indent + 2);
        BlockIsWellFormed(lines[body.used + 1..], indent);
        ExistentialLineIsIdent(line);
        var (positive, v) := MatchExistentialLine(line).value;
        AfterIsWellFormed(if positive then Exists([v], body.conds) else NotExists([v], body.conds),
                          body.used + 1, ParseLines(lines[body.used + 1..], indent));
      } else {
        AtomIsWellFormed(line);
        BlockIsWellFormed(lines[1..], indent);
        AfterIsWellFormed(MatchAtomLine(line).value, 1, ParseLines(lines[1..], indent));
      }
    }
  }

  lemma {:induction false} ParenAtFirst(s: string)
    ensures ')' !in s[..ParenAt(s)]
  {
    if s != [] && s[0] != ')' {
      ParenAtFirst(s[1..]);
      assert s[..ParenAt(s)] == [s[0]] + s[1..][..ParenAt(s[1..])];
    }
  }

  lemma HeadIsWellFormed(keyword: string, line: string)
    requires MatchHead(keyword, line).Some? && '\n' !in line
    ensures IsIdent(MatchHead(keyword, line).value.0)
    ensures forall i :: 0 <= i < |MatchHead(keyword, line).value.1| ==>
            WellFormedParam(MatchHead(keyword, line).value.1[i])
  {
    var b := DropSpaces(DropPrefix(keyword, line).value).value;
    TakeWordIsIdent(b);
    var params := DropPrefix("(", TakeWord(b).value.1).value;
    var text := params[..ParenAt(params)];
    ParenAtFirst(params);
    forall c | c in text ensures c in line {
      assert c in params;
      assert c in b;
    }
    forall i | 0 <= i < |SplitArgs(text)| ensures WellFormedParam(SplitArgs(text)[i]) {
      SplitArgsParts(text, i);
    }
  }

  lemma PolicyLineIsWellFormed(line: string)
    requires MatchPolicy(line).Some?
    ensures IsIdent(MatchPolicy(line).value.0) && WellFormedVersion(MatchPolicy(line).value.1)
  {
    TakeWordIsIdent(DropSpaces(DropPrefix("policy", line).value).value);
  }

  lemma {:induction false} CompiledIsWellFormed(lines: seq<string>, sofar: Policy)
    requires forall i :: 0 <= i < |lines| ==> '\n' !in lines[i]
    requires WellFormed(sofar) && CompileLines(lines, sofar).Some?
    ensures WellFormed(CompileLines(lines, sofar).value)
    decreases |lines|
  {
    hide ParseLines, MatchPolicy, MatchHead, Trim, WellFormedConditions, WellFormedParam, WellFormedVersion, IsIdent;
    if lines != [] {
      var line := Trim(lines[0]);
      TrimTight(lines[0]);
      if line == [] {
        CompiledIsWellFormed(lines[1..], sofar);
      } else if MatchPolicy(line).Some? {
        PolicyLineIsWellFormed(line);
        var (name, version) := MatchPolicy(line).value;
        CompiledIsWellFormed(lines[1..], sofar.(policy := Some(name), version := Some(version)));
      } else {
        var (isRule, name, params) := MatchRuleHead(line).value;
        HeadIsWellFormed(Keyword(isRule), line);
        var body := ParseLines(lines[1..], 2);
        BlockIsWellFormed(lines[1..], 2);
        BlockUses(lines[1..], 2);
        CompiledIsWellFormed(lines[body.used + 1..], AddEntry(sofar, isRule, Entry(name, params, body.conds)));
      }
    }
  }

  lemma BlockUses(lines: seq<string>, indent: nat)
    requires ParseLines(lines, indent).Block?
    ensures ParseLines(lines, indent).used <= |lines|
  {
  }

  /** Expressible policies are exactly the compiler's image: every result is
      one, and printing it and compiling again reproduces it. */
  lemma CompilePrintCompile(source: string)
    requires CompileText(source).Some?
    ensures WellFormed(CompileText(source).value)
    ensures CompileText(PrintPolicy(CompileText(source).value)) == CompileText(source)
  {
    SplitPieces(UnixLines(source), '\n');
    CompiledIsWellFormed(Split(UnixLines(source), '\n'), EMPTY_POLICY);
    PrintCompile(CompileText(source).value);
  }

  /** Every policy that can be written is valid for the evaluator, so evaluating a
      compiled policy never meets an unsupported condition. */
  lemma {:induction false} WellFormedIsValid(conds: seq<Condition>)
    requires WellFormedConditions(conds)
    ensures ValidConditions(conds)
    decreases conds, 1
  {
    forall i | 0 <= i < |conds| ensures ValidCondition(conds[i]) {
      match conds[i]
      case Exists(_, body) => WellFormedIsValid(body);
      case NotExists(_, body) => WellFormedIsValid(body);
      case CountDistinct(_, body, _, _) => WellFormedIsValid(body);
      case _ =>
    }
  }

  lemma CompiledIsValid(source: string)
    requires CompileText(source).Some?
    ensures ValidPolicy(CompileText(source).value)
  {
    hide CompileText;
    CompilePrintCompile(source);
    var p := CompileText(source).value;
    forall i | 0 <= i < |p.rules| ensures ValidConditions(p.rules[i].all) {
      assert WellFormedEntry(p.rules[i]);
      WellFormedIsValid(p.rules[i].all);
    }
    forall i | 0 <= i < |p.decisions| ensures ValidConditions(p.decisions[i].all) {
      assert WellFormedEntry(p.decisions[i]);
      WellFormedIsValid(p.decisions[i].all);
    }
  }
}

/** Each printed line is matched by its own pattern and gives its parts back. */
module SurfaceLines {
  import opened Wrappers
  import opened CclPolicy
  import opened Text
  import opened SurfaceSyntax

  predicate IsPart(s: string) {
    s != [] && Tight(s) && ',' !in s
  }

  // ----- Pieces of a line ---------------------------------------------------------

  lemma DropPrefixOf(p: string, s: string)
    ensures DropPrefix(p, p + s) == Some(s)
  {
    assert (p + s)[|p|..] == s;
  }

  lemma DropPrefixFails(p: string, s: string)
    requires p != [] && s != [] && p[0] != s[0]
    ensures DropPrefix(p, s) == None && !(p <= s)
  {
  }

  lemma DropSpacesOne(s: string)
    requires s != [] && !IsSpace(s[0])
    ensures DropSpaces(" " + s) == Some(s)
  {
    SpaceLenOne(s);
    assert (" " + s)[1..] == s;
  }

  lemma TakeWordOf(w: string, rest: string)
    requires IsIdent(w) && (rest == [] || !IsWord(rest[0]))
    ensures TakeWord(w + rest) == Some((w, rest))
  {
    WordLenOf(w, rest);
    assert (w + rest)[..|w|] == w && (w + rest)[|w|..] == rest;
  }

  lemma WordIsNoSpace(c: char)
    requires IsWord(c)
    ensures !IsSpace(c) && c != ',' && c != '(' && c != '-' && !IsLineBreak(c)
  {
  }

  lemma {:induction false} JoinChars(parts: seq<string>, sep: string, c: char)
    requires c in Join(parts, sep)
    ensures c in sep || exists i :: 0 <= i < |parts| && c in parts[i]
  {
    if |parts| > 1 {
      if c in Join(parts[1..], sep) {
        JoinChars(parts[1..], sep, c);
        if c !in sep {
          var i :| 0 <= i < |parts| - 1 && c in parts[1..][i];
          assert c in parts[i + 1];
        }
      }
    }
  }

  lemma JoinFirst(parts: seq<string>, sep: string)
    requires parts != [] && parts[0] != []
    ensures Join(parts, sep) != [] && Join(parts, sep)[0] == parts[0][0]
  {
  }

  lemma TrimBlank(x: string)
    ensures Trim([' '] + x) == Trim(x)
  {
    assert ([' '] + x)[1..] == x;
  }

  lemma SplitBlank(s: string)
    ensures TrimAll(Split([' '] + s, ',')) == TrimAll(Split(s, ','))
  {
    var pieces := Split(s, ',');
    assert ([' '] + s)[1..] == s;
    var shifted := [[' '] + pieces[0]] + pieces[1..];
    assert Split([' '] + s, ',') == shifted;
    TrimBlank(pieces[0]);
    assert shifted[1..] == pieces[1..];
  }

  lemma SplitArgsOne(a: string)
    requires IsPart(a)
    ensures SplitArgs(a) == [a]
  {
    TightIsTrimmed(a);
    SplitNone(a, ',');
    assert TrimAll([a]) == [a] + TrimAll([a][1..]);
  }

  lemma SplitArgsMore(a: string, rest: string)
    requires IsPart(a)
    ensures SplitArgs(a + (", " + rest)) == [a] + SplitArgs(rest)
  {
    hide Trim;
    TightIsTrimmed(a);
    var tail := [' '] + rest;
    assert a + (", " + rest) == a + [','] + tail;
    SplitPrefix(a, tail, ',');
    SplitBlank(rest);
    var all := [a] + Split(tail, ',');
    assert all[1..] == Split(tail, ',');
  }

  /** Splitting a printed argument list gives the arguments back. */
  lemma {:induction false} SplitArgsJoin(args: seq<string>)
    requires forall i :: 0 <= i < |args| ==> IsPart(args[i])
    ensures SplitArgs(Join(args, ", ")) == args
  {
    hide SplitArgs;
    if args == [] {
      SplitNoArgs();
    } else if |args| == 1 {
      SplitArgsOne(args[0]);
      assert args == [args[0]];
    } else {
      SplitArgsJoin(args[1..]);
      SplitArgsMore(args[0], Join(args[1..], ", "));
      assert Join(args, ", ") == args[0] + (", " + Join(args[1..], ", "));
      assert args == [args[0]] + args[1..];
    }
  }

  lemma SplitNoArgs()
    ensures SplitArgs([]) == []
  {
    assert Split([], ',') == [[]];
    assert TrimAll([[]]) == [];
  }

  // ----- Arguments and atoms --------------------------------------------------------

  lemma PrintedInteger(n: nat)
    ensures IsInteger(Digits(n)) && IntegerValue(Digits(n)) == n
    ensures IsInteger("-" + Digits(n)) && IntegerValue("-" + Digits(n)) == -(n as int)
  {
    DecimalDigits(n);
    assert ("-" + Digits(n))[1..] == Digits(n);
    assert IsDigit(Digits(n)[0]);
  }

  /** Text that toCanonicalArg reads as `v`. */
  ghost predicate IsArgText(s: string, v: Value) {
    ToCanonicalArg(s) == v && IsPart(s) && !HasLineBreak(s)
  }

  lemma DigitsArePart(s: string)
    requires s != [] && AllDigits(s[1..]) && (IsDigit(s[0]) || s[0] == '-')
    ensures IsPart(s) && !HasLineBreak(s) && !IsCapitalized(s)
  {
    forall i | 0 <= i < |s| ensures IsDigit(s[i]) || s[i] == '-' {
      if i > 0 { assert s[i] == s[1..][i - 1]; }
    }
  }

  lemma NumberRoundTrip(n: int)
    ensures IsArgText(PrintArg(Num(n)), Num(n))
  {
    var m := if n < 0 then -n else n;
    PrintedInteger(m);
    var text := PrintArg(Num(n));
    assert AllDigits(text[1..]) by {
      if n < 0 { assert text[1..] == Digits(m); }
    }
    DigitsArePart(text);
  }

  lemma NameRoundTrip(s: string)
    requires WellFormedArg(Str(s))
    ensures IsArgText(PrintArg(Str(s)), Str(s))
  {
    if s[0] == '$' && IsCapitalized(s[1..]) {
      var v := s[1..];
      assert "$" + v == s;
      forall i | 0 <= i < |v| ensures !IsSpace(v[i]) && v[i] != ',' && !IsLineBreak(v[i]) {
        WordIsNoSpace(v[i]);
      }
    }
  }

  lemma ArgRoundTrip(v: Value)
    requires WellFormedArg(v)
    ensures IsArgText(PrintArg(v), v)
  {
    match v
    case Num(n) => NumberRoundTrip(n);
    case Str(s) => NameRoundTrip(s);
  }

  lemma ArgsRoundTrip(args: seq<Value>)
    requires forall i :: 0 <= i < |args| ==> WellFormedArg(args[i])
    ensures CanonicalArgs(SplitArgs(Join(PrintArgs(args), ", "))) == args
    ensures !HasLineBreak(Join(PrintArgs(args), ", "))
  {
    var parts := PrintArgs(args);
    forall i | 0 <= i < |args| ensures IsArgText(parts[i], args[i]) {
      ArgRoundTrip(args[i]);
    }
    SplitArgsJoin(parts);
    assert CanonicalArgs(parts) == args;
    var inner := Join(parts, ", ");
    forall i | 0 <= i < |inner| ensures !IsLineBreak(inner[i]) {
      JoinChars(parts, ", ", inner[i]);
      if inner[i] !in ", " {
        var k :| 0 <= k < |parts| && inner[i] in parts[k];
        assert !HasLineBreak(parts[k]);
      }
    }
  }

  lemma AtomRoundTrip(p: string, args: seq<Value>)
    requires WellFormedCondition(Atom(p, args))
    ensures MatchAtomLine(AtomText(p, args)) == Some(Atom(p, args))
    ensures Tight(AtomText(p, args)) && AtomText(p, args) != []
  {
    hide WellFormedArg, HasLineBreak, CanonicalArgs, SplitArgs, PrintArgs;
    var inner := Join(PrintArgs(args), ", ");
    var b := inner + ")";
    ArgsRoundTrip(args);
    TakeWordOf(p, "(" + b);
    DropPrefixOf("(", b);
    assert b[..|b| - 1] == inner;
    WordIsNoSpace(p[0]);
  }

  /** An atom line is not taken for a keyword line. */
  lemma AtomIsNoKeyword(p: string, args: seq<Value>, keyword: string, line: string)
    requires IsIdent(p) && IsIdent(keyword) && |line| > |keyword| && line[..|keyword|] == keyword
             && line[|keyword|] == ' '
    ensures line != AtomText(p, args)
  {
    var k := |keyword|;
    assert line == keyword + line[k..];
    WordLenOf(keyword, line[k..]);
    var rest := "(" + (Join(PrintArgs(args), ", ") + ")");
    WordLenOf(p, rest);
    assert AtomText(p, args) == p + rest && (p + rest)[|p|] == '(';
  }

  lemma AtomLine(p: string, args: seq<Value>)
    requires IsIdent(p)
    ensures !("count_distinct " <= AtomText(p, args)) && !IsExistential(AtomText(p, args))
  {
    var line := AtomText(p, args);
    if "count_distinct " <= line {
      assert line[..14] == "count_distinct " [..14];
      assert line[14] == "count_distinct "[14];
      AtomIsNoKeyword(p, args, "count_distinct", line);
    }
    if "exists " <= line {
      assert line[..6] == "exists "[..6];
      assert line[6] == "exists "[6];
      AtomIsNoKeyword(p, args, "exists", line);
    }
    if "not exists " <= line {
      assert line[..3] == "not exists "[..3];
      assert line[3] == "not exists "[3];
      AtomIsNoKeyword(p, args, "not", line);
    }
  }

  // ----- Existential and counting lines ----------------------------------------------

  lemma MatchLastVar(v: string)
    requires IsIdent(v)
    ensures MatchVars(v + " where") == Some([v])
  {
    TakeWordOf(v, " where");
    SpaceLenOne("where");
    assert " where" == " " + "where";
    assert " where"[1..] == "where";
  }

  lemma MatchVarsComma(s: string, v: string, a: string, rest: string)
    requires TakeWord(s) == Some((v, a)) && SpaceLen(a) == 0 && a != [] && a[0] == ','
    requires rest == a[1..][SpaceLen(a[1..])..]
    ensures MatchVars(rest).Some? ==> MatchVars(s) == Some([v] + MatchVars(rest).value)
  {
    hide TakeWord, SpaceLen;
    assert a[0..] == a;
  }

  lemma MatchMoreVars(v: string, rest: string, vars: seq<string>)
    requires IsIdent(v) && rest != [] && !IsSpace(rest[0]) && MatchVars(rest) == Some(vars)
    ensures MatchVars(v + (", " + rest)) == Some([v] + vars)
  {
    hide MatchVars, TakeWord;
    var a := ", " + rest;
    TakeWordOf(v, a);
    SpaceLenOne(a);
    assert a[1..] == " " + rest;
    SpaceLenOne(rest);
    assert (" " + rest)[1..] == rest;
    MatchVarsComma(v + a, v, a, rest);
  }

  lemma VarsTextCons(vars: seq<string>)
    requires |vars| > 1
    ensures VarsText(vars) == vars[0] + (", " + VarsText(vars[1..]))
  {
  }

  lemma VarsRoundTripMore(vars: seq<string>, text: string, tail: seq<string>, rest: string)
    requires |vars| > 1 && AllIdents(vars) && tail == vars[1..]
    requires text == vars[0] + (", " + rest) && rest != [] && !IsSpace(rest[0]) && MatchVars(rest) == Some(tail)
    ensures MatchVars(text) == Some(vars)
  {
    MatchMoreVars(vars[0], rest, tail);
    assert vars == [vars[0]] + tail;
  }

  lemma {:induction false} VarsRoundTrip(vars: seq<string>)
    requires vars != [] && AllIdents(vars)
    ensures MatchVars(VarsText(vars)) == Some(vars)
  {
    if |vars| == 1 {
      MatchLastVar(vars[0]);
      assert vars == [vars[0]];
    } else {
      VarsTextFirst(vars[1..]);
      VarsTextCons(vars);
      VarsRoundTrip(vars[1..]);
      VarsRoundTripMore(vars, VarsText(vars), vars[1..], VarsText(vars[1..]));
    }
  }

  lemma VarsTextFirst(vars: seq<string>)
    requires vars != [] && AllIdents(vars)
    ensures VarsText(vars) != [] && !IsSpace(VarsText(vars)[0])
    ensures !IsSpace(VarsText(vars)[|VarsText(vars)| - 1])
  {
    JoinFirst(vars, ", ");
    WordIsNoSpace(vars[0][0]);
    assert " where"[5] == 'e';
  }

  /** A keyword, a blank and the rest of the line. */
  lemma KeywordLine(keyword: string, rest: string)
    requires keyword != [] && !IsSpace(keyword[0])
    requires rest != [] && !IsSpace(rest[0]) && !IsSpace(rest[|rest| - 1])
    ensures var line := keyword + (" " + rest);
            Tight(line) && line[0] == keyword[0] && keyword + " " <= line
            && DropPrefix(keyword, line) == Some(" " + rest)
    ensures DropSpaces(" " + rest) == Some(rest)
  {
    hide DropPrefix, DropSpaces, IsSpace;
    var line := keyword + (" " + rest);
    DropPrefixOf(keyword, " " + rest);
    DropSpacesOne(rest);
    assert line == keyword + " " + rest;
    assert line[|line| - 1] == rest[|rest| - 1] && line[0] == keyword[0];
  }

  lemma CountRoundTrip(vars: seq<string>)
    requires vars != [] && AllIdents(vars)
    ensures MatchCount(CountText(vars)) == Some(vars)
    ensures Tight(CountText(vars))
    ensures "count_distinct " <= CountText(vars)
  {
    var rest := VarsText(vars);
    VarsTextFirst(vars);
    KeywordLine("count_distinct", rest);
    assert "count_distinct " == "count_distinct" + " ";
    MatchCountVars(CountText(vars), " " + rest, rest);
    VarsRoundTrip(vars);
  }

  lemma MatchCountVars(line: string, a: string, b: string)
    requires DropPrefix("count_distinct", line) == Some(a) && DropSpaces(a) == Some(b)
    ensures MatchCount(line) == MatchVars(b)
  {
  }

  lemma MatchOneVar(v: string)
    requires IsIdent(v)
    ensures TakeWord(VarsText([v])) == Some((v, " where"))
    ensures DropSpaces(" where") == Some("where")
  {
    TakeWordOf(v, " where");
    DropSpacesOne("where");
    assert " where" == " " + "where";
  }

  lemma ExistentialRoundTrip(keyword: string, v: string)
    requires IsIdent(v) && keyword != [] && !IsSpace(keyword[0])
    ensures MatchExistential(keyword, ExistsText(keyword, [v])) == Some(v)
    ensures Tight(ExistsText(keyword, [v])) && ExistsText(keyword, [v])[0] == keyword[0]
    ensures keyword + " " <= ExistsText(keyword, [v])
  {
    var vars := [v];
    assert AllIdents(vars);
    VarsTextFirst(vars);
    MatchOneVar(v);
    KeywordLine(keyword, VarsText(vars));
  }

  lemma ExistsLine(v: string)
    requires IsIdent(v)
    ensures var line := ExistsText("exists", [v]);
            Tight(line) && !("count_distinct " <= line) && IsExistential(line)
                && MatchExistentialLine(line) == Some((true, v))
  {
    ExistentialRoundTrip("exists", v);
    assert "exists " == "exists" + " ";
    DropPrefixFails("count_distinct ", ExistsText("exists", [v]));
  }

  lemma NotExistsLine(v: string)
    requires IsIdent(v)
    ensures var line := ExistsText("not exists", [v]);
            Tight(line) && !("count_distinct " <= line) && IsExistential(line)
                && MatchExistentialLine(line) == Some((false, v))
  {
    ExistentialRoundTrip("not exists", v);
    assert "not exists " == "not exists" + " ";
    DropPrefixFails("count_distinct ", ExistsText("not exists", [v]));
    DropPrefixFails("exists ", ExistsText("not exists", [v]));
  }

  lemma ThresholdRoundTrip(op: Comparator, n: nat)
    ensures MatchThreshold(op, " " + Digits(n)) == Some((op, n))
  {
    var digits := Digits(n);
    assert IsDigit(digits[0]);
    DropSpacesOne(digits);
    DecimalDigits(n);
  }

  lemma CompareRoundTrip(op: Comparator, value: real)
    requires op != Unsupported && value >= 0.0 && value.Floor as real == value
    ensures MatchCompare(CompareText(op, value)) == Some((op, value.Floor))
    ensures Tight(CompareText(op, value)) && CompareText(op, value) != []
  {
    hide MatchCompare, MatchThreshold, Digits;
    var rest := " " + Digits(value.Floor);
    ThresholdRoundTrip(op, value.Floor);
    CompareLine(op, rest);
    assert CompareText(op, value) == PrintOp(op) + rest;
    var digits := Digits(value.Floor);
    assert IsDigit(digits[|digits| - 1]);
  }

  lemma CompareLine(op: Comparator, rest: string)
    requires op != Unsupported && rest != [] && rest[0] == ' '
    ensures MatchCompare(PrintOp(op) + rest) == MatchThreshold(op, rest)
    ensures !IsSpace(PrintOp(op)[0])
  {
    var line := PrintOp(op) + rest;
    assert line[|PrintOp(op)|..] == rest;
    assert line[0] == PrintOp(op)[0];
    assert line[1] == if |PrintOp(op)| == 2 then '=' else ' ';
  }

  // ----- Heads ------------------------------------------------------------------------

  lemma {:induction false} ParenAtEnd(s: string, rest: string)
    requires ')' !in s && rest != [] && rest[0] == ')'
    ensures ParenAt(s + rest) == |s|
  {
    if s == [] {
      assert s + rest == rest;
    } else {
      assert (s + rest)[1..] == s[1..] + rest;
      ParenAtEnd(s[1..], rest);
    }
  }

  lemma ParamsRoundTrip(params: seq<string>)
    requires forall i :: 0 <= i < |params| ==> WellFormedParam(params[i])
    ensures var s := Join(params, ", ") + "):";
            s[ParenAt(s)..] == "):" && SplitArgs(s[..ParenAt(s)]) == params
  {
    var text := Join(params, ", ");
    var s := text + "):";
    if ')' in text { JoinChars(params, ", ", ')'); }
    ParenAtEnd(text, "):");
    assert s[|text|..] == "):" && s[..|text|] == text;
    SplitArgsJoin(params);
  }

  lemma HeadTail(name: string, params: string)
    requires IsIdent(name)
    ensures TakeWord(name + ("(" + params)) == Some((name, "(" + params))
    ensures DropPrefix("(", "(" + params) == Some(params)
    ensures !IsSpace((name + ("(" + params))[0])
  {
    TakeWordOf(name, "(" + params);
    DropPrefixOf("(", params);
    WordIsNoSpace(name[0]);
  }

  lemma HeadRoundTrip(keyword: string, e: Entry)
    requires WellFormedEntry(e) && keyword != [] && !IsSpace(keyword[0])
    ensures MatchHead(keyword, HeadText(keyword, e)) == Some((e.name, e.params))
    ensures Tight(HeadText(keyword, e)) && HeadText(keyword, e) != [] && HeadText(keyword, e)[0] == keyword[0]
  {
    var params := Join(e.params, ", ") + "):";
    var rest := e.name + ("(" + params);
    HeadTail(e.name, params);
    assert rest[|rest| - 1] == ':';
    KeywordLine(keyword, rest);
    ParamsRoundTrip(e.params);
  }

  lemma RuleLine(e: Entry)
    requires WellFormedEntry(e)
    ensures var line := HeadText("rule", e);
            Tight(line) && line != [] && line[0] == 'r' && MatchPolicy(line) == None
            && MatchRuleHead(line) == Some((true, e.name, e.params))
  {
    HeadRoundTrip("rule", e);
    var line := HeadText("rule", e);
    assert line[0] == "rule"[0];
    DropPrefixFails("policy", line);
  }

  lemma DecisionLine(e: Entry)
    requires WellFormedEntry(e)
    ensures var line := HeadText("decision", e);
            Tight(line) && line != [] && line[0] == 'd' && MatchPolicy(line) == None
            && MatchRuleHead(line) == Some((false, e.name, e.params))
  {
    HeadRoundTrip("decision", e);
    var line := HeadText("decision", e);
    assert line[0] == "decision"[0];
    DropPrefixFails("policy", line);
    DropPrefixFails("rule", line);
  }

  lemma PolicyRoundTrip(name: string, version: string)
    requires IsIdent(name) && WellFormedVersion(version)
    ensures MatchPolicy(PolicyText(name, version)) == Some((name, version))
    ensures Tight(PolicyText(name, version)) && PolicyText(name, version) != []
  {
    hide DropPrefix, DropSpaces, TakeWord;
    var v := "v" + version;
    assert v[|v| - 1] == version[|version| - 1];
    KeywordLine(name, v) by { WordIsNoSpace(name[0]); }
    KeywordLine("policy", name + (" " + v));
    TakeWordOf(name, " " + v);
    DropPrefixOf("v", version);
  }
}

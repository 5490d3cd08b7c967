/** The surface language as a grammar over non-blank lines, and the proof that the
    compiler accepts exactly its sentences, with exactly their meaning. */
module SurfaceGrammar {
  import opened Wrappers
  import opened CclPolicy
  import opened Text
  import opened SurfaceSyntax
  import opened SurfaceLines
  import opened SurfaceSteps
  import opened SurfaceForms
  import opened SurfaceBlank
  import opened SurfaceCompiler

  // ----- The grammar -------------------------------------------------------------------------------

  ghost predicate AtomSays(line: string, p: string, args: seq<Value>) {
    exists inner :: IsAtomLine(line, p, args, inner)
  }

  /** `exists V where`, with a space right after the keyword. */
  ghost predicate ExistsSays(line: string, positive: bool, v: string) {
    var keyword := if positive then "exists" else "not exists";
    keyword + " " <= line && exists x, y :: IsExistsLine(keyword, line, v, x, y)
  }

  ghost predicate CountSays(line: string, vars: seq<string>) {
    "count_distinct " <= line && exists x, rest :: IsCountLine(line, vars, x, rest)
  }

  ghost predicate CompareSays(line: string, op: Comparator, value: real) {
    value >= 0.0 && value.Floor as real == value && exists x, digits :: IsCompareLine(line, op, value.Floor, x, digits)
  }

  /** The lines of one condition at an indent. */
  ghost predicate IsCondition(lines: seq<string>, c: Condition, indent: nat)
    decreases c, 0
  {
    && lines != [] && Indent(lines[0]) == indent
    && var line := Trim(lines[0]);
       match c
       case Atom(p, args) => |lines| == 1 && AtomSays(line, p, args)
       case Exists(vars, body) =>
         |vars| == 1 && ExistsSays(line, true, vars[0]) && IsBlock(lines[1..], body, indent + 2)
       case NotExists(vars, body) =>
         |vars| == 1 && ExistsSays(line, false, vars[0]) && IsBlock(lines[1..], body, indent + 2)
       case CountDistinct(vars, body, op, value) =>
         && |lines| >= 2 && CountSays(line, vars) && IsBlock(lines[1..|lines| - 1], body, indent + 2)
         && Indent(lines[|lines| - 1]) < indent + 2 && CompareSays(Trim(lines[|lines| - 1]), op, value)
       case Malformed => false
  }

  /** The lines of a list of conditions, one after the other. */
  ghost predicate IsBlock(lines: seq<string>, conds: seq<Condition>, indent: nat)
    decreases conds, 1
  {
    if conds == [] then lines == []
    else
      exists k :: 0 < k <= |lines| && IsCondition(lines[..k], conds[0], indent)
          && IsBlock(lines[k..], conds[1..], indent)
  }

  ghost predicate NoBlank(lines: seq<string>) {
    forall i :: 0 <= i < |lines| ==> Trim(lines[i]) != []
  }

  // ----- Single lines ------------------------------------------------------------------------------

  /** A word followed by a bracket is no word followed by a space. */
  lemma WordThenSpace(w: string, line: string, p: string, rest: string)
    requires IsIdent(w) && IsIdent(p) && line == p + ("(" + rest)
    ensures !(w + " " <= line)
  {
    assert !IsWord('(') && !IsWord(' ');
    hide IsWord, TakeWord;
    if w + " " <= line {
      var r := line[|w| + 1..];
      assert line == w + (" " + r);
      TakeWordOf(w, " " + r);
      TakeWordOf(p, "(" + rest);
    }
  }

  /** The three kinds of line are told apart by how they begin. */
  lemma AtomIsNoKeywordLine(line: string, p: string, args: seq<Value>)
    requires AtomSays(line, p, args)
    ensures !("count_distinct " <= line) && !IsExistential(line)
  {
    var inner :| IsAtomLine(line, p, args, inner);
    WordThenSpace("count_distinct", line, p, inner + ")");
    WordThenSpace("exists", line, p, inner + ")");
    WordThenSpace("not", line, p, inner + ")");
    assert "count_distinct" + " " == "count_distinct " && "exists" + " " == "exists " && "not" + " " == "not ";
    assert "not exists " <= line ==> "not " <= line by {
      assert "not exists "[..4] == "not ";
    }
  }

  lemma AtomLineIff(line: string, c: Condition)
    ensures MatchAtomLine(line) == Some(c) <==> c.Atom? && AtomSays(line, c.pred, c.args)
  {
    if c.Atom? { AtomForm(line, c.pred, c.args); }
  }

  lemma ExistsLineIff(line: string, positive: bool, v: string)
    ensures ExistsSays(line, positive, v) <==>
            IsExistential(line) && !("count_distinct " <= line) && MatchExistentialLine(line) == Some((positive, v))
  {
    hide MatchExistential;
    var keyword := if positive then "exists" else "not exists";
    ExistsForm(keyword, line, v);
    assert "exists" + " " == "exists " && "not exists" + " " == "not exists ";
    if IsExistential(line) { ExistentialStart(line); }
  }

  lemma ExistentialStart(line: string)
    requires IsExistential(line)
    ensures !("count_distinct " <= line) && ("exists " <= line <==> line[0] == 'e')
            && ("not exists " <= line <==> line[0] == 'n')
  {
    if "exists " <= line { assert line[0] == 'e'; } else { assert line[0] == 'n'; }
  }

  lemma CountLineIff(line: string, vars: seq<string>)
    ensures CountSays(line, vars) <==> "count_distinct " <= line && MatchCount(line) == Some(vars)
  {
    CountForm(line, vars);
  }

  lemma CompareLineIff(line: string, op: Comparator, n: nat)
    ensures CompareSays(line, op, n as real) <==> MatchCompare(line) == Some((op, n))
  {
    hide MatchCompare, IsCompareLine;
    CompareForm(line, op, n);
    assert (n as real).Floor == n;
  }

  lemma CompareIsNatural(line: string, op: Comparator, value: real) returns (n: nat)
    requires CompareSays(line, op, value)
    ensures value == n as real && MatchCompare(line) == Some((op, n))
  {
    hide MatchCompare, IsCompareLine;
    n := value.Floor;
    CompareForm(line, op, n);
  }

  // ----- Blocks ------------------------------------------------------------------------------------

  lemma BlockCons(lines: seq<string>, k: nat, c: Condition, conds: seq<Condition>, indent: nat)
    requires 0 < k <= |lines| && IsCondition(lines[..k], c, indent) && IsBlock(lines[k..], conds, indent)
    ensures IsBlock(lines, [c] + conds, indent)
  {
    assert ([c] + conds)[1..] == conds;
  }

  /** What a block parser returns was written as the grammar says. */
  lemma {:induction false} ParsedIsBlock(lines: seq<string>, indent: nat)
    requires NoBlank(lines) && ParseLines(lines, indent).Block?
    ensures var r := ParseLines(lines, indent); IsBlock(lines[..r.used], r.conds, indent)
    decreases |lines|
  {
    hide ParseLines, Trim, Indent, IsExistential, IsCondition, MatchAtomLine, MatchCount, MatchCompare,
         MatchExistentialLine;
    if StopsBlock(lines, indent) {
      AtStop(lines, indent);
    } else if Indent(lines[0]) > indent {
      AtDeeper(lines, indent);
    } else {
      var line := Trim(lines[0]);
      if "count_distinct " <= line {
        ParsedCount(lines, indent);
      } else if IsExistential(line) {
        ParsedExistential(lines, indent);
      } else {
        AtAtom(lines, indent);
        var c := MatchAtomLine(line).value;
        AtomLineIff(line, c);
        AtomLineIsCondition(lines, c, indent);
        ParsedRest(lines, indent, c, 1);
      }
    }
  }

  lemma AtomLineIsCondition(lines: seq<string>, c: Condition, indent: nat)
    requires lines != [] && Indent(lines[0]) == indent && c.Atom? && AtomSays(Trim(lines[0]), c.pred, c.args)
    ensures IsCondition(lines[..1], c, indent)
  {
  }

  /** The rest of a block after one condition of `k` lines. */
  lemma {:induction false} ParsedRest(lines: seq<string>, indent: nat, c: Condition, k: nat)
    requires NoBlank(lines) && 0 < k <= |lines| && IsCondition(lines[..k], c, indent)
    requires ParseLines(lines, indent).Block?
    requires ParseLines(lines, indent) == After([c], k, ParseLines(lines[k..], indent))
    ensures var r := ParseLines(lines, indent); IsBlock(lines[..r.used], r.conds, indent)
    decreases |lines|, 0
  {
    hide ParseLines, IsCondition, Trim, Indent;
    var r, rest := ParseLines(lines, indent), ParseLines(lines[k..], indent);
    ParsedIsBlock(lines[k..], indent);
    var used := lines[..r.used];
    assert used[..k] == lines[..k] && used[k..] == lines[k..][..rest.used];
    BlockCons(used, k, c, rest.conds, indent);
  }

  lemma {:induction false} ParsedExistential(lines: seq<string>, indent: nat)
    requires NoBlank(lines) && lines != [] && Indent(lines[0]) == indent && ParseLines(lines, indent).Block?
    requires !("count_distinct " <= Trim(lines[0])) && IsExistential(Trim(lines[0]))
    ensures var r := ParseLines(lines, indent); IsBlock(lines[..r.used], r.conds, indent)
    decreases |lines|, 1
  {
    hide ParseLines, Trim, Indent, IsExistential, MatchExistentialLine, IsBlock;
    var body := ParseLines(lines[1..], indent + 2);
    AtExistential(lines, indent, body);
    var (positive, v) := MatchExistentialLine(Trim(lines[0])).value;
    ParsedIsBlock(lines[1..], indent + 2);
    ExistsLineIff(Trim(lines[0]), positive, v);
    var c := if positive then Exists([v], body.conds) else NotExists([v], body.conds);
    var k := body.used + 1;
    assert lines[..k][1..] == lines[1..][..body.used] && lines[..k][0] == lines[0];
    hide ExistsSays;
    assert IsCondition(lines[..k], c, indent);
    ParsedRest(lines, indent, c, k);
  }

  lemma {:induction false} ParsedCount(lines: seq<string>, indent: nat)
    requires NoBlank(lines) && lines != [] && Indent(lines[0]) == indent && ParseLines(lines, indent).Block?
    requires "count_distinct " <= Trim(lines[0])
    ensures var r := ParseLines(lines, indent); IsBlock(lines[..r.used], r.conds, indent)
    decreases |lines|, 1
  {
    hide ParseLines, Trim, Indent, MatchCount, MatchCompare, IsBlock;
    var body := ParseLines(lines[1..], indent + 2);
    AtCount(lines, indent, body);
    ParsedIsBlock(lines[1..], indent + 2);
    BlockStops(lines[1..], indent + 2);
    var vars := MatchCount(Trim(lines[0])).value;
    var k := body.used + 2;
    var last := lines[k - 1];
    assert lines[1..][body.used..][0] == last;
    var (op, n) := MatchCompare(Trim(last)).value;
    CountLineIff(Trim(lines[0]), vars);
    CompareLineIff(Trim(last), op, n);
    var c := CountDistinct(vars, body.conds, op, n as real);
    var mine := lines[..k];
    assert mine[0] == lines[0] && mine[|mine| - 1] == last && mine[1..|mine| - 1] == lines[1..][..body.used];
    hide CountSays, CompareSays;
    assert IsCondition(mine, c, indent);
    ParsedRest(lines, indent, c, k);
  }

  lemma BlockSplit(lines: seq<string>, conds: seq<Condition>, indent: nat) returns (k: nat)
    requires IsBlock(lines, conds, indent) && conds != []
    ensures 0 < k <= |lines| && IsCondition(lines[..k], conds[0], indent) && IsBlock(lines[k..], conds[1..], indent)
  {
    hide IsCondition;
    var n :| 0 < n <= |lines| && IsCondition(lines[..n], conds[0], indent) && IsBlock(lines[n..], conds[1..], indent);
    k := n;
  }

  /** What is written as the grammar says is parsed to what it says. */
  lemma {:induction false} BlockIsParsed(lines: seq<string>, conds: seq<Condition>, indent: nat, rest: seq<string>)
    requires NoBlank(lines) && IsBlock(lines, conds, indent) && StopsBlock(rest, indent)
    ensures ParseLines(lines + rest, indent) == Block(conds, |lines|)
    decreases conds, 1
  {
    hide ParseLines, Trim, Indent, IsCondition;
    if conds == [] {
      assert lines + rest == rest;
      AtStop(rest, indent);
    } else {
      var k := BlockSplit(lines, conds, indent);
      hide IsBlock;
      BlockIsParsed(lines[k..], conds[1..], indent, rest);
      BlockStart(lines[k..], conds[1..], indent, rest);
      ConditionIsParsed(lines[..k], conds[0], indent, lines[k..] + rest);
      assert lines[..k] + (lines[k..] + rest) == lines + rest;
      assert conds == [conds[0]] + conds[1..];
    }
  }

  /** A block at an indent, or what stops it, stops a block further in. */
  lemma BlockStart(lines: seq<string>, conds: seq<Condition>, indent: nat, rest: seq<string>)
    requires NoBlank(lines) && IsBlock(lines, conds, indent) && StopsBlock(rest, indent)
    ensures StopsBlock(lines + rest, indent + 2)
  {
    if conds == [] {
      assert lines + rest == rest;
    } else {
      var k :| 0 < k <= |lines| && IsCondition(lines[..k], conds[0], indent) && IsBlock(lines[k..], conds[1..], indent);
      assert (lines + rest)[0] == lines[..k][0];
    }
  }

  lemma {:induction false} ConditionIsParsed(lines: seq<string>, c: Condition, indent: nat, more: seq<string>)
    requires NoBlank(lines) && IsCondition(lines, c, indent) && StopsBlock(more, indent + 2)
    ensures ParseLines(lines + more, indent) == After([c], |lines|, ParseLines(more, indent))
    decreases c, 0
  {
    hide ParseLines, Trim, Indent, IsBlock, MatchAtomLine, MatchCount, MatchCompare, MatchExistentialLine,
         IsExistential;
    hide AtomSays, ExistsSays, CountSays, CompareSays;
    var all, line := lines + more, Trim(lines[0]);
    assert all[0] == lines[0];
    match c
    case Atom(p, args) =>
      AtomIsNoKeywordLine(line, p, args);
      AtomLineIff(line, c);
      AtAtom(all, indent);
      assert all[1..] == more;
    case Exists(vars, body) =>
      assert vars == [vars[0]];
      ExistentialIsParsed(lines, true, vars[0], body, indent, more);
    case NotExists(vars, body) =>
      assert vars == [vars[0]];
      ExistentialIsParsed(lines, false, vars[0], body, indent, more);
    case CountDistinct(vars, body, op, value) => CountIsParsed(lines, vars, body, op, value, indent, more);
  }

  lemma {:induction false} ExistentialIsParsed(lines: seq<string>, positive: bool, v: string, body: seq<Condition>,
                                               indent: nat, more: seq<string>)
    requires NoBlank(lines) && lines != [] && Indent(lines[0]) == indent && ExistsSays(Trim(lines[0]), positive, v)
    requires IsBlock(lines[1..], body, indent + 2) && StopsBlock(more, indent + 2)
    ensures var c := if positive then Exists([v], body) else NotExists([v], body);
            ParseLines(lines + more, indent) == After([c], |lines|, ParseLines(more, indent))
    decreases body, 2
  {
    hide ParseLines, Trim, Indent, IsBlock, MatchExistentialLine, IsExistential, ExistsSays;
    var all := lines + more;
    ExistsLineIff(Trim(lines[0]), positive, v);
    BlockIsParsed(lines[1..], body, indent + 2, more);
    assert all[0] == lines[0] && all[1..] == lines[1..] + more && all[|lines|..] == more;
    AtExistential(all, indent, Block(body, |lines| - 1));
  }

  lemma {:induction false} CountIsParsed(lines: seq<string>, vars: seq<string>, body: seq<Condition>, op: Comparator,
                                         value: real, indent: nat, more: seq<string>)
    requires NoBlank(lines) && |lines| >= 2 && Indent(lines[0]) == indent && CountSays(Trim(lines[0]), vars)
    requires IsBlock(lines[1..|lines| - 1], body, indent + 2) && Indent(lines[|lines| - 1]) < indent + 2
    requires CompareSays(Trim(lines[|lines| - 1]), op, value)
    ensures ParseLines(lines + more, indent) ==
            After([CountDistinct(vars, body, op, value)], |lines|, ParseLines(more, indent))
    decreases body, 2
  {
    hide ParseLines, Trim, Indent, IsBlock, MatchCount, MatchCompare, CountSays, CompareSays;
    var all, m := lines + more, |lines| - 1;
    CountLineIff(Trim(lines[0]), vars);
    var n := CompareIsNatural(Trim(lines[m]), op, value);
    BlockIsParsed(lines[1..m], body, indent + 2, [lines[m]] + more);
    assert all[0] == lines[0] && all[1..] == lines[1..m] + ([lines[m]] + more);
    assert all[m] == lines[m] && all[m + 1..] == more;
    AtCount(all, indent, Block(body, m - 1));
  }

  /** The block parser accepts exactly the blocks of the grammar. */
  lemma BlockIff(lines: seq<string>, indent: nat, conds: seq<Condition>, used: nat)
    requires NoBlank(lines)
    ensures ParseLines(lines, indent) == Block(conds, used) <==>
            used <= |lines| && IsBlock(lines[..used], conds, indent) && StopsBlock(lines[used..], indent)
  {
    hide ParseLines, IsBlock, Trim, Indent;
    if ParseLines(lines, indent) == Block(conds, used) {
      ParsedIsBlock(lines, indent);
      BlockStops(lines, indent);
    }
    if used <= |lines| && IsBlock(lines[..used], conds, indent) && StopsBlock(lines[used..], indent) {
      BlockIsParsed(lines[..used], conds, indent, lines[used..]);
      assert lines[..used] + lines[used..] == lines;
    }
  }
}

/** Printed blocks, entries and policies parse back, using exactly their own lines. */
module SurfaceRoundTrip {
  import opened Wrappers
  import opened CclPolicy
  import opened Text
  import opened SurfaceSyntax
  import opened SurfaceSteps
  import opened SurfaceLines

  // ----- Blocks ------------------------------------------------------------------------

  lemma FirstLine(c: Condition, indent: nat)
    requires WellFormedCondition(c)
    ensures PrintCondition(c, indent) != []
    ensures Trim(PrintCondition(c, indent)[0]) != [] && Indent(PrintCondition(c, indent)[0]) == indent
  {
    match c
    case Atom(p, args) => AtomRoundTrip(p, args); IndentedLine(indent, AtomText(p, args));
    case Exists(vars, _) =>
      assert vars == [vars[0]];
      ExistsLine(vars[0]);
      IndentedLine(indent, ExistsText("exists", vars));
    case NotExists(vars, _) =>
      assert vars == [vars[0]];
      NotExistsLine(vars[0]);
      IndentedLine(indent, ExistsText("not exists", vars));
    case CountDistinct(vars, _, _, _) => CountRoundTrip(vars); IndentedLine(indent, CountText(vars));
  }

  /** Printed conditions end any deeper block. */
  lemma PrintedStops(conds: seq<Condition>, indent: nat, post: seq<string>)
    requires WellFormedConditions(conds) && StopsBlock(post, indent)
    ensures StopsBlock(PrintConditions(conds, indent) + post, indent + 2)
  {
    if conds == [] {
      assert PrintConditions(conds, indent) + post == post;
    } else {
      FirstLine(conds[0], indent);
      assert (PrintConditions(conds, indent) + post)[0] == PrintCondition(conds[0], indent)[0];
    }
  }

  /** A printed block parses back to its conditions and uses exactly its lines. */
  lemma {:induction false} BlockRoundTrip(conds: seq<Condition>, indent: nat, post: seq<string>)
    requires WellFormedConditions(conds) && StopsBlock(post, indent)
    ensures ParseLines(PrintConditions(conds, indent) + post, indent) ==
            Block(conds, |PrintConditions(conds, indent)|)
    decreases conds
  {
    hide Trim, Indent, PrintCondition, WellFormedCondition;
    if conds == [] {
      assert PrintConditions(conds, indent) + post == post;
    } else {
      var tail := PrintConditions(conds[1..], indent) + post;
      assert PrintConditions(conds, indent) + post == PrintCondition(conds[0], indent) + tail;
      BlockRoundTrip(conds[1..], indent, post);
      PrintedStops(conds[1..], indent, post);
      ConditionRoundTrip(conds[0], indent, tail);
      assert [conds[0]] + conds[1..] == conds;
    }
  }

  lemma {:induction false} ConditionRoundTrip(c: Condition, indent: nat, tail: seq<string>)
    requires WellFormedCondition(c) && StopsBlock(tail, indent + 2)
    ensures ParseLines(PrintCondition(c, indent) + tail, indent) ==
            After([c], |PrintCondition(c, indent)|, ParseLines(tail, indent))
    decreases c
  {
    hide ParseLines;
    match c
    case Atom(p, args) => AtomBlock(p, args, indent, tail);
    case Exists(vars, body) =>
      BlockRoundTrip(body, indent + 2, tail);
      ExistsBlock(vars, body, PrintConditions(body, indent + 2), indent, tail);
    case NotExists(vars, body) =>
      BlockRoundTrip(body, indent + 2, tail);
      NotExistsBlock(vars, body, PrintConditions(body, indent + 2), indent, tail);
    case CountDistinct(vars, body, op, value) =>
      var after := [Spaces(indent) + CompareText(op, value)] + tail;
      CompareStops(op, value, indent, tail);
      BlockRoundTrip(body, indent + 2, after);
      CountBlock(vars, body, PrintConditions(body, indent + 2), op, value, indent, tail);
  }

  lemma AtomBlock(p: string, args: seq<Value>, indent: nat, tail: seq<string>)
    requires WellFormedCondition(Atom(p, args))
    ensures ParseLines([Spaces(indent) + AtomText(p, args)] + tail, indent) ==
            After([Atom(p, args)], 1, ParseLines(tail, indent))
  {
    var core := AtomText(p, args);
    var lines := [Spaces(indent) + core] + tail;
    AtomRoundTrip(p, args);
    AtomLine(p, args);
    IndentedLine(indent, core);
    AtAtom(lines, indent);
    assert lines[1..] == tail;
  }

  lemma ExistsBlock(vars: seq<string>, body: seq<Condition>, inner: seq<string>, indent: nat, tail: seq<string>)
    requires |vars| == 1 && IsIdent(vars[0])
    requires ParseLines(inner + tail, indent + 2) == Block(body, |inner|)
    ensures ParseLines([Spaces(indent) + ExistsText("exists", vars)] + inner + tail, indent) ==
            After([Exists(vars, body)], |inner| + 1, ParseLines(tail, indent))
  {
    assert vars == [vars[0]];
    ExistsLine(vars[0]);
    ExistentialBlock(ExistsText("exists", vars), true, vars[0], body, inner, indent, tail);
  }

  lemma NotExistsBlock(vars: seq<string>, body: seq<Condition>, inner: seq<string>, indent: nat, tail: seq<string>)
    requires |vars| == 1 && IsIdent(vars[0])
    requires ParseLines(inner + tail, indent + 2) == Block(body, |inner|)
    ensures ParseLines([Spaces(indent) + ExistsText("not exists", vars)] + inner + tail, indent) ==
            After([NotExists(vars, body)], |inner| + 1, ParseLines(tail, indent))
  {
    assert vars == [vars[0]];
    NotExistsLine(vars[0]);
    ExistentialBlock(ExistsText("not exists", vars), false, vars[0], body, inner, indent, tail);
  }

  lemma ExistentialBlock(core: string, positive: bool, v: string, body: seq<Condition>, inner: seq<string>,
                         indent: nat, tail: seq<string>)
    requires core != [] && Tight(core)
    requires !("count_distinct " <= core) && IsExistential(core) && MatchExistentialLine(core) == Some((positive, v))
    requires ParseLines(inner + tail, indent + 2) == Block(body, |inner|)
    ensures var c := if positive then Exists([v], body) else NotExists([v], body);
            ParseLines([Spaces(indent) + core] + inner + tail, indent) ==
            After([c], |inner| + 1, ParseLines(tail, indent))
  {
    hide ParseLines, IsExistential, MatchExistentialLine, Spaces, Trim, Indent, Tight;
    var lines := [Spaces(indent) + core] + inner + tail;
    IndentedLine(indent, core);
    assert lines[1..] == inner + tail && lines[|inner| + 1..] == tail;
    AtExistential(lines, indent, Block(body, |inner|));
  }

  lemma CompareStops(op: Comparator, value: real, indent: nat, tail: seq<string>)
    requires op != Unsupported && value >= 0.0 && value.Floor as real == value
    ensures StopsBlock([Spaces(indent) + CompareText(op, value)] + tail, indent + 2)
  {
    CompareRoundTrip(op, value);
    IndentedLine(indent, CompareText(op, value));
  }

  lemma CountBlock(vars: seq<string>, body: seq<Condition>, inner: seq<string>, op: Comparator, value: real,
                   indent: nat, tail: seq<string>)
    requires vars != [] && AllIdents(vars) && op != Unsupported && value >= 0.0 && value.Floor as real == value
    requires ParseLines(inner + ([Spaces(indent) + CompareText(op, value)] + tail), indent + 2) == Block(body, |inner|)
    ensures ParseLines([Spaces(indent) + CountText(vars)] + inner
                       + [Spaces(indent) + CompareText(op, value)] + tail, indent) ==
            After([CountDistinct(vars, body, op, value)], |inner| + 2, ParseLines(tail, indent))
  {
    hide ParseLines, MatchCount, MatchCompare, CountText, CompareText, Spaces, Trim, Indent, Tight;
    var core, compare := CountText(vars), CompareText(op, value);
    var lines := [Spaces(indent) + core] + inner + [Spaces(indent) + compare] + tail;
    CountRoundTrip(vars);
    CompareRoundTrip(op, value);
    IndentedLine(indent, core);
    IndentedLine(indent, compare);
    assert lines[1..] == inner + ([Spaces(indent) + compare] + tail);
    assert lines[|inner| + 1] == Spaces(indent) + compare && lines[|inner| + 2..] == tail;
    AtCount(lines, indent, Block(body, |inner|));
  }

  // ----- Policies ------------------------------------------------------------------------

  /** Lines that end a rule body: nothing, or a line at the margin. */
  ghost predicate AtMargin(lines: seq<string>) {
    lines == [] || (Trim(lines[0]) != [] && Indent(lines[0]) == 0)
  }

  function AddEntries(p: Policy, isRule: bool, entries: seq<Entry>): Policy {
    if isRule then p.(rules := p.rules + entries) else p.(decisions := p.decisions + entries)
  }

  function Keyword(isRule: bool): string { if isRule then "rule" else "decision" }

  lemma HeadLine(isRule: bool, e: Entry)
    requires WellFormedEntry(e)
    ensures var line := HeadText(Keyword(isRule), e);
            line != [] && Trim(line) == line && Indent(line) == 0 && MatchPolicy(line) == None
            && MatchRuleHead(line) == Some((isRule, e.name, e.params))
  {
    RuleLine(e);
    DecisionLine(e);
    TightIsTrimmed(HeadText(Keyword(isRule), e));
  }

  lemma EntriesAtMargin(isRule: bool, entries: seq<Entry>, post: seq<string>)
    requires forall i :: 0 <= i < |entries| ==> WellFormedEntry(entries[i])
    requires AtMargin(post)
    ensures AtMargin(PrintEntries(Keyword(isRule), entries) + post)
  {
    if entries == [] {
      assert PrintEntries(Keyword(isRule), entries) + post == post;
    } else {
      HeadLine(isRule, entries[0]);
      assert (PrintEntries(Keyword(isRule), entries) + post)[0] == HeadText(Keyword(isRule), entries[0]);
    }
  }

  lemma StepHead(lines: seq<string>, line: string, isRule: bool, e: Entry, body: Parsed, sofar: Policy)
    requires lines != [] && lines[0] == line && line != [] && Trim(line) == line
    requires MatchPolicy(line) == None && MatchRuleHead(line) == Some((isRule, e.name, e.params))
    requires body == ParseLines(lines[1..], 2) && body.Block? && body.conds == e.all
    ensures CompileLines(lines, sofar) == CompileLines(lines[body.used + 1..], AddEntry(sofar, isRule, e))
  {
    hide ParseLines, MatchPolicy, MatchRuleHead, Trim, AddEntry;
  }

  lemma EntryBlock(e: Entry, tail: seq<string>)
    requires WellFormedEntry(e) && AtMargin(tail)
    ensures ParseLines(PrintConditions(e.all, 2) + tail, 2) == Block(e.all, |PrintConditions(e.all, 2)|)
  {
    hide ParseLines, PrintConditions;
    BlockRoundTrip(e.all, 2, tail);
  }

  lemma EntryRoundTrip(isRule: bool, e: Entry, body: seq<string>, tail: seq<string>, sofar: Policy)
    requires WellFormedEntry(e) && ParseLines(body + tail, 2) == Block(e.all, |body|)
    ensures CompileLines([HeadText(Keyword(isRule), e)] + body + tail, sofar) ==
            CompileLines(tail, AddEntry(sofar, isRule, e))
  {
    hide ParseLines, HeadText, MatchPolicy, MatchRuleHead, Trim, Indent, WellFormedEntry, CompileLines;
    var line := HeadText(Keyword(isRule), e);
    var lines := [line] + body + tail;
    HeadLine(isRule, e);
    assert lines[1..] == body + tail && lines[|body| + 1..] == tail;
    StepHead(lines, line, isRule, e, Block(e.all, |body|), sofar);
  }

  lemma {:induction false} EntriesRoundTrip(isRule: bool, entries: seq<Entry>, post: seq<string>, sofar: Policy)
    requires forall i :: 0 <= i < |entries| ==> WellFormedEntry(entries[i])
    requires AtMargin(post)
    ensures CompileLines(PrintEntries(Keyword(isRule), entries) + post, sofar) ==
            CompileLines(post, AddEntries(sofar, isRule, entries))
    decreases entries
  {
    hide ParseLines, CompileLines, PrintConditions, HeadText, WellFormedEntry, StopsBlock, Trim, Indent;
    var k := Keyword(isRule);
    if entries == [] {
      assert PrintEntries(k, entries) + post == post;
      assert AddEntries(sofar, isRule, entries) == sofar;
    } else {
      var e := entries[0];
      var body := PrintConditions(e.all, 2);
      var tail := PrintEntries(k, entries[1..]) + post;
      assert PrintEntries(k, entries) + post == [HeadText(k, e)] + body + tail;
      EntriesAtMargin(isRule, entries[1..], post);
      EntryBlock(e, tail);
      EntryRoundTrip(isRule, e, body, tail, sofar);
      EntriesRoundTrip(isRule, entries[1..], post, AddEntry(sofar, isRule, e));
      assert AddEntries(AddEntry(sofar, isRule, e), isRule, entries[1..]) == AddEntries(sofar, isRule, entries) by {
        assert sofar.rules + [e] + entries[1..] == sofar.rules + entries;
        assert sofar.decisions + [e] + entries[1..] == sofar.decisions + entries;
      }
    }
  }

  lemma StepHeader(name: string, version: string, tail: seq<string>)
    requires IsIdent(name) && WellFormedVersion(version)
    ensures CompileLines([PolicyText(name, version)] + tail, EMPTY_POLICY) ==
            CompileLines(tail, Policy(Some(name), Some(version), [], []))
  {
    var line := PolicyText(name, version);
    PolicyRoundTrip(name, version);
    TightIsTrimmed(line);
    assert ([line] + tail)[1..] == tail;
  }

  lemma CompileNothing(p: Policy)
    ensures CompileLines([], p) == Some(p)
  {
  }

  lemma LinesRoundTrip(p: Policy)
    requires WellFormed(p)
    ensures CompileLines(PrintLines(p), EMPTY_POLICY) == Some(p)
  {
    hide CompileLines, PrintEntries;
    var decisions := PrintEntries("decision", p.decisions);
    var rules := PrintEntries("rule", p.rules);
    var start := Policy(p.policy, p.version, [], []);
    assert decisions + [] == decisions;
    assert rules + decisions == PrintEntries("rule", p.rules) + decisions;
    EntriesAtMargin(false, p.decisions, []);
    EntriesRoundTrip(true, p.rules, decisions, start);
    EntriesRoundTrip(false, p.decisions, [], AddEntries(start, true, p.rules));
    assert AddEntries(AddEntries(start, true, p.rules), false, p.decisions) == p;
    CompileNothing(p);
    assert CompileLines(rules + decisions, start) == Some(p);
    if p.policy.Some? {
      StepHeader(p.policy.value, p.version.value, rules + decisions);
      assert PrintLines(p) == [PolicyText(p.policy.value, p.version.value)] + (rules + decisions);
    } else {
      assert PrintLines(p) == rules + decisions;
    }
  }
}

/** Whole source texts: what they are made of, and that compiling one gives exactly
    its header, its rules and its decisions, in order. */
module SurfaceTexts {
  import opened Wrappers
  import opened CclPolicy
  import opened Text
  import opened SurfaceSyntax
  import opened SurfaceForms
  import opened SurfaceBlank
  import opened SurfaceGrammar

  /** What a text is made of. */
  datatype Item = Header(name: string, version: string) | Definition(isRule: bool, entry: Entry)

  ghost predicate HeaderSays(line: string, name: string, version: string) {
    exists x, y :: IsPolicyLine(line, name, version, x, y)
  }

  ghost predicate HeadSays(line: string, isRule: bool, name: string, params: seq<string>) {
    var keyword := if isRule then "rule" else "decision";
    exists x, inner :: IsHeadLine(keyword, line, name, params, x, inner)
  }

  ghost predicate IsItem(lines: seq<string>, item: Item) {
    && lines != []
    && match item
       case Header(name, version) => |lines| == 1 && HeaderSays(Trim(lines[0]), name, version)
       case Definition(isRule, e) =>
         HeadSays(Trim(lines[0]), isRule, e.name, e.params) && IsBlock(lines[1..], e.all, 2)
  }

  /** The lines of the items, one after the other; the body of a definition goes on
      for as long as lines are indented. */
  ghost predicate IsText(lines: seq<string>, items: seq<Item>)
    decreases |items|, 1
  {
    if items == [] then lines == [] else exists k :: ItemEndsAt(lines, items, k)
  }

  ghost predicate ItemEndsAt(lines: seq<string>, items: seq<Item>, k: int)
    requires items != []
    decreases |items|, 0
  {
    && 0 < k <= |lines| && IsItem(lines[..k], items[0]) && (items[0].Definition? ==> StopsBlock(lines[k..], 2))
    && IsText(lines[k..], items[1..])
  }

  /** The definitions of one kind, in order. */
  function EntriesOf(items: seq<Item>, isRule: bool): seq<Entry> {
    if items == [] then []
    else
      EntriesOf(items[..|items| - 1], isRule) +
      match items[|items| - 1]
      case Header(_, _) => []
      case Definition(r, e) => if r == isRule then [e] else []
  }

  /** The last header, if there is one. */
  function HeaderOf(items: seq<Item>): Option<(string, string)> {
    if items == [] then None
    else if items[|items| - 1].Header? then Some((items[|items| - 1].name, items[|items| - 1].version))
    else HeaderOf(items[..|items| - 1])
  }

  ghost predicate IsMeaning(items: seq<Item>, p: Policy) {
    && p.rules == EntriesOf(items, true) && p.decisions == EntriesOf(items, false)
    && match HeaderOf(items)
       case None => p.policy == None && p.version == None
       case Some((name, version)) => p.policy == Some(name) && p.version == Some(version)
  }

  // ----- One item at a time --------------------------------------------------------------------------

  function AddItem(p: Policy, item: Item): Policy {
    match item
    case Header(name, version) => p.(policy := Some(name), version := Some(version))
    case Definition(isRule, e) => AddEntry(p, isRule, e)
  }

  lemma MeaningSnoc(items: seq<Item>, item: Item, p: Policy)
    requires IsMeaning(items, p)
    ensures IsMeaning(items + [item], AddItem(p, item))
  {
    assert (items + [item])[..|items|] == items;
  }

  lemma MeaningIsUnique(items: seq<Item>, p: Policy, q: Policy)
    requires IsMeaning(items, p) && IsMeaning(items, q)
    ensures p == q
  {
  }

  lemma HeaderIff(line: string, name: string, version: string)
    ensures HeaderSays(line, name, version) <==> MatchPolicy(line) == Some((name, version))
  {
    PolicyForm(line, name, version);
  }

  lemma HeadIff(line: string, isRule: bool, name: string, params: seq<string>)
    ensures HeadSays(line, isRule, name, params) <==> MatchRuleHead(line) == Some((isRule, name, params))
    ensures HeadSays(line, isRule, name, params) ==> MatchPolicy(line) == None
  {
    hide MatchHead;
    HeadForm("rule", line, name, params);
    HeadForm("decision", line, name, params);
    KeywordsDiffer(line);
  }

  /** A line begins with at most one of the three words. */
  lemma KeywordsDiffer(line: string)
    ensures MatchHead("rule", line).Some? ==> MatchHead("decision", line) == None && MatchPolicy(line) == None
    ensures MatchHead("decision", line).Some? ==> MatchPolicy(line) == None
  {
    hide SplitArgs;
    assert "rule" <= line ==> line[0] == 'r';
    assert "decision" <= line ==> line[0] == 'd';
    assert "policy" <= line ==> line[0] == 'p';
  }

  /** The items of a text that compiles. */
  lemma {:induction false} CompiledIsText(lines: seq<string>, before: seq<Item>, sofar: Policy)
      returns (items: seq<Item>)
    requires NoBlank(lines) && IsMeaning(before, sofar) && CompileLines(lines, sofar).Some?
    ensures IsText(lines, items) && IsMeaning(before + items, CompileLines(lines, sofar).value)
    decreases |lines|
  {
    hide Trim, MatchPolicy, MatchRuleHead, ParseLines, IsBlock, IsMeaning;
    if lines == [] {
      items := [];
      assert before + items == before;
    } else {
      var line := Trim(lines[0]);
      var item, k := FirstItem(lines);
      MeaningSnoc(before, item, sofar);
      var rest := CompiledIsText(lines[k..], before + [item], AddItem(sofar, item));
      items := [item] + rest;
      assert items[1..] == rest && ItemEndsAt(lines, items, k);
      assert before + items == before + [item] + rest;
    }
  }

  /** The first item of lines that compile, and how compiling goes on after it. */
  lemma FirstItem(lines: seq<string>) returns (item: Item, k: nat)
    requires NoBlank(lines) && lines != [] && exists sofar :: CompileLines(lines, sofar).Some?
    ensures 0 < k <= |lines| && IsItem(lines[..k], item) && (item.Definition? ==> StopsBlock(lines[k..], 2))
    ensures forall sofar :: CompileLines(lines, sofar) == CompileLines(lines[k..], AddItem(sofar, item))
  {
    hide Trim, MatchPolicy, MatchRuleHead, ParseLines, IsBlock;
    var line := Trim(lines[0]);
    if MatchPolicy(line).Some? {
      var (name, version) := MatchPolicy(line).value;
      item, k := Header(name, version), 1;
      HeaderIff(line, name, version);
    } else {
      var (isRule, name, params) := MatchRuleHead(line).value;
      var body := ParseLines(lines[1..], 2);
      item, k := Definition(isRule, Entry(name, params, body.conds)), body.used + 1;
      HeadIff(line, isRule, name, params);
      BlockIff(lines[1..], 2, body.conds, body.used);
      assert lines[..k][1..] == lines[1..][..body.used] && lines[1..][body.used..] == lines[k..];
    }
  }

  lemma TextSplit(lines: seq<string>, items: seq<Item>) returns (k: nat)
    requires IsText(lines, items) && items != []
    ensures 0 < k <= |lines| && IsItem(lines[..k], items[0]) && IsText(lines[k..], items[1..])
    ensures items[0].Definition? ==> StopsBlock(lines[k..], 2)
  {
    hide IsItem, StopsBlock;
    var n :| ItemEndsAt(lines, items, n);
    k := n;
  }

  lemma NoItems(lines: seq<string>, items: seq<Item>)
    requires IsText(lines, items)
    ensures items == [] ==> lines == []
  {
  }

  /** A text of the grammar compiles. */
  lemma {:induction false} TextIsCompiled(lines: seq<string>, items: seq<Item>, before: seq<Item>, sofar: Policy)
    requires NoBlank(lines) && IsText(lines, items) && IsMeaning(before, sofar)
    ensures CompileLines(lines, sofar).Some? && IsMeaning(before + items, CompileLines(lines, sofar).value)
    decreases |items|
  {
    hide Trim, CompileLines, IsItem, IsMeaning, IsText, StopsBlock, NoBlank;
    if items == [] {
      NoItems(lines, items);
      NothingCompiles(sofar);
      assert before + items == before;
    } else {
      var item := items[0];
      var k := TextSplit(lines, items);
      MeaningSnoc(before, item, sofar);
      ItemIsCompiled(lines, item, k, sofar);
      NoBlankTail(lines, k);
      TextIsCompiled(lines[k..], items[1..], before + [item], AddItem(sofar, item));
      assert before + items == before + [item] + items[1..];
    }
  }

  lemma NothingCompiles(sofar: Policy)
    ensures CompileLines([], sofar) == Some(sofar)
  {
  }

  lemma NoBlankTail(lines: seq<string>, k: nat)
    requires NoBlank(lines) && k <= |lines|
    ensures NoBlank(lines[k..])
  {
  }

  lemma ItemIsCompiled(lines: seq<string>, item: Item, k: nat, sofar: Policy)
    requires NoBlank(lines) && 0 < k <= |lines| && IsItem(lines[..k], item)
    requires item.Definition? ==> StopsBlock(lines[k..], 2)
    ensures CompileLines(lines, sofar) == CompileLines(lines[k..], AddItem(sofar, item))
  {
    hide Trim, MatchPolicy, MatchRuleHead, ParseLines, IsBlock, HeaderSays, HeadSays, AddEntry;
    var line := Trim(lines[0]);
    assert lines[..k][0] == lines[0];
    match item
    case Header(name, version) => HeaderIff(line, name, version);
    case Definition(isRule, e) =>
      HeadIff(line, isRule, e.name, e.params);
      assert lines[..k][1..] == lines[1..][..k - 1] && lines[1..][k - 1..] == lines[k..];
      BlockIff(lines[1..], 2, e.all, k - 1);
      assert e == Entry(e.name, e.params, e.all);
  }

  // ----- The whole compiler --------------------------------------------------------------------------

  function NonBlank(lines: seq<string>): seq<string> {
    if lines == [] then []
    else if Trim(lines[0]) == [] then NonBlank(lines[1..])
    else [lines[0]] + NonBlank(lines[1..])
  }

  lemma {:induction false} NonBlankHasNone(lines: seq<string>)
    ensures NoBlank(NonBlank(lines))
  {
    if lines != [] { NonBlankHasNone(lines[1..]); }
  }

  lemma {:induction false} BlankLinesDoNotMatter(pre: seq<string>, lines: seq<string>, sofar: Policy)
    ensures CompileLines(pre + lines, sofar) == CompileLines(pre + NonBlank(lines), sofar)
    decreases |lines|
  {
    hide Trim, CompileLines;
    if lines != [] {
      var b, rest := lines[0], lines[1..];
      assert lines == [b] + rest;
      if Trim(b) == [] {
        assert pre + lines == pre + [b] + rest;
        BlankInText(pre, b, rest, sofar);
        BlankLinesDoNotMatter(pre, rest, sofar);
      } else {
        BlankLinesDoNotMatter(pre + [b], rest, sofar);
        assert pre + lines == pre + [b] + rest && pre + NonBlank(lines) == pre + [b] + NonBlank(rest);
      }
    }
  }

  /** The compiler accepts exactly the texts of the grammar, blank lines aside, and
      gives each its meaning: the last header, and all rules and all decisions in
      order, each with the body written below it. */
  lemma CompileIff(source: string, p: Policy)
    ensures var lines := NonBlank(Split(UnixLines(source), '\n'));
            CompileText(source) == Some(p) <==> exists items :: IsText(lines, items) && IsMeaning(items, p)
  {
    var all := Split(UnixLines(source), '\n');
    var lines := NonBlank(all);
    NonBlankHasNone(all);
    BlankLinesDoNotMatter([], all, EMPTY_POLICY);
    assert [] + all == all && [] + lines == lines;
    NothingMeansNothing();
    hide NonBlank, CompileLines, IsText, IsMeaning, UnixLines, NoBlank;
    if CompileText(source) == Some(p) {
      var items := CompiledIsText(lines, [], EMPTY_POLICY);
      assert [] + items == items;
    }
    if items :| IsText(lines, items) && IsMeaning(items, p) {
      TextIsCompiled(lines, items, [], EMPTY_POLICY);
      assert [] + items == items;
      MeaningIsUnique(items, p, CompileText(source).value);
    }
  }

  lemma NothingMeansNothing()
    ensures IsMeaning([], EMPTY_POLICY)
  {
  }

  // ----- Head lines ----------------------------------------------------------------------------------

  /** The heads a list of lines contains, in order. */
  function HeadsIn(lines: seq<string>): seq<(bool, string, seq<string>)> {
    if lines == [] then []
    else
      HeadsIn(lines[..|lines| - 1]) +
      match MatchRuleHead(Trim(lines[|lines| - 1]))
      case None => []
      case Some(head) => [head]
  }

  lemma {:induction false} HeadsAppend(a: seq<string>, b: seq<string>)
    ensures HeadsIn(a + b) == HeadsIn(a) + HeadsIn(b)
  {
    hide MatchRuleHead, Trim;
    if b == [] {
      assert a + b == a;
    } else {
      assert (a + b)[..|a + b| - 1] == a + b[..|b| - 1];
      HeadsAppend(a, b[..|b| - 1]);
    }
  }

  lemma HeadEnds(line: string)
    requires MatchRuleHead(line).Some?
    ensures line != [] && line[|line| - 1] == ':' && (line[0] == 'r' || line[0] == 'd')
  {
    hide MatchHead, SplitArgs, IsIdent, Blanks;
    var (isRule, name, params) := MatchRuleHead(line).value;
    var keyword := if isRule then "rule" else "decision";
    HeadForm(keyword, line, name, params);
    var x, inner :| IsHeadLine(keyword, line, name, params, x, inner);
    assert "):"[1] == ':';
  }

  lemma {:induction false} VarListEnds(s: string, vars: seq<string>)
    requires IsVarList(s, vars)
    ensures s != [] && s[|s| - 1] == 'e'
    decreases |vars|
  {
    hide IsIdent, Blanks, AllBlank;
    assert "where"[4] == 'e';
    if |vars| > 1 {
      var x, y, rest :| IsVarCons(s, vars[0], x, y, rest) && IsVarList(rest, vars[1..]);
      VarListEnds(rest, vars[1..]);
    } else {
      var y :| Blanks(y) && s == vars[0] + (y + "where");
    }
  }

  lemma AtomIsNoHead(line: string, p: string, args: seq<Value>)
    requires AtomSays(line, p, args)
    ensures MatchRuleHead(line) == None
  {
    hide MatchRuleHead, IsIdent, CanonicalArgs, SplitArgs, HasLineBreak;
    var inner :| IsAtomLine(line, p, args, inner);
    assert line[|line| - 1] == ')';
    if MatchRuleHead(line).Some? { HeadEnds(line); }
  }

  lemma ExistsIsNoHead(line: string, positive: bool, v: string)
    requires ExistsSays(line, positive, v)
    ensures MatchRuleHead(line) == None
  {
    hide MatchRuleHead, IsIdent, Blanks;
    var keyword := if positive then "exists" else "not exists";
    var x, y :| IsExistsLine(keyword, line, v, x, y);
    assert "where"[4] == 'e' && line[|line| - 1] == 'e';
    if MatchRuleHead(line).Some? { HeadEnds(line); }
  }

  lemma CountIsNoHead(line: string, vars: seq<string>)
    requires CountSays(line, vars)
    ensures MatchRuleHead(line) == None
  {
    hide MatchRuleHead, Blanks, IsVarList;
    var x, rest :| IsCountLine(line, vars, x, rest);
    VarListEnds(rest, vars);
    assert line[|line| - 1] == rest[|rest| - 1];
    if MatchRuleHead(line).Some? { HeadEnds(line); }
  }

  lemma CompareIsNoHead(line: string, op: Comparator, value: real)
    requires CompareSays(line, op, value)
    ensures MatchRuleHead(line) == None
  {
    hide MatchRuleHead, Blanks, AllDigits, Decimal;
    var x, digits :| IsCompareLine(line, op, value.Floor, x, digits);
    assert line[0] == '>' || line[0] == '<' || line[0] == '=';
    if MatchRuleHead(line).Some? { HeadEnds(line); }
  }

  lemma OneLineNoHead(line: string)
    requires MatchRuleHead(Trim(line)) == None
    ensures HeadsIn([line]) == []
  {
    hide MatchRuleHead, Trim;
    assert [line][..0] == [] && HeadsIn([]) == [];
  }

  lemma {:induction false} NoHeadInBlock(lines: seq<string>, conds: seq<Condition>, indent: nat)
    requires IsBlock(lines, conds, indent)
    ensures HeadsIn(lines) == []
    decreases conds, 1
  {
    hide IsCondition, MatchRuleHead, Trim;
    if conds != [] {
      var k :| 0 < k <= |lines| && IsCondition(lines[..k], conds[0], indent) && IsBlock(lines[k..], conds[1..], indent);
      NoHeadInCondition(lines[..k], conds[0], indent);
      NoHeadInBlock(lines[k..], conds[1..], indent);
      HeadsAppend(lines[..k], lines[k..]);
      assert lines[..k] + lines[k..] == lines;
    }
  }

  lemma {:induction false} NoHeadInCondition(lines: seq<string>, c: Condition, indent: nat)
    requires IsCondition(lines, c, indent)
    ensures HeadsIn(lines) == []
    decreases c, 0
  {
    hide IsBlock, MatchRuleHead, Trim, HeadsIn, AtomSays, ExistsSays, CountSays, CompareSays;
    var line, rest := Trim(lines[0]), lines[1..];
    assert lines == [lines[0]] + rest;
    HeadsAppend([lines[0]], rest);
    match c
    case Atom(p, args) =>
      AtomIsNoHead(line, p, args);
      OneLineNoHead(lines[0]);
      assert rest == [];
      NoHeadInNothing();
    case Exists(vars, body) =>
      ExistsIsNoHead(line, true, vars[0]);
      OneLineNoHead(lines[0]);
      NoHeadInBlock(rest, body, indent + 2);
    case NotExists(vars, body) =>
      ExistsIsNoHead(line, false, vars[0]);
      OneLineNoHead(lines[0]);
      NoHeadInBlock(rest, body, indent + 2);
    case CountDistinct(vars, body, op, value) =>
      var m := |lines| - 1;
      var last := lines[m];
      CountIsNoHead(line, vars);
      OneLineNoHead(lines[0]);
      NoHeadInBlock(lines[1..m], body, indent + 2);
      CompareIsNoHead(Trim(last), op, value);
      OneLineNoHead(last);
      HeadsAppend(lines[1..m], [last]);
      assert rest == lines[1..m] + [last];
  }

  lemma NoHeadInNothing()
    ensures HeadsIn([]) == []
  {
  }

  /** The heads of the definitions among the items. */
  function HeadsOf(items: seq<Item>): seq<(bool, string, seq<string>)> {
    if items == [] then []
    else
      (match items[0] case Header(_, _) => [] case Definition(r, e) => [(r, e.name, e.params)]) + HeadsOf(items[1..])
  }

  /** Every line that looks like a head is the head of a definition, and in a text
      that compiles each definition has its own: none is lost or swallowed. */
  lemma {:induction false} HeadsAreCompiled(lines: seq<string>, items: seq<Item>)
    requires IsText(lines, items)
    ensures HeadsIn(lines) == HeadsOf(items)
    decreases |items|
  {
    hide IsText, HeadsIn, HeadsOf, IsItem, StopsBlock;
    if items == [] {
      NoItems(lines, items);
      NoHeadInNothing();
      NoHeadsOfNothing();
    } else {
      var k := TextSplit(lines, items);
      HeadsAreCompiled(lines[k..], items[1..]);
      HeadsCons(lines, items, k);
    }
  }

  lemma NoHeadsOfNothing()
    ensures HeadsOf([]) == []
  {
  }

  lemma HeadsCons(lines: seq<string>, items: seq<Item>, k: nat)
    requires items != [] && 0 < k <= |lines| && IsItem(lines[..k], items[0])
             && HeadsIn(lines[k..]) == HeadsOf(items[1..])
    ensures HeadsIn(lines) == HeadsOf(items)
  {
    hide IsItem, HeadsIn;
    HeadOfItem(lines[..k], items[0]);
    HeadsAppend(lines[..k], lines[k..]);
    assert lines[..k] + lines[k..] == lines;
  }

  lemma HeadOfItem(lines: seq<string>, item: Item)
    requires IsItem(lines, item)
    ensures HeadsIn(lines) == match item case Header(_, _) => [] case Definition(r, e) => [(r, e.name, e.params)]
  {
    hide Trim, MatchRuleHead, MatchPolicy, HeaderSays, HeadSays, IsBlock;
    var line, rest := Trim(lines[0]), lines[1..];
    assert [lines[0]][..0] == [] && lines == [lines[0]] + rest;
    HeadsAppend([lines[0]], rest);
    match item
    case Header(name, version) =>
      HeaderIff(line, name, version);
      if head :| MatchRuleHead(line) == Some(head) { HeadIff(line, head.0, head.1, head.2); }
      assert rest == [];
    case Definition(isRule, e) =>
      HeadIff(line, isRule, e.name, e.params);
      NoHeadInBlock(rest, e.all, 2);
  }
}

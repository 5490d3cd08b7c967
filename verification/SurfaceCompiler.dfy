/** The compiler as it runs: an index moving over the lines, arrays growing. */
module SurfaceCompiler {
  import opened Wrappers
  import opened CclPolicy
  import opened Text
  import opened SurfaceSyntax
  import opened SurfaceSteps

  lemma AfterAfter(a: seq<Condition>, m: nat, b: seq<Condition>, n: nat, rest: Parsed)
    ensures After(a, m, After(b, n, rest)) == After(a + b, m + n, rest)
  {
    if rest.Block? { assert a + (b + rest.conds) == a + b + rest.conds; }
  }

  lemma Shift(lines: seq<string>, from: nat, used: nat)
    requires from + used <= |lines|
    ensures lines[from..][used..] == lines[from + used..]
  {
  }

  ghost function ToIndex(startIndex: nat, r: Parsed): Option<(seq<Condition>, nat)> {
    match r
    case Failed => None
    case Block(conds, used) => Some((conds, startIndex + used))
  }

  /** A block ends at the end of the text or at a line indented less. */
  lemma {:induction false} BlockStops(lines: seq<string>, indent: nat)
    requires ParseLines(lines, indent).Block?
    ensures StopsBlock(lines[ParseLines(lines, indent).used..], indent)
    decreases |lines|
  {
    hide Trim, Indent, MatchCount, MatchCompare, MatchAtomLine, MatchExistentialLine, IsExistential;
    if !StopsBlock(lines, indent) {
      var line := Trim(lines[0]);
      var skip :=
        if line == [] then 1
        else if "count_distinct " <= line then ParseLines(lines[1..], indent + 2).used + 2
        else if IsExistential(line) then ParseLines(lines[1..], indent + 2).used + 1
        else 1;
      BlockStops(lines[skip..], indent);
      Shift(lines, skip, ParseLines(lines[skip..], indent).used);
    }
  }

  /** What follows from `index` on, once the condition there has been read. */
  ghost predicate Reads(lines: seq<string>, index: nat, indent: nat, r: Option<(Condition, nat)>)
    requires index <= |lines|
  {
    match r
    case None => ParseLines(lines[index..], indent) == Failed
    case Some((c, next)) =>
      && index < next <= |lines|
      && ParseLines(lines[index..], indent) == After([c], next - index, ParseLines(lines[next..], indent))
  }

  /** One condition line at its own indentation, with the block below it. */
  method ParseCondition(lines: seq<string>, index: nat, indent: nat) returns (r: Option<(Condition, nat)>)
    requires index < |lines| && Trim(lines[index]) != [] && Indent(lines[index]) == indent
    ensures Reads(lines, index, indent, r)
    decreases |lines| - index, 0
  {
    hide ParseLines, Trim, Indent, MatchCount, MatchCompare, MatchExistentialLine, MatchAtomLine, IsExistential,
         StopsBlock;
    var line := Trim(lines[index]);
    ghost var here := lines[index..];
    assert here[0] == lines[index] && here[1..] == lines[index + 1..];
    if "count_distinct " <= line {
      AtCount(here, indent, ParseLines(here[1..], indent + 2));
      var vars := MatchCount(line);
      if vars.None? { return None; }
      var nested := ParseBlock(lines, index + 1, indent + 2);
      if nested.None? { return None; }
      var (body, next) := nested.value;
      if next == |lines| { return None; }
      Shift(lines, index, next + 1 - index);
      assert here[next - index] == lines[next];
      var compare := MatchCompare(Trim(lines[next]));
      if compare.None? { return None; }
      r := Some((CountDistinct(vars.value, body, compare.value.0, compare.value.1 as real), next + 1));
    } else if IsExistential(line) {
      AtExistential(here, indent, ParseLines(here[1..], indent + 2));
      var v := MatchExistentialLine(line);
      if v.None? { return None; }
      var nested := ParseBlock(lines, index + 1, indent + 2);
      if nested.None? { return None; }
      var (body, next) := nested.value;
      Shift(lines, index, next - index);
      r := Some((if v.value.0 then Exists([v.value.1], body) else NotExists([v.value.1], body), next));
    } else {
      AtAtom(here, indent);
      var atom := MatchAtomLine(line);
      if atom.None? { return None; }
      r := Some((atom.value, index + 1));
    }
  }

  /** Parses one block by recursion and a loop, and stops where it must. */
  method ParseBlock(lines: seq<string>, startIndex: nat, indent: nat) returns (r: Option<(seq<Condition>, nat)>)
    requires startIndex <= |lines|
    ensures r == ToIndex(startIndex, ParseLines(lines[startIndex..], indent))
    ensures r.Some? ==> startIndex <= r.value.1 <= |lines| && StopsBlock(lines[r.value.1..], indent)
    decreases |lines| - startIndex, 1
  {
    hide ParseLines, Trim, Indent;
    ghost var all := ParseLines(lines[startIndex..], indent);
    var conditions: seq<Condition> := [];
    var index := startIndex;
    assert all == After([], 0, all) by { if all.Block? { assert [] + all.conds == all.conds; } }
    while index < |lines|
      invariant startIndex <= index <= |lines|
      invariant all == After(conditions, index - startIndex, ParseLines(lines[index..], indent))
    {
      var raw := lines[index];
      if Trim(raw) == [] {
        AtBlank(lines[index..], indent);
        Shift(lines, index, 1);
        AfterAfter(conditions, index - startIndex, [], 1, ParseLines(lines[index + 1..], indent));
        assert conditions + [] == conditions;
        index := index + 1;
        continue;
      }
      if Indent(raw) < indent { break; }
      if Indent(raw) > indent {
        AtDeeper(lines[index..], indent);
        return None;
      }
      var condition := ParseCondition(lines, index, indent);
      if condition.None? { return None; }
      var (c, next) := condition.value;
      AfterAfter(conditions, index - startIndex, [c], next - index, ParseLines(lines[next..], indent));
      conditions := conditions + [c];
      index := next;
    }
    AtStop(lines[index..], indent);
    assert conditions + [] == conditions;
    r := Some((conditions, index));
  }

  /** The whole compiler, proved equal to the line grammar. */
  method CompileSurfacePolicy(source: string) returns (r: Option<Policy>)
    ensures r == CompileText(source)
  {
    hide Trim, ParseLines, MatchPolicy, MatchRuleHead;
    var lines := Split(UnixLines(source), '\n');
    var policy := EMPTY_POLICY;
    var index := 0;
    while index < |lines|
      invariant 0 <= index <= |lines|
      invariant CompileText(source) == CompileLines(lines[index..], policy)
    {
      var line := Trim(lines[index]);
      ghost var here := lines[index..];
      assert here[0] == lines[index] && here[1..] == lines[index + 1..];
      index := index + 1;
      if line == [] { continue; }
      var header := MatchPolicy(line);
      if header.Some? {
        policy := policy.(policy := Some(header.value.0), version := Some(header.value.1));
        continue;
      }
      var head := MatchRuleHead(line);
      if head.None? { return None; }
      var (isRule, name, params) := head.value;
      var parsed := ParseBlock(lines, index, 2);
      if parsed.None? { return None; }
      Shift(lines, index - 1, parsed.value.1 - index + 1);
      policy := AddEntry(policy, isRule, Entry(name, params, parsed.value.0));
      index := parsed.value.1;
    }
    assert lines[index..] == [];
    r := Some(policy);
  }
}

/** The block parser, one line of the grammar at a time. */
module SurfaceSteps {
  import opened CclPolicy
  import opened Text
  import opened SurfaceSyntax

  lemma AtBlank(lines: seq<string>, indent: nat)
    requires lines != [] && Trim(lines[0]) == []
    ensures ParseLines(lines, indent) == After([], 1, ParseLines(lines[1..], indent))
  {
  }

  lemma AtStop(lines: seq<string>, indent: nat)
    requires StopsBlock(lines, indent)
    ensures ParseLines(lines, indent) == Block([], 0)
  {
  }

  lemma AtDeeper(lines: seq<string>, indent: nat)
    requires lines != [] && Trim(lines[0]) != [] && Indent(lines[0]) > indent
    ensures ParseLines(lines, indent) == Failed
  {
  }

  lemma AtCount(lines: seq<string>, indent: nat, body: Parsed)
    requires lines != [] && Trim(lines[0]) != [] && Indent(lines[0]) == indent && "count_distinct " <= Trim(lines[0])
    requires body == ParseLines(lines[1..], indent + 2)
    ensures var vars := MatchCount(Trim(lines[0]));
            ParseLines(lines, indent) ==
            if vars.None? || body.Failed? || body.used + 1 == |lines| then Failed
            else
              var compare := MatchCompare(Trim(lines[body.used + 1]));
              if compare.None? then Failed
              else After([CountDistinct(vars.value, body.conds, compare.value.0, compare.value.1 as real)],
                         body.used + 2, ParseLines(lines[body.used + 2..], indent))
  {
    hide Trim, Indent, MatchCount, MatchCompare, MatchAtomLine, MatchExistentialLine, IsExistential;
  }

  lemma AtExistential(lines: seq<string>, indent: nat, body: Parsed)
    requires lines != [] && Trim(lines[0]) != [] && Indent(lines[0]) == indent
    requires !("count_distinct " <= Trim(lines[0])) && IsExistential(Trim(lines[0]))
    requires body == ParseLines(lines[1..], indent + 2)
    ensures var v := MatchExistentialLine(Trim(lines[0]));
            ParseLines(lines, indent) ==
            if v.None? || body.Failed? then Failed
            else
              var c := if v.value.0 then Exists([v.value.1], body.conds) else NotExists([v.value.1], body.conds);
              After([c], body.used + 1, ParseLines(lines[body.used + 1..], indent))
  {
    hide Trim, Indent, MatchCount, MatchCompare, MatchAtomLine, MatchExistentialLine, IsExistential;
  }

  lemma AtAtom(lines: seq<string>, indent: nat)
    requires lines != [] && Trim(lines[0]) != [] && Indent(lines[0]) == indent
    requires !("count_distinct " <= Trim(lines[0])) && !IsExistential(Trim(lines[0]))
    ensures var c := MatchAtomLine(Trim(lines[0]));
            ParseLines(lines, indent) == if c.None? then Failed else After([c.value], 1, ParseLines(lines[1..], indent))
  {
    hide Trim, Indent, MatchCount, MatchCompare, MatchAtomLine, MatchExistentialLine, IsExistential;
  }
}

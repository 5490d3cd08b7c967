/** Blank lines do not matter, wherever they stand. */
module SurfaceBlank {
  import opened Wrappers
  import opened CclPolicy
  import opened Text
  import opened SurfaceSyntax
  import opened SurfaceSteps

  /** A block parsed with one more blank line after its first `n` lines. */
  function WithBlank(r: Parsed, n: nat): Parsed {
    match r
    case Failed => Failed
    case Block(conds, used) => Block(conds, if n <= used then used + 1 else used)
  }

  /** Dropping lines before a blank line. */
  lemma DropBefore(pre: seq<string>, b: string, post: seq<string>, n: nat)
    requires n <= |pre|
    ensures (pre + [b] + post)[n..] == pre[n..] + [b] + post && (pre + post)[n..] == pre[n..] + post
  {
  }

  /** Dropping lines up to and past a blank line. */
  lemma DropPast(pre: seq<string>, b: string, post: seq<string>, n: nat)
    requires |pre| <= n <= |pre| + |post|
    ensures (pre + [b] + post)[n + 1..] == (pre + post)[n..]
  {
    assert (pre + post)[n..] == post[n - |pre|..];
  }

  /** A blank line changes nothing but the number of lines a block uses. */
  lemma {:induction false} BlankInBlock(pre: seq<string>, b: string, post: seq<string>, indent: nat)
    requires Trim(b) == []
    ensures ParseLines(pre + [b] + post, indent) == WithBlank(ParseLines(pre + post, indent), |pre|)
    decreases |pre| + |post|, 2
  {
    hide ParseLines, Trim, Indent, IsExistential;
    var lines, lines' := pre + post, pre + [b] + post;
    if pre == [] {
      AtBlank(lines', indent);
      assert lines'[1..] == post == lines;
      assert forall r: Parsed :: r.Block? ==> [] + r.conds == r.conds;
    } else {
      assert lines[0] == lines'[0] == pre[0];
      DropBefore(pre, b, post, 1);
      if Trim(pre[0]) == [] {
        AtBlank(lines, indent);
        AtBlank(lines', indent);
        BlankInBlock(pre[1..], b, post, indent);
      } else if Indent(pre[0]) < indent {
        AtStop(lines, indent);
        AtStop(lines', indent);
      } else if Indent(pre[0]) > indent {
        AtDeeper(lines, indent);
        AtDeeper(lines', indent);
      } else {
        BlankBelow(pre, b, post, indent);
      }
    }
  }

  /** The same below a condition line. */
  lemma {:induction false} BlankBelow(pre: seq<string>, b: string, post: seq<string>, indent: nat)
    requires Trim(b) == [] && pre != [] && Trim(pre[0]) != [] && Indent(pre[0]) == indent
    ensures ParseLines(pre + [b] + post, indent) == WithBlank(ParseLines(pre + post, indent), |pre|)
    decreases |pre| + |post|, 1
  {
    hide ParseLines, Trim, Indent, IsExistential, MatchCount, MatchCompare, MatchExistentialLine, MatchAtomLine;
    var lines, lines', line := pre + post, pre + [b] + post, Trim(pre[0]);
    assert lines[0] == lines'[0] == pre[0];
    DropBefore(pre, b, post, 1);
    if !("count_distinct " <= line) && !IsExistential(line) {
      AtAtom(lines, indent);
      AtAtom(lines', indent);
      BlankInBlock(pre[1..], b, post, indent);
    } else {
      var body, body' := ParseLines(lines[1..], indent + 2), ParseLines(lines'[1..], indent + 2);
      BlankInBlock(pre[1..], b, post, indent + 2);
      if "count_distinct " <= line {
        AtCount(lines, indent, body);
        AtCount(lines', indent, body');
        if body.Block? && body.used + 1 < |lines| {
          assert lines'[body'.used + 1] == lines[body.used + 1];
          BlankAfter(pre, b, post, indent, body.used + 2, |pre| - 1 <= body.used);
        }
      } else {
        AtExistential(lines, indent, body);
        AtExistential(lines', indent, body');
        if body.Block? { BlankAfter(pre, b, post, indent, body.used + 1, |pre| - 1 <= body.used); }
      }
    }
  }

  /** What is left after a condition that ends at `end`, the blank line being past or
      still to come. */
  lemma {:induction false} BlankAfter(pre: seq<string>, b: string, post: seq<string>, indent: nat, end: nat, past: bool)
    requires Trim(b) == [] && 0 < end <= |pre| + |post| && (if past then |pre| <= end else end <= |pre|)
    ensures var rest := ParseLines((pre + post)[end..], indent);
            ParseLines((pre + [b] + post)[if past then end + 1 else end..], indent) ==
            if past then rest else WithBlank(rest, |pre| - end)
    decreases |pre| + |post|, 0
  {
    if past {
      DropPast(pre, b, post, end);
    } else {
      DropBefore(pre, b, post, end);
      BlankInBlock(pre[end..], b, post, indent);
    }
  }

  /** A blank line anywhere leaves the compiled policy, or the failure, as it is. */
  lemma {:induction false} BlankInText(pre: seq<string>, b: string, post: seq<string>, sofar: Policy)
    requires Trim(b) == []
    ensures CompileLines(pre + [b] + post, sofar) == CompileLines(pre + post, sofar)
    decreases |pre| + |post|, 1
  {
    hide ParseLines, Trim, MatchPolicy, MatchRuleHead, AddEntry;
    var lines, lines' := pre + post, pre + [b] + post;
    if pre == [] {
      assert lines'[0] == b && lines'[1..] == post == lines;
    } else {
      var line := Trim(pre[0]);
      assert lines[0] == lines'[0] == pre[0];
      DropBefore(pre, b, post, 1);
      if line == [] {
        BlankInText(pre[1..], b, post, sofar);
      } else if MatchPolicy(line).Some? {
        var (name, version) := MatchPolicy(line).value;
        BlankInText(pre[1..], b, post, sofar.(policy := Some(name), version := Some(version)));
      } else if MatchRuleHead(line).Some? {
        BlankInBlock(pre[1..], b, post, 2);
        BlankAfterEntry(pre, b, post, sofar);
      }
    }
  }

  lemma {:induction false} BlankAfterEntry(pre: seq<string>, b: string, post: seq<string>, sofar: Policy)
    requires Trim(b) == [] && pre != [] && Trim(pre[0]) != []
    requires MatchPolicy(Trim(pre[0])).None? && MatchRuleHead(Trim(pre[0])).Some?
    requires ParseLines((pre + [b] + post)[1..], 2) == WithBlank(ParseLines((pre + post)[1..], 2), |pre| - 1)
    ensures CompileLines(pre + [b] + post, sofar) == CompileLines(pre + post, sofar)
    decreases |pre| + |post|, 0
  {
    hide ParseLines, Trim, MatchPolicy, MatchRuleHead, AddEntry;
    var lines, lines' := pre + post, pre + [b] + post;
    var (isRule, name, params) := MatchRuleHead(Trim(pre[0])).value;
    var body := ParseLines(lines[1..], 2);
    assert lines[0] == lines'[0] == pre[0];
    if body.Block? {
      var end, next := body.used + 1, AddEntry(sofar, isRule, Entry(name, params, body.conds));
      if |pre| - 1 <= body.used {
        DropPast(pre, b, post, end);
      } else {
        DropBefore(pre, b, post, end);
        BlankInText(pre[end..], b, post, next);
      }
    }
  }
}

/** The surface language: line patterns, blocks by indentation, and the
    canonical printer. */
module SurfaceSyntax {
  import opened Wrappers
  import opened CclPolicy
  import opened Text

  // ----- Line patterns -----------------------------------------------------------

  function DropPrefix(prefix: string, s: string): Option<string> {
    if prefix <= s then Some(s[|prefix|..]) else None
  }

  /** `\s+` */
  function DropSpaces(s: string): Option<string> {
    if SpaceLen(s) == 0 then None else Some(s[SpaceLen(s)..])
  }

  /** `\w+` */
  function TakeWord(s: string): Option<(string, string)> {
    if WordLen(s) == 0 then None else Some((s[..WordLen(s)], s[WordLen(s)..]))
  }

  predicate HasSpace(s: string) {
    exists i :: 0 <= i < |s| && IsSpace(s[i])
  }

  predicate HasLineBreak(s: string) {
    exists i :: 0 <= i < |s| && IsLineBreak(s[i])
  }

  /** `policy NAME vVERSION` */
  function MatchPolicy(line: string): Option<(string, string)> {
    var a :- DropPrefix("policy", line);
    var b :- DropSpaces(a);
    var (name, c) :- TakeWord(b);
    var d :- DropSpaces(c);
    var version :- DropPrefix("v", d);
    if version == [] || HasSpace(version) then None else Some((name, version))
  }

  /** Index of the first ')' or the length. */
  function ParenAt(s: string): (n: nat)
    ensures n <= |s|
  {
    if s != [] && s[0] != ')' then 1 + ParenAt(s[1..]) else 0
  }

  /** `KEYWORD NAME(PARAMS):` */
  function MatchHead(keyword: string, line: string): Option<(string, seq<string>)> {
    var a :- DropPrefix(keyword, line);
    var b :- DropSpaces(a);
    var (name, c) :- TakeWord(b);
    var params :- DropPrefix("(", c);
    if params[ParenAt(params)..] != "):" then None
    else Some((name, SplitArgs(params[..ParenAt(params)])))
  }

  /** `V1, V2, ... where`, after the keyword and its blanks. */
  function MatchVars(s: string): Option<seq<string>>
    decreases |s|
  {
    var (v, a) :- TakeWord(s);
    var b := a[SpaceLen(a)..];
    if b != [] && b[0] == ',' then
      var c := b[1..];
      var vars :- MatchVars(c[SpaceLen(c)..]);
      Some([v] + vars)
    else if SpaceLen(a) > 0 && b == "where" then Some([v])
    else None
  }

  function MatchCount(line: string): Option<seq<string>> {
    var a :- DropPrefix("count_distinct", line);
    var b :- DropSpaces(a);
    MatchVars(b)
  }

  /** `KEYWORD VAR where` */
  function MatchExistential(keyword: string, line: string): Option<string> {
    var a :- DropPrefix(keyword, line);
    var b :- DropSpaces(a);
    var (v, c) :- TakeWord(b);
    var d :- DropSpaces(c);
    if d != "where" then None else Some(v)
  }

  function MatchThreshold(op: Comparator, rest: string): Option<(Comparator, nat)> {
    var digits :- DropSpaces(rest);
    if digits == [] || !AllDigits(digits) then None else Some((op, Decimal(digits)))
  }

  /** `OP NUMBER` */
  function MatchCompare(line: string): Option<(Comparator, nat)> {
    if ">=" <= line then MatchThreshold(Ge, line[2..])
    else if "<=" <= line then MatchThreshold(Le, line[2..])
    else if "==" <= line then MatchThreshold(Eq, line[2..])
    else if ">" <= line then MatchThreshold(Gt, line[1..])
    else if "<" <= line then MatchThreshold(Lt, line[1..])
    else None
  }

  function TrimAll(parts: seq<string>): seq<string> {
    if parts == [] then []
    else if Trim(parts[0]) == [] then TrimAll(parts[1..])
    else [Trim(parts[0])] + TrimAll(parts[1..])
  }

  function SplitArgs(s: string): seq<string> {
    TrimAll(Split(s, ','))
  }

  /** `[A-Z][A-Za-z0-9_]*` */
  predicate IsCapitalized(s: string) {
    IsIdent(s) && 'A' <= s[0] <= 'Z'
  }

  /** `-?\d+` */
  predicate IsInteger(s: string) {
    if s != [] && s[0] == '-' then |s| > 1 && AllDigits(s[1..]) else s != [] && AllDigits(s)
  }

  function IntegerValue(s: string): int
    requires IsInteger(s)
  {
    if s[0] == '-' then -(Decimal(s[1..]) as int) else Decimal(s)
  }

  function ToCanonicalArg(s: string): Value {
    if IsCapitalized(s) then Str("$" + s)
    else if IsInteger(s) then Num(IntegerValue(s))
    else Str(s)
  }

  function CanonicalArgs(args: seq<string>): seq<Value> {
    seq(|args|, i requires 0 <= i < |args| => ToCanonicalArg(args[i]))
  }

  /** `PRED(ARGS)`, the arguments reaching to the last ')'. */
  function MatchAtomLine(line: string): Option<Condition> {
    var (pred, a) :- TakeWord(line);
    var b :- DropPrefix("(", a);
    if b == [] || b[|b| - 1] != ')' || HasLineBreak(b[..|b| - 1]) then None
    else Some(Atom(pred, CanonicalArgs(SplitArgs(b[..|b| - 1]))))
  }

  // ----- Blocks ------------------------------------------------------------------

  /** Conditions of a block and the number of lines it used. */
  datatype Parsed = Failed | Block(conds: seq<Condition>, used: nat)

  function After(conds: seq<Condition>, used: nat, rest: Parsed): Parsed {
    match rest
    case Failed => Failed
    case Block(more, n) => Block(conds + more, used + n)
  }

  predicate IsExistential(line: string) {
    "exists " <= line || "not exists " <= line
  }

  function MatchExistentialLine(line: string): Option<(bool, string)>
    requires IsExistential(line)
  {
    var positive := "exists " <= line;
    var v :- MatchExistential(if positive then "exists" else "not exists", line);
    Some((positive, v))
  }

  /** A block stops at the end of the text or at a line indented less. */
  predicate StopsBlock(lines: seq<string>, indent: nat) {
    lines == [] || (Trim(lines[0]) != [] && Indent(lines[0]) < indent)
  }

  function ParseLines(lines: seq<string>, indent: nat): (r: Parsed)
    ensures r.Block? ==> r.used <= |lines|
    decreases |lines|
  {
    if lines == [] then Block([], 0)
    else if Trim(lines[0]) == [] then After([], 1, ParseLines(lines[1..], indent))
    else if Indent(lines[0]) < indent then Block([], 0)
    else if Indent(lines[0]) > indent then Failed
    else
      var line := Trim(lines[0]);
      if "count_distinct " <= line then
        var vars := MatchCount(line);
        var body := ParseLines(lines[1..], indent + 2);
        if vars.None? || body.Failed? || body.used + 1 == |lines| then Failed
        else
          var compare := MatchCompare(Trim(lines[body.used + 1]));
          if compare.None? then Failed
          else
            After([CountDistinct(vars.value, body.conds, compare.value.0, compare.value.1 as real)],
                  body.used + 2, ParseLines(lines[body.used + 2..], indent))
      else if IsExistential(line) then
        var v := MatchExistentialLine(line);
        var body := ParseLines(lines[1..], indent + 2);
        if v.None? || body.Failed? then Failed
        else
          var c := if v.value.0 then Exists([v.value.1], body.conds) else NotExists([v.value.1], body.conds);
          After([c], body.used + 1, ParseLines(lines[body.used + 1..], indent))
      else
        match MatchAtomLine(line)
        case None => Failed
        case Some(c) => After([c], 1, ParseLines(lines[1..], indent))
  }

  // ----- Policies -----------------------------------------------------------------

  const EMPTY_POLICY: Policy := Policy(None, None, [], [])

  function MatchRuleHead(line: string): Option<(bool, string, seq<string>)> {
    match MatchHead("rule", line)
    case Some((name, params)) => Some((true, name, params))
    case None =>
      match MatchHead("decision", line)
      case Some((name, params)) => Some((false, name, params))
      case None => None
  }

  function AddEntry(p: Policy, isRule: bool, e: Entry): Policy {
    if isRule then p.(rules := p.rules + [e]) else p.(decisions := p.decisions + [e])
  }

  function CompileLines(lines: seq<string>, sofar: Policy): Option<Policy>
    decreases |lines|
  {
    if lines == [] then Some(sofar)
    else
      var line := Trim(lines[0]);
      if line == [] then CompileLines(lines[1..], sofar)
      else
        match MatchPolicy(line)
        case Some((name, version)) =>
          CompileLines(lines[1..], sofar.(policy := Some(name), version := Some(version)))
        case None =>
          match MatchRuleHead(line)
          case None => None
          case Some((isRule, name, params)) =>
            var body := ParseLines(lines[1..], 2);
            if body.Failed? then None
            else CompileLines(lines[body.used + 1..], AddEntry(sofar, isRule, Entry(name, params, body.conds)))
  }

  /** Replaces every CR LF by LF. */
  function UnixLines(s: string): string {
    if |s| >= 2 && s[0] == '\r' && s[1] == '\n' then ['\n'] + UnixLines(s[2..])
    else if s == [] then []
    else [s[0]] + UnixLines(s[1..])
  }

  function CompileText(source: string): Option<Policy> {
    CompileLines(Split(UnixLines(source), '\n'), EMPTY_POLICY)
  }

  // ----- Printer ------------------------------------------------------------------

  function PrintArg(v: Value): string {
    match v
    case Num(n) => if n < 0 then "-" + Digits(-n) else Digits(n)
    case Str(s) => if |s| > 0 && s[0] == '$' && IsCapitalized(s[1..]) then s[1..] else s
    case _ => []
  }

  function PrintArgs(args: seq<Value>): seq<string> {
    seq(|args|, i requires 0 <= i < |args| => PrintArg(args[i]))
  }

  function PrintOp(op: Comparator): string {
    match op
    case Ge => ">="
    case Gt => ">"
    case Eq => "=="
    case Le => "<="
    case Lt => "<"
    case Unsupported => "?"
  }

  function PrintCondition(c: Condition, indent: nat): seq<string>
    decreases c
  {
    match c
    case Atom(p, args) => [Spaces(indent) + AtomText(p, args)]
    case Exists(vars, body) => [Spaces(indent) + ExistsText("exists", vars)] + PrintConditions(body, indent + 2)
    case NotExists(vars, body) => [Spaces(indent) + ExistsText("not exists", vars)] + PrintConditions(body, indent + 2)
    case CountDistinct(vars, body, op, value) =>
      [Spaces(indent) + CountText(vars)] + PrintConditions(body, indent + 2) + [Spaces(indent) + CompareText(op, value)]
    case Malformed => []
  }

  function PrintConditions(conds: seq<Condition>, indent: nat): seq<string>
    decreases conds
  {
    if conds == [] then [] else PrintCondition(conds[0], indent) + PrintConditions(conds[1..], indent)
  }

  function AtomText(p: string, args: seq<Value>): string { p + ("(" + (Join(PrintArgs(args), ", ") + ")")) }

  function ExistsText(keyword: string, vars: seq<string>): string { keyword + (" " + VarsText(vars)) }

  function VarsText(vars: seq<string>): string { Join(vars, ", ") + " where" }

  function CountText(vars: seq<string>): string { "count_distinct" + (" " + VarsText(vars)) }

  function CompareText(op: Comparator, value: real): string {
    PrintOp(op) + (" " + (if value >= 0.0 then Digits(value.Floor) else "?"))
  }

  function HeadText(keyword: string, e: Entry): string {
    keyword + (" " + (e.name + ("(" + (Join(e.params, ", ") + "):"))))
  }

  function PolicyText(name: string, version: string): string {
    "policy" + (" " + (name + (" " + ("v" + version))))
  }

  function PrintEntries(keyword: string, entries: seq<Entry>): seq<string> {
    if entries == [] then []
    else [HeadText(keyword, entries[0])] + PrintConditions(entries[0].all, 2) + PrintEntries(keyword, entries[1..])
  }

  function PrintHeader(p: Policy): seq<string> {
    if p.policy.Some? && p.version.Some? then [PolicyText(p.policy.value, p.version.value)] else []
  }

  function PrintLines(p: Policy): seq<string> {
    PrintHeader(p) + PrintEntries("rule", p.rules) + PrintEntries("decision", p.decisions)
  }

  function PrintPolicy(p: Policy): string {
    Join(PrintLines(p), "\n")
  }

  // ----- Policies the surface language can express ----------------------------------

  predicate WellFormedArg(v: Value) {
    match v
    case Num(_) => true
    case Str(s) =>
      && s != [] && Tight(s) && ',' !in s && !IsCapitalized(s) && !IsInteger(s)
      && !HasLineBreak(s)
    case _ => false
  }

  predicate WellFormedParam(s: string) {
    s != [] && Tight(s) && ',' !in s && ')' !in s && '\n' !in s
  }

  predicate AllIdents(vars: seq<string>) {
    forall i :: 0 <= i < |vars| ==> IsIdent(vars[i])
  }

  predicate WellFormedCondition(c: Condition)
    decreases c, 0
  {
    match c
    case Atom(p, args) => IsIdent(p) && forall i :: 0 <= i < |args| ==> WellFormedArg(args[i])
    case Exists(vars, body) => |vars| == 1 && IsIdent(vars[0]) && WellFormedConditions(body)
    case NotExists(vars, body) => |vars| == 1 && IsIdent(vars[0]) && WellFormedConditions(body)
    case CountDistinct(vars, body, op, value) =>
      && vars != [] && AllIdents(vars) && WellFormedConditions(body) && op != Unsupported
      && value >= 0.0 && value.Floor as real == value
    case Malformed => false
  }

  predicate WellFormedConditions(conds: seq<Condition>)
    decreases conds, 1
  {
    forall i :: 0 <= i < |conds| ==> WellFormedCondition(conds[i])
  }

  predicate WellFormedEntry(e: Entry) {
    && IsIdent(e.name) && WellFormedConditions(e.all)
    && forall i :: 0 <= i < |e.params| ==> WellFormedParam(e.params[i])
  }

  predicate WellFormedVersion(s: string) {
    s != [] && !HasSpace(s)
  }

  predicate WellFormed(p: Policy) {
    && (p.policy.Some? <==> p.version.Some?)
    && (p.policy.Some? ==> IsIdent(p.policy.value) && WellFormedVersion(p.version.value))
    && (forall i :: 0 <= i < |p.rules| ==> WellFormedEntry(p.rules[i]))
    && (forall i :: 0 <= i < |p.decisions| ==> WellFormedEntry(p.decisions[i]))
  }
}

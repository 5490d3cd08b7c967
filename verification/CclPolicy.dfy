/** Canonical CCL policies, facts and bindings. */
module CclPolicy {

  import opened Wrappers

  /** Scalars a fact or an argument can hold. `Unbound` is the `undefined` that
      a head parameter gets when the rule body never binds it. */
  datatype Value = Str(s: string) | Num(n: int) | Bool(b: bool) | Unbound

  type Tuple = seq<Value>

  type Binding = map<string, Value>

  datatype Fact = Fact(pred: string, args: Tuple)

  type Db = set<Fact>

  /** `Unsupported` stands for every operator text outside the five known ones. */
  datatype Comparator = Ge | Gt | Eq | Le | Lt | Unsupported

  /** `vars` of an existential is written by the surface compiler and never read
      by the evaluator. `Malformed` is an object with none of the four keys. */
  datatype Condition =
    | Atom(pred: string, args: seq<Value>)
    | Exists(vars: seq<string>, body: seq<Condition>)
    | NotExists(vars: seq<string>, body: seq<Condition>)
    | CountDistinct(vars: seq<string>, body: seq<Condition>, op: Comparator, value: real)
    | Malformed

  /** A rule or a decision. */
  datatype Entry = Entry(name: string, params: seq<string>, all: seq<Condition>)

  datatype Policy = Policy(
    policy: Option<string>, version: Option<string>,
    rules: seq<Entry>, decisions: seq<Entry>)

  predicate IsVar(v: Value) {
    v.Str? && |v.s| > 0 && v.s[0] == '$'
  }

  function NormalizeVarName(name: string): string {
    if |name| > 0 && name[0] == '$' then name else "$" + name
  }

  function Lookup(b: Binding, name: string): Value {
    if name in b then b[name] else Unbound
  }

  /** The tuple a binding gives for a list of parameter names. */
  function Project(names: seq<string>, b: Binding): Tuple {
    seq(|names|, i requires 0 <= i < |names| => Lookup(b, NormalizeVarName(names[i])))
  }

  predicate Compare(size: nat, op: Comparator, value: real) {
    var left := size as real;
    match op
    case Ge => left >= value
    case Gt => left > value
    case Eq => left == value
    case Le => left <= value
    case Lt => left < value
    case Unsupported => false
  }

  /** What validateCondition accepts, for one condition and for a list. */
  predicate ValidCondition(c: Condition) {
    match c
    case Atom(_, _) => true
    case Exists(_, body) => ValidConditions(body)
    case NotExists(_, body) => ValidConditions(body)
    case CountDistinct(_, body, op, _) => op != Unsupported && ValidConditions(body)
    case Malformed => false
  }

  predicate ValidConditions(conds: seq<Condition>) {
    forall i :: 0 <= i < |conds| ==> ValidCondition(conds[i])
  }

  predicate ValidEntries(entries: seq<Entry>) {
    forall i :: 0 <= i < |entries| ==> ValidConditions(entries[i].all)
  }

  predicate ValidPolicy(p: Policy) {
    ValidEntries(p.rules) && ValidEntries(p.decisions)
  }

  /** Predicates a condition list reads, at any nesting. */
  function Preds(conds: seq<Condition>): set<string> {
    if conds == [] then {} else PredsOf(conds[0]) + Preds(conds[1..])
  }

  function PredsOf(c: Condition): set<string> {
    match c
    case Atom(p, _) => {p}
    case Exists(_, body) => Preds(body)
    case NotExists(_, body) => Preds(body)
    case CountDistinct(_, body, _, _) => Preds(body)
    case Malformed => {}
  }

  /** Predicates read where more facts can mean fewer solutions. */
  function NegPreds(conds: seq<Condition>): set<string> {
    if conds == [] then {} else NegPredsOf(conds[0]) + NegPreds(conds[1..])
  }

  function NegPredsOf(c: Condition): set<string> {
    match c
    case Atom(_, _) => {}
    case Exists(_, body) => NegPreds(body)
    case NotExists(_, body) => Preds(body)
    case CountDistinct(_, body, op, _) => if op == Ge || op == Gt then NegPreds(body) else Preds(body)
    case Malformed => {}
  }

  /** No negation, and counts only from below. */
  predicate Positive(conds: seq<Condition>) {
    forall i :: 0 <= i < |conds| ==> PositiveCondition(conds[i])
  }

  predicate PositiveCondition(c: Condition) {
    match c
    case Atom(_, _) => true
    case Exists(_, body) => Positive(body)
    case NotExists(_, _) => false
    case CountDistinct(_, body, op, _) => (op == Ge || op == Gt) && Positive(body)
    case Malformed => true
  }
}

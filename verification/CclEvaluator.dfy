/** The evaluator object: relations that rules extend in place, evaluated with
    loops over binding lists, proved against the set semantics. */
module CclEvaluator {
  import opened Wrappers
  import opened CclPolicy
  import opened CclSemantics
  import opened CclFixpoint
  import opened CclSorting

  datatype Error = UnsupportedCondition | NoConvergence

  datatype Result<+T> = Ok(value: T) | Err(error: Error)

  type Output = map<string, seq<Tuple>>

  datatype Evaluation = Evaluation(derived: Output, decisions: Output)

  function FactSet(facts: seq<Fact>): Db {
    Elements(facts)
  }

  function RelationOf(db: Db, pred: string): set<Tuple> {
    set f | f in db && f.pred == pred :: f.args
  }

  function HeadTuples(db: Db, e: Entry): set<Tuple> {
    Projections(e.params, Solve(db, e.all, map[]))
  }

  /** The last decision with a given name, as later ones overwrite earlier ones. */
  function LastNamed(entries: seq<Entry>, name: string): Option<Entry> {
    if entries == [] then None
    else if entries[|entries| - 1].name == name then Some(entries[|entries| - 1])
    else LastNamed(entries[..|entries| - 1], name)
  }

  /** `out` lists, in order, the derived relations and decisions of the fact set `m`. */
  ghost predicate Reports(leq: (Tuple, Tuple) -> bool, policy: Policy, m: Db, out: Evaluation) {
    && out.derived.Keys == Names(policy.rules)
    && (forall name :: name in out.derived ==> Lists(leq, out.derived[name], RelationOf(m, name)))
    && out.decisions.Keys == Names(policy.decisions)
    && (forall name :: name in out.decisions ==>
          && LastNamed(policy.decisions, name).Some?
          && Lists(leq, out.decisions[name], HeadTuples(m, LastNamed(policy.decisions, name).value)))
  }

  /** What a run must return: it depends on the policy and the set of facts only. */
  ghost predicate RunSpec(leq: (Tuple, Tuple) -> bool, policy: Policy, facts: Db, r: Result<Evaluation>) {
    match r
    case Ok(out) =>
      && Fixpoint(facts, policy.rules, MAX_ROUNDS).Some?
      && Reports(leq, policy, Fixpoint(facts, policy.rules, MAX_ROUNDS).value, out)
    case Err(NoConvergence) => Fixpoint(facts, policy.rules, MAX_ROUNDS).None?
    case Err(UnsupportedCondition) => !ValidPolicy(policy)
  }

  class Evaluator {
    const policy: Policy
    /** compareTuples(x, y) <= 0 */
    const leq: (Tuple, Tuple) -> bool
    /** Each relation keeps its tuples in insertion order, as a Map does. */
    var relations: map<string, seq<Tuple>>

    ghost predicate Valid()
      reads this
    {
      TotalOrder(leq) && forall p :: p in relations ==> Distinct(relations[p])
    }

    ghost function Contents(): Db
      reads this
    {
      set p, t | p in relations && t in relations[p] :: Fact(p, t)
    }

    function Relation(pred: string): seq<Tuple>
      reads this
    {
      if pred in relations then relations[pred] else []
    }

    lemma RelationContents(pred: string)
      ensures forall t :: t in Relation(pred) <==> Fact(pred, t) in Contents()
      ensures Elements(Relation(pred)) == RelationOf(Contents(), pred)
    {
      forall t | t in RelationOf(Contents(), pred) ensures t in Relation(pred) {
        var f :| f in Contents() && f.pred == pred && f.args == t;
      }
      forall t | t in Relation(pred) ensures t in RelationOf(Contents(), pred) {
        assert Fact(pred, t) in Contents();
      }
    }

    constructor (policy: Policy, facts: seq<Fact>, leq: (Tuple, Tuple) -> bool)
      requires TotalOrder(leq)
      ensures Valid() && this.policy == policy && this.leq == leq
      ensures Contents() == FactSet(facts)
    {
      this.policy := policy;
      this.leq := leq;
      this.relations := map[];
      new;
      for i := 0 to |facts|
        invariant Valid()
        invariant Contents() == FactSet(facts[..i])
      {
        AddTuple(facts[i].pred, facts[i].args);
        assert facts[..i + 1] == facts[..i] + [facts[i]];
        assert facts[i] == Fact(facts[i].pred, facts[i].args);
      }
      assert facts[..|facts|] == facts;
    }

    /** relation.set(tupleKey(t), t): a known tuple keeps its place. */
    method AddTuple(pred: string, t: Tuple)
      requires Valid()
      modifies this
      ensures Valid()
      ensures Contents() == old(Contents()) + {Fact(pred, t)}
      ensures |Relation(pred)| >= old(|Relation(pred)|)
      ensures |Relation(pred)| == old(|Relation(pred)|) <==> Fact(pred, t) in old(Contents())
    {
      RelationContents(pred);
      if t !in Relation(pred) {
        relations := relations[pred := Relation(pred) + [t]];
      }
      forall f ensures f in Contents() <==> f in old(Contents()) || f == Fact(pred, t) {
        if f in old(Contents()) {
          assert f.args in relations[f.pred];
        }
      }
    }

    /** Left-to-right comparison of one tuple with the arguments. */
    static method UnifyTuple(args: seq<Value>, tuple: Tuple, binding: Binding) returns (r: Option<Binding>)
      requires |args| == |tuple|
      ensures r == Unify(args, tuple, binding)
    {
      var candidate := binding;
      for i := 0 to |args|
        invariant Unify(args, tuple, binding) == Unify(args[i..], tuple[i..], candidate)
      {
        var term, value := args[i], tuple[i];
        assert args[i..][1..] == args[i + 1..] && tuple[i..][1..] == tuple[i + 1..];
        if IsVar(term) {
          if term.s in candidate {
            if candidate[term.s] != value { return None; }
          } else {
            candidate := candidate[term.s := value];
          }
        } else if term != value {
          return None;
        }
      }
      r := Some(candidate);
    }

    method MatchAtom(pred: string, args: seq<Value>, binding: Binding) returns (out: seq<Binding>)
      requires Valid()
      ensures Elements(out) == CclSemantics.MatchAtom(Contents(), pred, args, binding)
    {
      out := [];
      var tuples := Sort(leq, Relation(pred));
      for n := 0 to |tuples|
        invariant Elements(out) == Unifiers(args, tuples[..n], binding)
      {
        var tuple := tuples[n];
        assert tuples[..n + 1] == tuples[..n] + [tuple];
        UnifiersSnoc(args, tuples[..n], tuple, binding);
        if |tuple| == |args| {
          var candidate := UnifyTuple(args, tuple, binding);
          if candidate.Some? { out := out + [candidate.value]; }
        }
      }
      assert tuples[..|tuples|] == tuples;
      SortLists(leq, Relation(pred));
      RelationContents(pred);
      UnifiersAreMatches(Contents(), pred, args, tuples, binding);
    }

    /** Soundness and completeness of the loops: the list holds exactly the
        solutions reachable from the starting bindings. */
    method EvaluateConditions(conditions: seq<Condition>, bindings: seq<Binding>) returns (r: Result<seq<Binding>>)
      requires Valid()
      ensures r.Ok? ==> Elements(r.value) == SolveAll(Contents(), conditions, Elements(bindings))
      ensures r.Err? ==> r.error == UnsupportedCondition && !ValidConditions(conditions)
      decreases conditions, 1
    {
      var current := bindings;
      var i := 0;
      while i < |conditions|
        invariant 0 <= i <= |conditions|
        invariant SolveAll(Contents(), conditions, Elements(bindings)) ==
                  SolveAll(Contents(), conditions[i..], Elements(current))
      {
        var next: seq<Binding> := [];
        for n := 0 to |current|
          invariant forall m :: m in next <==>
                      exists k :: 0 <= k < n && m in Step(Contents(), conditions[i], current[k])
        {
          var found := EvaluateCondition(conditions[i], current[n]);
          if found.Err? { return Err(found.error); }
          next := next + found.value;
        }
        AdvanceAll(Contents(), conditions[i..], Elements(current), Elements(next)) by {
          forall m ensures m in Elements(next) <==>
                           exists b :: b in Elements(current) && m in Step(Contents(), conditions[i], b) {
            if m in next {
              var k :| 0 <= k < |current| && m in Step(Contents(), conditions[i], current[k]);
              assert current[k] in Elements(current);
            }
            if b :| b in Elements(current) && m in Step(Contents(), conditions[i], b) {
              var k :| 0 <= k < |current| && current[k] == b;
            }
          }
        }
        assert conditions[i..][1..] == conditions[i + 1..];
        current := next;
        i := i + 1;
        if |current| == 0 {
          assert SolveAll(Contents(), conditions[i..], {}) == {};
          return Ok(current);
        }
      }
      assert conditions[i..] == [];
      assert SolveAll(Contents(), [], Elements(current)) == Elements(current) by {
        SolveAllNil(Contents(), Elements(current));
      }
      r := Ok(current);
    }

    method EvaluateCondition(condition: Condition, binding: Binding) returns (r: Result<seq<Binding>>)
      requires Valid()
      ensures r.Ok? ==> Elements(r.value) == Step(Contents(), condition, binding)
      ensures r.Err? ==> r.error == UnsupportedCondition && !ValidCondition(condition)
      decreases condition, 0
    {
      match condition
      case Atom(pred, args) =>
        var found := MatchAtom(pred, args, binding);
        r := Ok(found);
      case Exists(_, body) =>
        var matches := EvaluateConditions(body, [binding]);
        if matches.Err? { return matches; }
        SolveAllOne(Contents(), body, binding);
        NonEmpty(matches.value);
        r := Ok(if |matches.value| > 0 then [binding] else []);
      case NotExists(_, body) =>
        var matches := EvaluateConditions(body, [binding]);
        if matches.Err? { return matches; }
        SolveAllOne(Contents(), body, binding);
        NonEmpty(matches.value);
        r := Ok(if |matches.value| == 0 then [binding] else []);
      case CountDistinct(vars, body, op, value) =>
        var matches := EvaluateConditions(body, [binding]);
        if matches.Err? { return matches; }
        SolveAllOne(Contents(), body, binding);
        var projection := set m | m in matches.value :: Project(vars, m);
        assert projection == Projections(vars, Elements(matches.value));
        if op == Unsupported { return Err(UnsupportedCondition); }
        r := Ok(if Compare(|projection|, op, value) then [binding] else []);
      case Malformed =>
        r := Err(UnsupportedCondition);
    }

    /** The head tuples of a rule or decision, each once, in order. */
    method EvaluateEntry(e: Entry) returns (r: Result<seq<Tuple>>)
      requires Valid()
      ensures r.Ok? ==> Lists(leq, r.value, HeadTuples(Contents(), e))
      ensures r.Ok? ==> Elements(r.value) == HeadTuples(Contents(), e)
      ensures r.Err? ==> r.error == UnsupportedCondition && !ValidConditions(e.all)
    {
      var found := EvaluateConditions(e.all, [map[]]);
      if found.Err? { return Err(found.error); }
      SolveAllOne(Contents(), e.all, map[]);
      var heads: seq<Tuple> := [];
      for i := 0 to |found.value|
        invariant Distinct(heads)
        invariant forall t :: t in heads <==> exists k :: 0 <= k < i && t == Project(e.params, found.value[k])
      {
        var head := Project(e.params, found.value[i]);
        if head !in heads { heads := heads + [head]; }
      }
      assert Elements(heads) == HeadTuples(Contents(), e) by {
        forall t ensures t in heads <==> t in HeadTuples(Contents(), e) {
          if t in HeadTuples(Contents(), e) {
            var m :| m in Solve(Contents(), e.all, map[]) && t == Project(e.params, m);
            assert m in Elements(found.value);
            var k :| 0 <= k < |found.value| && found.value[k] == m;
          }
          if t in heads {
            var k :| 0 <= k < |found.value| && t == Project(e.params, found.value[k]);
            assert found.value[k] in Elements(found.value);
          }
        }
      }
      SortLists(leq, heads);
      r := Ok(Sort(leq, heads));
    }

    /** Adds tuples to one relation and tells whether its size changed. */
    method AddTuples(pred: string, tuples: seq<Tuple>) returns (changed: bool)
      requires Valid()
      modifies this
      ensures Valid()
      ensures Contents() == old(Contents()) + NamedFacts(pred, tuples)
      ensures changed <==> Contents() != old(Contents())
    {
      var before := |Relation(pred)|;
      ghost var db := Contents();
      ghost var added: Db := {};
      for i := 0 to |tuples|
        invariant Valid()
        invariant Contents() == db + added && added == NamedFacts(pred, tuples[..i])
        invariant |Relation(pred)| >= before
        invariant |Relation(pred)| == before <==> Contents() == db
      {
        NamedFactsSnoc(pred, tuples, i);
        GrowStep(db, added, Fact(pred, tuples[i]));
        AddTuple(pred, tuples[i]);
        added := added + {Fact(pred, tuples[i])};
      }
      assert tuples[..|tuples|] == tuples;
      changed := |Relation(pred)| != before;
    }

    /** One rule of a round: its tuples join the relation of its head. */
    method ApplyRule(e: Entry) returns (r: Result<bool>)
      requires Valid()
      modifies this
      ensures Valid()
      ensures r.Ok? ==> Contents() == old(Contents()) + Derive(old(Contents()), e)
      ensures r.Ok? ==> (r.value <==> Contents() != old(Contents()))
      ensures r.Err? ==> r.error == UnsupportedCondition && !ValidConditions(e.all)
    {
      var tuples := EvaluateEntry(e);
      if tuples.Err? { return Err(tuples.error); }
      DeriveTuples(Contents(), e, tuples.value);
      var changed := AddTuples(e.name, tuples.value);
      r := Ok(changed);
    }

    /** One round over the rules. */
    method RunRound() returns (r: Result<bool>)
      requires Valid()
      modifies this
      ensures Valid()
      ensures r.Ok? ==> Contents() == ApplyRules(old(Contents()), policy.rules)
      ensures r.Ok? ==> (r.value <==> Contents() != old(Contents()))
      ensures r.Err? ==> r.error == UnsupportedCondition && !ValidPolicy(policy)
    {
      hide Contents, Derive;
      var rules := policy.rules;
      var changed := false;
      for i := 0 to |rules|
        invariant Valid()
        invariant ApplyRules(old(Contents()), rules) == ApplyRules(Contents(), rules[i..])
        invariant old(Contents()) <= Contents()
        invariant changed <==> Contents() != old(Contents())
      {
        assert rules[i..][1..] == rules[i + 1..];
        var step := ApplyRule(rules[i]);
        if step.Err? { return Err(step.error); }
        if step.value { changed := true; }
      }
      assert rules[|rules|..] == [];
      r := Ok(changed);
    }

    /** The capped loop: a normal return leaves the capped fixpoint of the
        starting facts, and the error means there is none. */
    method DeriveFixpoint() returns (r: Result<()>)
      requires Valid()
      modifies this
      ensures Valid()
      ensures r.Ok? ==> Fixpoint(old(Contents()), policy.rules, MAX_ROUNDS) == Some(Contents())
      ensures r == Err(NoConvergence) ==> Fixpoint(old(Contents()), policy.rules, MAX_ROUNDS) == None
      ensures r == Err(UnsupportedCondition) ==> !ValidPolicy(policy)
    {
      hide Contents, ApplyRules;
      for round := 0 to MAX_ROUNDS
        invariant Valid()
        invariant Fixpoint(old(Contents()), policy.rules, MAX_ROUNDS) ==
                  Fixpoint(Contents(), policy.rules, MAX_ROUNDS - round)
      {
        var changed := RunRound();
        if changed.Err? { return Err(changed.error); }
        if !changed.value { return Ok(()); }
      }
      r := Err(NoConvergence);
    }

    method EvaluateDecisions() returns (r: Result<Output>)
      requires Valid()
      ensures r.Ok? ==>
                && r.value.Keys == Names(policy.decisions)
                && forall name :: name in r.value ==>
                     && LastNamed(policy.decisions, name).Some?
                     && Lists(leq, r.value[name], HeadTuples(Contents(), LastNamed(policy.decisions, name).value))
      ensures r.Err? ==> r.error == UnsupportedCondition && !ValidPolicy(policy)
    {
      var decisions: Output := map[];
      for i := 0 to |policy.decisions|
        invariant decisions.Keys == Names(policy.decisions[..i])
        invariant forall name :: name in decisions ==>
                    && LastNamed(policy.decisions[..i], name).Some?
                    && Lists(leq, decisions[name], HeadTuples(Contents(), LastNamed(policy.decisions[..i], name).value))
      {
        var d := policy.decisions[i];
        var tuples := EvaluateEntry(d);
        if tuples.Err? { return Err(tuples.error); }
        decisions := decisions[d.name := tuples.value];
        var prefix := policy.decisions[..i + 1];
        assert prefix[..|prefix| - 1] == policy.decisions[..i];
        assert Names(prefix) == Names(policy.decisions[..i]) + {d.name} by { NamesSnoc(policy.decisions, i); }
      }
      assert policy.decisions[..|policy.decisions|] == policy.decisions;
      r := Ok(decisions);
    }

    method CollectDerived() returns (derived: Output)
      requires Valid()
      ensures derived.Keys == Names(policy.rules)
      ensures forall name :: name in derived ==> Lists(leq, derived[name], RelationOf(Contents(), name))
    {
      derived := map[];
      for i := 0 to |policy.rules|
        invariant derived.Keys == Names(policy.rules[..i])
        invariant forall name :: name in derived ==> Lists(leq, derived[name], RelationOf(Contents(), name))
      {
        var name := policy.rules[i].name;
        SortLists(leq, Relation(name));
        RelationContents(name);
        derived := derived[name := Sort(leq, Relation(name))];
        NamesSnoc(policy.rules, i);
      }
      assert policy.rules[..|policy.rules|] == policy.rules;
    }

    /** A run from the given facts meets the specification on their set. */
    method Run() returns (r: Result<Evaluation>)
      requires Valid()
      modifies this
      ensures Valid()
      ensures RunSpec(leq, policy, old(Contents()), r)
    {
      var fixpoint := DeriveFixpoint();
      if fixpoint.Err? { return Err(fixpoint.error); }
      var decisions := EvaluateDecisions();
      if decisions.Err? { return Err(decisions.error); }
      var derived := CollectDerived();
      r := Ok(Evaluation(derived, decisions.value));
    }
  }

  // ----- Lemmas the loops rest on ----------------------------------------------

  lemma NonEmpty<T>(s: seq<T>)
    ensures |s| > 0 <==> Elements(s) != {}
  {
    if |s| > 0 { assert s[0] in Elements(s); }
  }

  /** The bindings that unify the arguments with some tuple of a list. */
  function Unifiers(args: seq<Value>, tuples: seq<Tuple>, b: Binding): set<Binding> {
    set t | t in tuples && |t| == |args| && Unify(args, t, b).Some? :: Unify(args, t, b).value
  }

  lemma UnifiersSnoc(args: seq<Value>, tuples: seq<Tuple>, t: Tuple, b: Binding)
    ensures Unifiers(args, tuples + [t], b) ==
            Unifiers(args, tuples, b) +
            (if |t| == |args| && Unify(args, t, b).Some? then {Unify(args, t, b).value} else {})
  {
    forall m | m in Unifiers(args, tuples, b) ensures m in Unifiers(args, tuples + [t], b) {
      var u :| u in tuples && |u| == |args| && Unify(args, u, b) == Some(m);
      assert u in tuples + [t];
    }
    assert t in tuples + [t];
  }

  lemma UnifiersAreMatches(db: Db, pred: string, args: seq<Value>, tuples: seq<Tuple>, b: Binding)
    requires Elements(tuples) == RelationOf(db, pred)
    ensures Unifiers(args, tuples, b) == CclSemantics.MatchAtom(db, pred, args, b)
  {
    forall m | m in Unifiers(args, tuples, b) ensures m in CclSemantics.MatchAtom(db, pred, args, b) {
      var t :| t in tuples && |t| == |args| && Unify(args, t, b) == Some(m);
      assert t in RelationOf(db, pred);
      var f :| f in db && f.pred == pred && f.args == t;
    }
    forall m | m in CclSemantics.MatchAtom(db, pred, args, b) ensures m in Unifiers(args, tuples, b) {
      var f :| f in db && f.pred == pred && |f.args| == |args| && Unify(args, f.args, b) == Some(m);
      assert f.args in RelationOf(db, pred);
      assert f.args in tuples;
    }
  }

  lemma SolveAllNil(db: Db, bs: set<Binding>)
    ensures SolveAll(db, [], bs) == bs
  {
    forall b | b in bs ensures b in SolveAll(db, [], bs) {
      assert b in Solve(db, [], b);
    }
  }

  lemma SolveAllOne(db: Db, conds: seq<Condition>, b: Binding)
    ensures Elements([b]) == {b}
    ensures SolveAll(db, conds, {b}) == Solve(db, conds, b)
  {
  }

  lemma AdvanceAll(db: Db, conds: seq<Condition>, bs: set<Binding>, next: set<Binding>)
    requires conds != []
    requires forall m :: m in next <==> exists b :: b in bs && m in Step(db, conds[0], b)
    ensures SolveAll(db, conds, bs) == SolveAll(db, conds[1..], next)
  {
    forall r | r in SolveAll(db, conds, bs) ensures r in SolveAll(db, conds[1..], next) {
      var b :| b in bs && r in Solve(db, conds, b);
      var m :| m in Step(db, conds[0], b) && r in Solve(db, conds[1..], m);
      assert m in next;
    }
    forall r | r in SolveAll(db, conds[1..], next) ensures r in SolveAll(db, conds, bs) {
      var m :| m in next && r in Solve(db, conds[1..], m);
      var b :| b in bs && m in Step(db, conds[0], b);
      assert r in Solve(db, conds, b);
    }
  }

  function NamedFacts(pred: string, tuples: seq<Tuple>): Db {
    set t | t in tuples :: Fact(pred, t)
  }

  lemma GrowStep(db: Db, added: Db, f: Fact)
    ensures db + added + {f} == db + (added + {f})
    ensures db + added + {f} == db <==> db + added == db && f in db + added
  {
  }

  lemma NamedFactsSnoc(pred: string, tuples: seq<Tuple>, i: nat)
    requires i < |tuples|
    ensures NamedFacts(pred, tuples[..i + 1]) == NamedFacts(pred, tuples[..i]) + {Fact(pred, tuples[i])}
  {
    assert tuples[..i + 1] == tuples[..i] + [tuples[i]];
  }

  lemma DeriveTuples(db: Db, e: Entry, tuples: seq<Tuple>)
    requires Elements(tuples) == HeadTuples(db, e)
    ensures NamedFacts(e.name, tuples) == Derive(db, e)
  {
    forall f | f in Derive(db, e) ensures f in NamedFacts(e.name, tuples) {
      var r :| r in Solve(db, e.all, map[]) && f == Fact(e.name, Project(e.params, r));
      assert f.args in HeadTuples(db, e);
      assert f.args in tuples;
    }
    forall t | t in tuples ensures Fact(e.name, t) in Derive(db, e) {
      assert t in Elements(tuples);
      var m :| m in Solve(db, e.all, map[]) && t == Project(e.params, m);
    }
  }

  lemma NamesSnoc(entries: seq<Entry>, i: nat)
    requires i < |entries|
    ensures Names(entries[..i + 1]) == Names(entries[..i]) + {entries[i].name}
  {
    forall x | x in Names(entries[..i]) ensures x in Names(entries[..i + 1]) {
      var k :| 0 <= k < i && entries[..i][k].name == x;
      assert entries[..i + 1][k].name == x;
    }
    assert entries[..i + 1][i] == entries[i];
  }

  // ----- Determinism -------------------------------------------------------------

  /** Evaluation is a function of the fact set: two runs whose facts are
      permutations of each other, with or without repeats, return the same value.
      For a policy that validation rejects this is about runs that return. */
  lemma RunIsDeterministic(leq: (Tuple, Tuple) -> bool, policy: Policy, facts: seq<Fact>, facts': seq<Fact>,
                           r: Result<Evaluation>, r': Result<Evaluation>)
    requires TotalOrder(leq)
    requires forall f :: f in facts <==> f in facts'
    requires RunSpec(leq, policy, FactSet(facts), r) && RunSpec(leq, policy, FactSet(facts'), r')
    ensures ValidPolicy(policy) || (r.Ok? && r'.Ok?) ==> r == r'
  {
    assert FactSet(facts) == FactSet(facts');
    if r.Ok? && r'.Ok? {
      var m := Fixpoint(FactSet(facts), policy.rules, MAX_ROUNDS).value;
      forall name | name in r.value.derived ensures r.value.derived[name] == r'.value.derived[name] {
        ListsUnique(leq, r.value.derived[name], r'.value.derived[name], RelationOf(m, name));
      }
      assert r.value.derived == r'.value.derived;
      forall name | name in r.value.decisions ensures r.value.decisions[name] == r'.value.decisions[name] {
        ListsUnique(leq, r.value.decisions[name], r'.value.decisions[name],
                    HeadTuples(m, LastNamed(policy.decisions, name).value));
      }
      assert r.value.decisions == r'.value.decisions;
    }
  }

  /** The sequence that hashCclFacts hashes ignores the order of the facts. */
  lemma HashedFactsIgnoreOrder(leq: (Fact, Fact) -> bool, facts: seq<Fact>, facts': seq<Fact>)
    requires TotalOrder(leq) && multiset(facts) == multiset(facts')
    ensures Sort(leq, facts) == Sort(leq, facts')
  {
    SortCanonical(leq, facts, facts');
  }
}

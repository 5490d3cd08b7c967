/** What rules and decisions derive, in terms of what satisfies their bodies and of
    the names their authors wrote. */
module CclHeads {
  import opened Wrappers
  import opened CclPolicy
  import opened CclSemantics
  import opened CclFixpoint
  import opened CclEvaluator
  import opened CclSorting
  import opened SurfaceSyntax

  /** A rule or decision reports a tuple exactly when some way to satisfy its body
      gives its parameters these values, in order, whether they are written with
      their '$' or without. */
  lemma HeadTuplesMean(db: Db, e: Entry, t: Tuple)
    ensures t in HeadTuples(db, e) <==> exists r :: Satisfies(db, e.all, map[], r) && Reads(e.params, r, t)
  {
    SolveIsSatisfaction(db, e.all, map[]);
    if t in HeadTuples(db, e) {
      var r :| r in Solve(db, e.all, map[]) && t == Project(e.params, r);
      ProjectIsReads(e.params, r, t);
    }
    if r :| Satisfies(db, e.all, map[], r) && Reads(e.params, r, t) {
      ProjectIsReads(e.params, r, t);
      assert r in Solve(db, e.all, map[]);
    }
  }

  /** A rule derives facts of its own name, with those tuples. */
  lemma DeriveMeans(db: Db, e: Entry, f: Fact)
    ensures f in Derive(db, e) <==>
            f.pred == e.name && exists r :: Satisfies(db, e.all, map[], r) && Reads(e.params, r, f.args)
  {
    HeadTuplesMean(db, e, f.args);
    if f.pred == e.name && f.args in HeadTuples(db, e) {
      var r :| r in Solve(db, e.all, map[]) && f.args == Project(e.params, r);
      assert f == Fact(e.name, Project(e.params, r));
    }
  }

  lemma {:induction false} LastNamedMeans(entries: seq<Entry>, i: nat)
    requires i < |entries| && forall j :: i < j < |entries| ==> entries[j].name != entries[i].name
    ensures LastNamed(entries, entries[i].name) == Some(entries[i])
  {
    var n := |entries| - 1;
    if i < n {
      assert entries[n].name != entries[i].name;
      LastNamedMeans(entries[..n], i);
    }
  }

  lemma RelationMeans(db: Db, pred: string, t: Tuple)
    ensures t in RelationOf(db, pred) <==> Fact(pred, t) in db
  {
    if t in RelationOf(db, pred) {
      var f :| f in db && f.pred == pred && f.args == t;
      assert f == Fact(pred, t);
    }
    var g := Fact(pred, t);
    assert g in db ==> g.pred == pred && g.args == t;
  }

  lemma ListedIff(leq: (Tuple, Tuple) -> bool, s: seq<Tuple>, items: set<Tuple>, t: Tuple)
    requires Lists(leq, s, items)
    ensures t in s <==> t in items
  {
    assert t in s <==> t in multiset(s);
    assert t in items <==> t in multiset(items);
  }

  /** What an evaluation reports: of every rule name, the tuples of its relation in the
      final store; of every decision name, those its last decision gives on that store. */
  lemma RunReports(leq: (Tuple, Tuple) -> bool, policy: Policy, facts: Db, out: Evaluation, i: nat, t: Tuple)
    requires RunSpec(leq, policy, facts, Ok(out))
    ensures var m := Fixpoint(facts, policy.rules, 64).value;
            && (i < |policy.rules| ==>
                  policy.rules[i].name in out.derived
                  && (t in out.derived[policy.rules[i].name] <==> Fact(policy.rules[i].name, t) in m))
            && (i < |policy.decisions| &&
                (forall j :: i < j < |policy.decisions| ==> policy.decisions[j].name != policy.decisions[i].name) ==>
                  var e := policy.decisions[i];
                  e.name in out.decisions
                  && (t in out.decisions[e.name] <==>
                     exists r :: Satisfies(m, e.all, map[], r) && Reads(e.params, r, t)))
  {
    var m := Fixpoint(facts, policy.rules, MAX_ROUNDS).value;
    if i < |policy.rules| {
      var name := policy.rules[i].name;
      assert name in Names(policy.rules);
      ListedIff(leq, out.derived[name], RelationOf(m, name), t);
      RelationMeans(m, name, t);
    }
    if i < |policy.decisions|
       && forall j :: i < j < |policy.decisions| ==> policy.decisions[j].name != policy.decisions[i].name
    {
      var e := policy.decisions[i];
      assert e.name in Names(policy.decisions);
      LastNamedMeans(policy.decisions, i);
      ListedIff(leq, out.decisions[e.name], HeadTuples(m, e), t);
      HeadTuplesMean(m, e, t);
    }
  }

  // ----- Names written in the surface language -------------------------------------------------

  /** A capitalized parameter, or count_distinct variable, is the variable that the
      same text is as an argument: both read the same value. */
  lemma SurfaceNameIsItsArgument(s: string, m: Binding, v: Value)
    requires IsCapitalized(s)
    ensures Variable(ToCanonicalArg(s))
    ensures ValueUnder(m, s, v) <==>
            v == if ToCanonicalArg(s).s in m then m[ToCanonicalArg(s).s] else Unbound
  {
    assert s[0] != '$';
    assert ToCanonicalArg(s).s == "$" + s;
  }

  lemma CapitalizedDiffer(s: string, q: string)
    requires IsCapitalized(s) && IsCapitalized(q) && s != q
    ensures ToCanonicalArg(s) != ToCanonicalArg(q)
  {
    assert ("$" + s)[1..] == s && ("$" + q)[1..] == q;
  }

  lemma SatisfiesOne(db: Db, c: Condition, b: Binding, r: Binding)
    ensures Satisfies(db, [c], b, r) <==> Holds(db, c, b, r)
  {
    var conds := [c];
    assert conds[0] == c && conds[1..] == [];
    assert Satisfies(db, conds[1..], r, r);
    assert Satisfies(db, conds, b, r) <==> exists m :: Holds(db, conds[0], b, m) && Satisfies(db, conds[1..], m, r);
  }

  /** The rule `name(S):` with the single line `p(S)` copies the relation `p`. */
  lemma SurfaceRuleCopies(db: Db, name: string, p: string, s: string, t: Tuple)
    requires IsCapitalized(s)
    ensures Fact(name, t) in Derive(db, Entry(name, [s], [Atom(p, CanonicalArgs([s]))])) <==>
            |t| == 1 && Fact(p, t) in db
  {
    var args, x := CanonicalArgs([s]), ToCanonicalArg(s).s;
    var body, e := [Atom(p, args)], Entry(name, [s], [Atom(p, args)]);
    assert args == [ToCanonicalArg(s)] && body[1..] == [];
    assert VarsOf(args) == {x} by { assert args[0].s == x; SurfaceNameIsItsArgument(s, map[], Unbound); }
    DeriveMeans(db, e, Fact(name, t));
    if r :| Satisfies(db, body, map[], r) && Reads([s], r, t) {
      SatisfiesOne(db, body[0], map[], r);
      var u :| Fact(p, u) in db && Matches(args, u, map[], r);
      SurfaceNameIsItsArgument(s, r, t[0]);
      assert u == t;
    }
    if |t| == 1 && Fact(p, t) in db {
      var m: Binding := map[x := t[0]];
      SurfaceNameIsItsArgument(s, m, t[0]);
      assert Matches(args, t, map[], m);
      SatisfiesOne(db, body[0], map[], m);
      assert Satisfies(db, body, map[], m) && Reads([s], m, t);
    }
  }

  /** The condition `count_distinct S where p(S)` compares the number of different
      values in the relation `p`. */
  lemma SurfaceCountCounts(db: Db, p: string, s: string, op: Comparator, value: real, values: set<Value>)
    requires IsCapitalized(s) && forall v :: v in values <==> Fact(p, [v]) in db
    ensures Holds(db, CountDistinct([s], [Atom(p, CanonicalArgs([s]))], op, value), map[], map[]) <==>
            Stands(|values| as real, op, value)
  {
    var e := Entry("", [s], [Atom(p, CanonicalArgs([s]))]);
    var ts := HeadTuples(db, e);
    forall t ensures t in ts <==> |t| == 1 && Fact(p, t) in db {
      SurfaceRuleCopies(db, "", p, s, t);
      DeriveMeans(db, e, Fact("", t));
      HeadTuplesMean(db, e, t);
    }
    assert Enumerates(db, [s], e.all, map[], ts) by {
      forall t ensures t in ts <==> exists m :: Satisfies(db, e.all, map[], m) && Reads([s], m, t) {
        HeadTuplesMean(db, e, t);
      }
    }
    SingletonsCount(values, ts);
    forall us | Enumerates(db, [s], e.all, map[], us) ensures us == ts {
      assert forall t :: t in us <==> t in ts;
    }
  }

  lemma {:induction false} SingletonsCount(values: set<Value>, ts: set<Tuple>)
    requires forall v :: v in values <==> [v] in ts
    requires forall t :: t in ts ==> |t| == 1
    ensures |ts| == |values|
  {
    assert forall t :: t in ts ==> t == [t[0]];
    if values == {} {
      assert ts == {};
    } else {
      var v :| v in values;
      SingletonsCount(values - {v}, ts - {[v]});
    }
  }
}

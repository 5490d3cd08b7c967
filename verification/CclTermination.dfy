/** The rounds stop by themselves: derived values come from the facts, so the
    head tuples that can ever appear form a finite space. */
module CclTermination {
  import opened Wrappers
  import opened CclPolicy
  import opened CclSemantics
  import opened CclFixpoint

  /** Every value in the facts, and the value of an unbound parameter. */
  function Domain(db: Db): set<Value> {
    {Unbound} + set f, i | f in db && 0 <= i < |f.args| :: f.args[i]
  }

  ghost predicate Over(t: Tuple, d: set<Value>) {
    forall i :: 0 <= i < |t| ==> t[i] in d
  }

  ghost predicate DbOver(db: Db, d: set<Value>) {
    forall f :: f in db ==> Over(f.args, d)
  }

  ghost predicate BindingOver(b: Binding, d: set<Value>) {
    forall k :: k in b ==> b[k] in d
  }

  function Pow(d: nat, k: nat): nat {
    if k == 0 then 1 else d * Pow(d, k - 1)
  }

  /** How many head facts the rules could ever produce over `d` values. */
  function HeadSpace(rules: seq<Entry>, d: nat): nat {
    if rules == [] then 0 else Pow(d, |rules[0].params|) + HeadSpace(rules[1..], d)
  }

  function AllTuples(d: set<Value>, k: nat): set<Tuple> {
    if k == 0 then {[]} else Product(d, AllTuples(d, k - 1))
  }

  function AllHeads(rules: seq<Entry>, d: set<Value>): Db {
    if rules == [] then {}
    else (set t | t in AllTuples(d, |rules[0].params|) :: Fact(rules[0].name, t)) + AllHeads(rules[1..], d)
  }

  // ----- Values never leave the domain ---------------------------------------

  lemma {:induction false} UnifyOver(args: seq<Value>, t: Tuple, b: Binding, d: set<Value>)
    requires |args| == |t| && Over(t, d) && BindingOver(b, d)
    ensures Unify(args, t, b).Some? ==> BindingOver(Unify(args, t, b).value, d)
  {
    if args != [] {
      var b' := if IsVar(args[0]) && args[0].s !in b then b[args[0].s := t[0]] else b;
      UnifyOver(args[1..], t[1..], b', d);
    }
  }

  lemma {:induction false} SolveOver(db: Db, conds: seq<Condition>, b: Binding, d: set<Value>)
    requires DbOver(db, d) && BindingOver(b, d)
    ensures forall r :: r in Solve(db, conds, b) ==> BindingOver(r, d)
    decreases conds
  {
    if conds != [] {
      forall r | r in Solve(db, conds, b) ensures BindingOver(r, d) {
        var m :| m in Step(db, conds[0], b) && r in Solve(db, conds[1..], m);
        if conds[0].Atom? {
          var f :| f in db && |f.args| == |conds[0].args| && Unify(conds[0].args, f.args, b) == Some(m);
          UnifyOver(conds[0].args, f.args, b, d);
        }
        SolveOver(db, conds[1..], m, d);
      }
    }
  }

  lemma {:induction false} InAllTuples(t: Tuple, d: set<Value>)
    requires Over(t, d)
    ensures t in AllTuples(d, |t|)
  {
    if t != [] {
      InAllTuples(t[1..], d);
      assert t == [t[0]] + t[1..];
    }
  }

  lemma {:induction false} DeriveInSpace(db: Db, e: Entry, d: set<Value>, f: Fact)
    requires DbOver(db, d) && Unbound in d && f in Derive(db, e)
    ensures Over(f.args, d) && f.args in AllTuples(d, |e.params|)
  {
    var r :| r in Solve(db, e.all, map[]) && f == Fact(e.name, Project(e.params, r));
    SolveOver(db, e.all, map[], d);
    InAllTuples(f.args, d);
  }

  /** Derived facts stay over the domain and inside the head space. */
  lemma {:induction false} RoundInSpace(db: Db, rules: seq<Entry>, d: set<Value>)
    requires DbOver(db, d) && Unbound in d
    ensures DbOver(ApplyRules(db, rules), d)
    ensures ApplyRules(db, rules) <= db + AllHeads(rules, d)
    decreases rules
  {
    if rules != [] {
      var db1 := db + Derive(db, rules[0]);
      forall f | f in Derive(db, rules[0])
        ensures Over(f.args, d) && f in AllHeads(rules, d)
      {
        DeriveInSpace(db, rules[0], d, f);
      }
      RoundInSpace(db1, rules[1..], d);
    }
  }

  // ----- Counting the space ---------------------------------------------------

  lemma {:induction false} UnionCardinality<T>(a: set<T>, b: set<T>)
    ensures |a + b| <= |a| + |b|
  {
    if a == {} {
      assert a + b == b;
    } else {
      var x :| x in a;
      UnionCardinality(a - {x}, b);
      if x in b {
        assert a + b == (a - {x}) + b;
      } else {
        assert a + b == (a - {x}) + b + {x};
      }
    }
  }

  lemma {:induction false} PrefixedCardinality(v: Value, ts: set<Tuple>)
    ensures |set t | t in ts :: [v] + t| <= |ts|
  {
    var image := set t | t in ts :: [v] + t;
    if ts == {} {
      assert image == {};
    } else {
      var t :| t in ts;
      PrefixedCardinality(v, ts - {t});
      assert image == (set u | u in ts - {t} :: [v] + u) + {[v] + t};
    }
  }

  function Product(d: set<Value>, ts: set<Tuple>): set<Tuple> {
    set v, t | v in d && t in ts :: [v] + t
  }

  lemma ProductSplit(d: set<Value>, v: Value, ts: set<Tuple>)
    requires v in d
    ensures Product(d, ts) == Product(d - {v}, ts) + set t | t in ts :: [v] + t
  {
    var one := set t | t in ts :: [v] + t;
    forall x | x in Product(d, ts) ensures x in Product(d - {v}, ts) + one {
      var u, t :| u in d && t in ts && x == [u] + t;
      if u == v { assert x in one; } else { assert x in Product(d - {v}, ts); }
    }
  }

  lemma {:induction false} ProductCardinality(d: set<Value>, ts: set<Tuple>)
    ensures |Product(d, ts)| <= |d| * |ts|
  {
    if d == {} {
      assert Product(d, ts) == {};
    } else {
      var v :| v in d;
      hide Product;
      ProductSplit(d, v, ts);
      ProductCardinality(d - {v}, ts);
      PrefixedCardinality(v, ts);
      UnionCardinality(Product(d - {v}, ts), set t | t in ts :: [v] + t);
      assert |d - {v}| == |d| - 1;
    }
  }

  lemma MulMonotone(x: nat, y: nat, z: nat)
    requires y <= z
    ensures x * y <= x * z
  {
  }

  lemma {:induction false} AllTuplesCardinality(d: set<Value>, k: nat)
    ensures |AllTuples(d, k)| <= Pow(|d|, k)
  {
    if k > 0 {
      var shorter := AllTuples(d, k - 1);
      AllTuplesCardinality(d, k - 1);
      ProductCardinality(d, shorter);
      MulMonotone(|d|, |shorter|, Pow(|d|, k - 1));
    }
  }

  lemma {:induction false} NamedCardinality(name: string, ts: set<Tuple>)
    ensures |set t | t in ts :: Fact(name, t)| <= |ts|
  {
    var image := set t | t in ts :: Fact(name, t);
    if ts == {} {
      assert image == {};
    } else {
      var t :| t in ts;
      NamedCardinality(name, ts - {t});
      assert image == (set u | u in ts - {t} :: Fact(name, u)) + {Fact(name, t)};
    }
  }

  lemma {:induction false} AllHeadsCardinality(rules: seq<Entry>, d: set<Value>)
    ensures |AllHeads(rules, d)| <= HeadSpace(rules, |d|)
  {
    if rules != [] {
      var first := set t | t in AllTuples(d, |rules[0].params|) :: Fact(rules[0].name, t);
      AllHeadsCardinality(rules[1..], d);
      NamedCardinality(rules[0].name, AllTuples(d, |rules[0].params|));
      AllTuplesCardinality(d, |rules[0].params|);
      UnionCardinality(first, AllHeads(rules[1..], d));
    }
  }

  // ----- The bound -------------------------------------------------------------

  /** Each changing round uses up room in the head space. */
  lemma {:induction false} ChangingRoundsBounded(db: Db, rules: seq<Entry>, rounds: nat, d: set<Value>, space: Db)
    requires DbOver(db, d) && Unbound in d
    requires AllHeads(rules, d) <= space && db <= space
    requires Fixpoint(db, rules, rounds).None?
    ensures |db| + rounds <= |space|
    decreases rounds
  {
    SubsetCardinality(db, space);
    if rounds > 0 {
      var next := ApplyRules(db, rules);
      RoundGrows(db, rules);
      RoundInSpace(db, rules, d);
      SubsetCardinality(db, next);
      ChangingRoundsBounded(next, rules, rounds - 1, d, space);
    }
  }

  /** For every policy, negation and recursion included, the rounds reach an
      unchanged fact set within the size of the head space: the loop would stop
      without its cap, and the cap is never hit when the space is below it. */
  lemma TerminatesWithoutCap(db: Db, rules: seq<Entry>, rounds: nat)
    requires rounds > HeadSpace(rules, |Domain(db)|)
    ensures Fixpoint(db, rules, rounds).Some?
  {
    var d := Domain(db);
    if Fixpoint(db, rules, rounds).None? {
      var space := db + AllHeads(rules, d);
      ChangingRoundsBounded(db, rules, rounds, d, space);
      AllHeadsCardinality(rules, d);
      UnionCardinality(db, AllHeads(rules, d));
    }
  }

  /** Every fact after any number of rounds is an input fact or a head fact
      whose values all occur in the input (or are unbound). */
  lemma {:induction false} RoundsStayInSpace(db: Db, rules: seq<Entry>, n: nat)
    ensures Rounds(db, rules, n) <= db + AllHeads(rules, Domain(db))
    ensures DbOver(Rounds(db, rules, n), Domain(db))
  {
    if n > 0 {
      RoundsStayInSpace(db, rules, n - 1);
      RoundInSpace(Rounds(db, rules, n - 1), rules, Domain(db));
    }
  }
}

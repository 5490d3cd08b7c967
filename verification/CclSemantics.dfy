/** What a condition list means: a declarative left-to-right satisfaction
    relation, the finite set of solutions, and the proof that they agree. */
module CclSemantics {
  import opened Wrappers
  import opened CclPolicy

  // ----- Declarative side -------------------------------------------------

  /** A variable is a text that begins with '$'. */
  ghost predicate Variable(v: Value) {
    v.Str? && "$" <= v.s
  }

  ghost function VarsOf(args: seq<Value>): set<string> {
    set i | 0 <= i < |args| && Variable(args[i]) :: args[i].s
  }

  /** `r` extends `b` by exactly the variables of `args`, and under `r` the
      arguments read as the tuple `t`. */
  ghost predicate Matches(args: seq<Value>, t: Tuple, b: Binding, r: Binding) {
    && |t| == |args|
    && r.Keys == b.Keys + VarsOf(args)
    && (forall k :: k in b ==> r[k] == b[k])
    && (forall i :: 0 <= i < |args| ==>
          if Variable(args[i]) then args[i].s in r && r[args[i].s] == t[i] else args[i] == t[i])
  }

  /** The value `m` gives to a name, which may be written with or without its '$';
      unbound where there is none. */
  ghost predicate ValueUnder(m: Binding, name: string, v: Value) {
    if "$" <= name then v == (if name in m then m[name] else Unbound)
    else v == (if "$" + name in m then m["$" + name] else Unbound)
  }

  /** `t` holds the values `m` gives to the names, in their order. */
  ghost predicate Reads(names: seq<string>, m: Binding, t: Tuple) {
    |t| == |names| && forall i :: 0 <= i < |names| ==> ValueUnder(m, names[i], t[i])
  }

  /** The number `n` stands in the relation `op` to `value`. */
  ghost predicate Stands(n: real, op: Comparator, value: real) {
    || (op == Ge && !(n < value)) || (op == Gt && value < n) || (op == Eq && !(n < value) && !(value < n))
    || (op == Le && !(value < n)) || (op == Lt && n < value)
  }

  /** Satisfying `conds` from left to right can lead from `b` to `r`. */
  ghost predicate Satisfies(db: Db, conds: seq<Condition>, b: Binding, r: Binding)
    decreases conds, 0
  {
    if conds == [] then r == b
    else exists m :: Holds(db, conds[0], b, m) && Satisfies(db, conds[1..], m, r)
  }

  ghost predicate Holds(db: Db, c: Condition, b: Binding, r: Binding)
    decreases c
  {
    match c
    case Atom(p, args) => exists t :: Fact(p, t) in db && Matches(args, t, b, r)
    case Exists(_, body) => r == b && exists m :: Satisfies(db, body, b, m)
    case NotExists(_, body) => r == b && forall m :: !Satisfies(db, body, b, m)
    case CountDistinct(vars, body, op, value) =>
      && r == b
      && exists ts: set<Tuple> :: Enumerates(db, vars, body, b, ts) && Stands(|ts| as real, op, value)
    case Malformed => false
  }

  /** `ts` holds exactly the projections of the ways to satisfy `body`. */
  ghost predicate Enumerates(db: Db, vars: seq<string>, body: seq<Condition>, b: Binding, ts: set<Tuple>)
    decreases body, 1
  {
    forall t :: t in ts <==> exists m :: Satisfies(db, body, b, m) && Reads(vars, m, t)
  }

  // ----- Computed side ----------------------------------------------------

  /** Left-to-right unification of an argument list with a tuple. */
  function Unify(args: seq<Value>, t: Tuple, b: Binding): Option<Binding>
    requires |args| == |t|
  {
    if args == [] then Some(b)
    else if !IsVar(args[0]) then
      if args[0] == t[0] then Unify(args[1..], t[1..], b) else None
    else if args[0].s in b then
      if b[args[0].s] == t[0] then Unify(args[1..], t[1..], b) else None
    else Unify(args[1..], t[1..], b[args[0].s := t[0]])
  }

  function MatchAtom(db: Db, p: string, args: seq<Value>, b: Binding): set<Binding> {
    set f | f in db && f.pred == p && |f.args| == |args| && Unify(args, f.args, b).Some?
      :: Unify(args, f.args, b).value
  }

  function Solve(db: Db, conds: seq<Condition>, b: Binding): set<Binding>
    decreases conds
  {
    if conds == [] then {b}
    else set m, r | m in Step(db, conds[0], b) && r in Solve(db, conds[1..], m) :: r
  }

  function Step(db: Db, c: Condition, b: Binding): set<Binding>
    decreases c
  {
    match c
    case Atom(p, args) => MatchAtom(db, p, args, b)
    case Exists(_, body) => if Solve(db, body, b) != {} then {b} else {}
    case NotExists(_, body) => if Solve(db, body, b) == {} then {b} else {}
    case CountDistinct(vars, body, op, value) =>
      if Compare(|Projections(vars, Solve(db, body, b))|, op, value) then {b} else {}
    case Malformed => {}
  }

  function Projections(vars: seq<string>, bs: set<Binding>): set<Tuple> {
    set m | m in bs :: Project(vars, m)
  }

  /** Solutions from a whole set of starting bindings. */
  function SolveAll(db: Db, conds: seq<Condition>, bs: set<Binding>): set<Binding> {
    set b, r | b in bs && r in Solve(db, conds, b) :: r
  }

  // ----- Agreement --------------------------------------------------------

  lemma ProjectIsReads(names: seq<string>, m: Binding, t: Tuple)
    ensures t == Project(names, m) <==> Reads(names, m, t)
  {
    if Reads(names, m, t) {
      forall i | 0 <= i < |names| ensures t[i] == Project(names, m)[i] {
        assert ValueUnder(m, names[i], t[i]);
      }
    }
  }

  lemma VarsOfTail(args: seq<Value>)
    requires args != []
    ensures VarsOf(args) == (if Variable(args[0]) then {args[0].s} else {}) + VarsOf(args[1..])
  {
    var a := args[0];
    forall x | x in VarsOf(args) ensures x in (if Variable(a) then {a.s} else {}) + VarsOf(args[1..]) {
      var i :| 0 <= i < |args| && Variable(args[i]) && args[i].s == x;
      if i > 0 { assert args[1..][i - 1] == args[i]; }
    }
    forall x | x in VarsOf(args[1..]) ensures x in VarsOf(args) {
      var i :| 0 <= i < |args| - 1 && Variable(args[1..][i]) && args[1..][i].s == x;
      assert args[i + 1] == args[1..][i];
    }
  }

  /** Unification finds the matching extension exactly when there is one. */
  lemma {:induction false} UnifyIsMatches(args: seq<Value>, t: Tuple, b: Binding, r: Binding)
    requires |args| == |t|
    ensures Unify(args, t, b) == Some(r) <==> Matches(args, t, b, r)
  {
    if args == [] {
      assert VarsOf(args) == {};
      if Matches(args, t, b, r) {
        assert r == b;
      }
    } else {
      var a := args[0];
      var b' := if Variable(a) && a.s !in b then b[a.s := t[0]] else b;
      UnifyIsMatches(args[1..], t[1..], b', r);
      if Matches(args, t, b, r) {
        MatchesTail(args, t, b, r);
        assert forall k :: k in b ==> r[k] == b[k];
      }
      if Unify(args, t, b) == Some(r) {
        MatchesCons(args, t, b, r);
      }
    }
  }

  lemma MatchesCons(args: seq<Value>, t: Tuple, b: Binding, r: Binding)
    requires args != [] && |t| == |args|
    requires if Variable(args[0]) then args[0].s in b ==> b[args[0].s] == t[0] else args[0] == t[0]
    requires var b' := if Variable(args[0]) && args[0].s !in b then b[args[0].s := t[0]] else b;
             Matches(args[1..], t[1..], b', r)
    ensures Matches(args, t, b, r)
  {
    VarsOfTail(args);
    forall i | 0 <= i < |args|
      ensures if Variable(args[i]) then args[i].s in r && r[args[i].s] == t[i] else args[i] == t[i]
    {
      if i > 0 {
        assert args[1..][i - 1] == args[i] && t[1..][i - 1] == t[i];
      }
    }
  }

  lemma MatchesTail(args: seq<Value>, t: Tuple, b: Binding, r: Binding)
    requires args != [] && Matches(args, t, b, r)
    ensures if Variable(args[0]) then args[0].s in r && r[args[0].s] == t[0] else args[0] == t[0]
    ensures var b' := if Variable(args[0]) && args[0].s !in b then b[args[0].s := t[0]] else b;
            Matches(args[1..], t[1..], b', r)
  {
    var b' := if Variable(args[0]) && args[0].s !in b then b[args[0].s := t[0]] else b;
    forall x | x in r ensures x in b'.Keys + VarsOf(args[1..]) {
      if x in VarsOf(args) {
        var i :| 0 <= i < |args| && Variable(args[i]) && args[i].s == x;
        if i > 0 { assert args[1..][i - 1] == args[i]; }
      }
    }
    forall x | x in VarsOf(args[1..]) ensures x in r {
      var i :| 0 <= i < |args| - 1 && Variable(args[1..][i]) && args[1..][i].s == x;
      assert args[i + 1] == args[1..][i];
    }
  }

  /** Soundness and completeness: the solution set is exactly what the
      declarative relation allows, at every nesting depth. */
  lemma {:induction false} SolveIsSatisfaction(db: Db, conds: seq<Condition>, b: Binding)
    ensures forall r :: r in Solve(db, conds, b) <==> Satisfies(db, conds, b, r)
    decreases conds
  {
    if conds != [] {
      StepIsHolds(db, conds[0], b);
      forall r ensures r in Solve(db, conds, b) <==> Satisfies(db, conds, b, r) {
        forall m ensures r in Solve(db, conds[1..], m) <==> Satisfies(db, conds[1..], m, r) {
          SolveIsSatisfaction(db, conds[1..], m);
        }
      }
    }
  }

  lemma {:induction false} StepIsHolds(db: Db, c: Condition, b: Binding)
    ensures forall r :: r in Step(db, c, b) <==> Holds(db, c, b, r)
    decreases c
  {
    match c
    case Atom(p, args) =>
      forall r ensures r in Step(db, c, b) <==> Holds(db, c, b, r) {
        AtomIsHolds(db, p, args, b, r);
      }
    case Exists(_, body) => SolveIsSatisfaction(db, body, b);
    case NotExists(_, body) => SolveIsSatisfaction(db, body, b);
    case CountDistinct(vars, body, op, value) =>
      SolveIsSatisfaction(db, body, b);
      var sols := Solve(db, body, b);
      var ps := Projections(vars, sols);
      forall t ensures t in ps <==> exists m :: Satisfies(db, body, b, m) && Reads(vars, m, t) {
        if t in ps {
          var m :| m in sols && t == Project(vars, m);
          ProjectIsReads(vars, m, t);
          assert Satisfies(db, body, b, m);
        }
        if m :| Satisfies(db, body, b, m) && Reads(vars, m, t) {
          ProjectIsReads(vars, m, t);
          assert m in sols;
        }
      }
      assert Enumerates(db, vars, body, b, ps);
      forall ts | Enumerates(db, vars, body, b, ts) ensures ts == ps {
        assert forall t :: t in ts <==> t in ps;
      }
    case Malformed =>
  }

  lemma AtomIsHolds(db: Db, p: string, args: seq<Value>, b: Binding, r: Binding)
    ensures r in MatchAtom(db, p, args, b) <==> exists t :: Fact(p, t) in db && Matches(args, t, b, r)
  {
    if r in MatchAtom(db, p, args, b) {
      var f :| f in db && f.pred == p && |f.args| == |args| && Unify(args, f.args, b) == Some(r);
      UnifyIsMatches(args, f.args, b, r);
      assert Fact(p, f.args) == f;
    }
    if exists t :: Fact(p, t) in db && Matches(args, t, b, r) {
      var t :| Fact(p, t) in db && Matches(args, t, b, r);
      UnifyIsMatches(args, t, b, r);
      var f := Fact(p, t);
      assert f in db && f.pred == p && |f.args| == |args| && Unify(args, f.args, b) == Some(r);
    }
  }
}

/** Rule derivation: in-place rounds over a growing fact set, and what a
    normal return of the capped loop guarantees. */
module CclFixpoint {
  import opened Wrappers
  import opened CclPolicy
  import opened CclSemantics

  const MAX_ROUNDS: nat := 64

  /** The facts one rule yields on a fact set. */
  function Derive(db: Db, e: Entry): Db {
    set r | r in Solve(db, e.all, map[]) :: Fact(e.name, Project(e.params, r))
  }

  /** One round: rules in order, each seeing what the earlier ones added. */
  function ApplyRules(db: Db, rules: seq<Entry>): Db
    decreases rules
  {
    if rules == [] then db else ApplyRules(db + Derive(db, rules[0]), rules[1..])
  }

  function Rounds(db: Db, rules: seq<Entry>, n: nat): Db {
    if n == 0 then db else ApplyRules(Rounds(db, rules, n - 1), rules)
  }

  /** The capped loop: the first unchanged fact set, or None when `rounds`
      rounds in a row changed something. */
  function Fixpoint(db: Db, rules: seq<Entry>, rounds: nat): Option<Db>
    decreases rounds
  {
    if rounds == 0 then None
    else
      var next := ApplyRules(db, rules);
      if next == db then Some(db) else Fixpoint(next, rules, rounds - 1)
  }

  function Names(rules: seq<Entry>): set<string> {
    set i | 0 <= i < |rules| :: rules[i].name
  }

  /** Two fact sets coincide on the relations in `ps`. */
  ghost predicate Agree(db: Db, db': Db, ps: set<string>) {
    forall f: Fact :: f.pred in ps ==> (f in db <==> f in db')
  }

  ghost predicate Closed(db: Db, rules: seq<Entry>) {
    forall i :: 0 <= i < |rules| ==> Derive(db, rules[i]) <= db
  }

  ghost predicate PositiveRules(rules: seq<Entry>) {
    forall i :: 0 <= i < |rules| ==> Positive(rules[i].all)
  }

  // ----- What a body reads --------------------------------------------------

  /** Solutions depend only on the relations the conditions mention. */
  lemma {:induction false} SolveFrame(db: Db, db': Db, conds: seq<Condition>, b: Binding)
    requires Agree(db, db', Preds(conds))
    ensures Solve(db, conds, b) == Solve(db', conds, b)
    decreases conds
  {
    if conds != [] {
      StepFrame(db, db', conds[0], b);
      forall m ensures Solve(db, conds[1..], m) == Solve(db', conds[1..], m) {
        SolveFrame(db, db', conds[1..], m);
      }
    }
  }

  lemma {:induction false} StepFrame(db: Db, db': Db, c: Condition, b: Binding)
    requires Agree(db, db', PredsOf(c))
    ensures Step(db, c, b) == Step(db', c, b)
    decreases c
  {
    match c
    case Atom(p, args) =>
    case Exists(_, body) => SolveFrame(db, db', body, b);
    case NotExists(_, body) => SolveFrame(db, db', body, b);
    case CountDistinct(_, body, _, _) => SolveFrame(db, db', body, b);
    case Malformed =>
  }

  lemma DeriveFrame(db: Db, db': Db, e: Entry)
    requires Agree(db, db', Preds(e.all))
    ensures Derive(db, e) == Derive(db', e)
  {
    SolveFrame(db, db', e.all, map[]);
  }

  // ----- Monotonicity -------------------------------------------------------

  /** A larger store that agrees on those predicates loses no solution. */
  lemma {:induction false} SolveSigned(db: Db, db': Db, conds: seq<Condition>, b: Binding)
    requires db <= db' && Agree(db, db', NegPreds(conds))
    ensures Solve(db, conds, b) <= Solve(db', conds, b)
    decreases conds
  {
    if conds != [] {
      StepSigned(db, db', conds[0], b);
      forall m ensures Solve(db, conds[1..], m) <= Solve(db', conds[1..], m) {
        SolveSigned(db, db', conds[1..], m);
      }
    }
  }

  lemma {:induction false} StepSigned(db: Db, db': Db, c: Condition, b: Binding)
    requires db <= db' && Agree(db, db', NegPredsOf(c))
    ensures Step(db, c, b) <= Step(db', c, b)
    decreases c
  {
    match c
    case Atom(p, args) =>
    case Exists(_, body) => SolveSigned(db, db', body, b);
    case NotExists(_, body) => SolveFrame(db, db', body, b);
    case CountDistinct(vars, body, op, _) =>
      if op == Ge || op == Gt {
        SolveSigned(db, db', body, b);
        SubsetCardinality(Projections(vars, Solve(db, body, b)), Projections(vars, Solve(db', body, b)));
      } else {
        SolveFrame(db, db', body, b);
      }
    case Malformed =>
  }

  lemma DeriveSigned(db: Db, db': Db, e: Entry)
    requires db <= db' && Agree(db, db', NegPreds(e.all))
    ensures Derive(db, e) <= Derive(db', e)
  {
    SolveSigned(db, db', e.all, map[]);
  }

  lemma {:induction false} SubsetCardinality<T>(a: set<T>, b: set<T>)
    requires a <= b
    ensures |a| <= |b|
    ensures a != b ==> |a| < |b|
  {
    if a != {} {
      var x :| x in a;
      SubsetCardinality(a - {x}, b - {x});
      if a != b { assert a - {x} != b - {x} by { assert a == (a - {x}) + {x} && b == (b - {x}) + {x}; } }
    } else if b != {} {
      var x :| x in b;
      assert |b| == |b - {x}| + 1;
    }
  }

  lemma {:induction false} PositiveReadsNothingNegatively(conds: seq<Condition>)
    requires Positive(conds)
    ensures NegPreds(conds) == {}
    decreases conds
  {
    if conds != [] {
      PositiveReadsNothingNegatively(conds[1..]);
      match conds[0]
      case Exists(_, body) => PositiveReadsNothingNegatively(body);
      case CountDistinct(_, body, _, _) => PositiveReadsNothingNegatively(body);
      case _ =>
    }
  }

  lemma SolveMonotone(db: Db, db': Db, conds: seq<Condition>, b: Binding)
    requires db <= db' && Positive(conds)
    ensures Solve(db, conds, b) <= Solve(db', conds, b)
  {
    PositiveReadsNothingNegatively(conds);
    SolveSigned(db, db', conds, b);
  }

  lemma DeriveMonotone(db: Db, db': Db, e: Entry)
    requires db <= db' && Positive(e.all)
    ensures Derive(db, e) <= Derive(db', e)
  {
    SolveMonotone(db, db', e.all, map[]);
  }

  // ----- Rounds -------------------------------------------------------------

  /** A round only adds facts, and only for the rules' own heads. */
  lemma {:induction false} RoundGrows(db: Db, rules: seq<Entry>)
    ensures db <= ApplyRules(db, rules)
    ensures forall f :: f in ApplyRules(db, rules) && f !in db ==> f.pred in Names(rules)
    decreases rules
  {
    if rules != [] {
      RoundGrows(db + Derive(db, rules[0]), rules[1..]);
      assert rules[0].name in Names(rules);
      assert Names(rules[1..]) <= Names(rules) by {
        forall x | x in Names(rules[1..]) ensures x in Names(rules) {
          var i :| 0 <= i < |rules| - 1 && rules[1..][i].name == x;
          assert rules[i + 1].name == x;
        }
      }
    }
  }

  lemma {:induction false} RoundsGrow(db: Db, rules: seq<Entry>, m: nat, n: nat)
    requires m <= n
    ensures Rounds(db, rules, m) <= Rounds(db, rules, n)
    ensures forall f :: f in Rounds(db, rules, n) && f !in Rounds(db, rules, m) ==> f.pred in Names(rules)
  {
    if m < n {
      RoundsGrow(db, rules, m, n - 1);
      RoundGrows(Rounds(db, rules, n - 1), rules);
    }
  }

  lemma {:induction false} RoundsShift(db: Db, rules: seq<Entry>, n: nat)
    ensures Rounds(ApplyRules(db, rules), rules, n) == Rounds(db, rules, n + 1)
  {
    if n > 0 {
      RoundsShift(db, rules, n - 1);
    }
  }

  /** A return happens after some round count below the cap, at the first
      round that changes nothing. */
  lemma {:induction false} FixpointReturns(db: Db, rules: seq<Entry>, rounds: nat) returns (n: nat)
    requires Fixpoint(db, rules, rounds).Some?
    ensures n < rounds && Fixpoint(db, rules, rounds).value == Rounds(db, rules, n)
    ensures ApplyRules(Rounds(db, rules, n), rules) == Rounds(db, rules, n)
    decreases rounds
  {
    var next := ApplyRules(db, rules);
    if next == db {
      n := 0;
    } else {
      var k := FixpointReturns(next, rules, rounds - 1);
      RoundsShift(db, rules, k);
      n := k + 1;
    }
  }

  /** The cap is hit only when every one of its rounds changed something. */
  lemma {:induction false} FixpointFails(db: Db, rules: seq<Entry>, rounds: nat, n: nat)
    requires Fixpoint(db, rules, rounds).None? && n < rounds
    ensures ApplyRules(Rounds(db, rules, n), rules) != Rounds(db, rules, n)
    decreases rounds
  {
    if n > 0 {
      FixpointFails(ApplyRules(db, rules), rules, rounds - 1, n - 1);
      RoundsShift(db, rules, n - 1);
    }
  }

  /** An unchanged round means every rule is already satisfied. */
  lemma {:induction false} UnchangedIsClosed(db: Db, rules: seq<Entry>)
    ensures ApplyRules(db, rules) == db <==> Closed(db, rules)
  {
    if rules != [] {
      var db1 := db + Derive(db, rules[0]);
      RoundGrows(db1, rules[1..]);
      if ApplyRules(db, rules) == db {
        assert db1 == db;
        UnchangedIsClosed(db, rules[1..]);
        forall i | 0 <= i < |rules| ensures Derive(db, rules[i]) <= db {
          if i > 0 { assert rules[1..][i - 1] == rules[i]; }
        }
      } else if Closed(db, rules) {
        assert Derive(db, rules[0]) <= db;
        assert db1 == db;
        UnchangedIsClosed(db, rules[1..]);
      }
    }
  }

  lemma {:induction false} RoundWithinClosed(db: Db, rules: seq<Entry>, m: Db)
    requires PositiveRules(rules) && db <= m && Closed(m, rules)
    ensures ApplyRules(db, rules) <= m
    decreases rules
  {
    if rules != [] {
      DeriveMonotone(db, m, rules[0]);
      assert forall i :: 0 <= i < |rules| - 1 ==> rules[1..][i] == rules[i + 1];
      RoundWithinClosed(db + Derive(db, rules[0]), rules[1..], m);
    }
  }

  lemma {:induction false} FixpointWithinClosed(db: Db, rules: seq<Entry>, rounds: nat, m: Db)
    requires PositiveRules(rules) && db <= m && Closed(m, rules)
    requires Fixpoint(db, rules, rounds).Some?
    ensures db <= Fixpoint(db, rules, rounds).value <= m
    decreases rounds
  {
    RoundGrows(db, rules);
    RoundWithinClosed(db, rules, m);
    if ApplyRules(db, rules) != db {
      FixpointWithinClosed(ApplyRules(db, rules), rules, rounds - 1, m);
    }
  }

  /** Whatever the policy, a normal return keeps the facts and satisfies every rule. */
  lemma {:induction false} ReturnIsClosed(db: Db, rules: seq<Entry>, rounds: nat)
    requires Fixpoint(db, rules, rounds).Some?
    ensures db <= Fixpoint(db, rules, rounds).value
    ensures Closed(Fixpoint(db, rules, rounds).value, rules)
    decreases rounds
  {
    UnchangedIsClosed(db, rules);
    RoundGrows(db, rules);
    if ApplyRules(db, rules) != db {
      ReturnIsClosed(ApplyRules(db, rules), rules, rounds - 1);
    }
  }

  ghost predicate IsLeastModel(m: Db, db: Db, rules: seq<Entry>) {
    && db <= m && Closed(m, rules)
    && forall m' :: db <= m' && Closed(m', rules) ==> m <= m'
  }

  /** Positive policies: a normal return leaves the least closed fact set. */
  lemma LeastModel(db: Db, rules: seq<Entry>, rounds: nat)
    requires PositiveRules(rules)
    requires Fixpoint(db, rules, rounds).Some?
    ensures IsLeastModel(Fixpoint(db, rules, rounds).value, db, rules)
  {
    ReturnIsClosed(db, rules, rounds);
    var m := Fixpoint(db, rules, rounds).value;
    forall m' | db <= m' && Closed(m', rules) ensures m <= m' {
      FixpointWithinClosed(db, rules, rounds, m');
    }
  }

  /** Reordering or repeating positive rules cannot change what a return gives. */
  lemma RuleOrderIrrelevant(db: Db, rules: seq<Entry>, rules': seq<Entry>, rounds: nat, rounds': nat)
    requires PositiveRules(rules)
    requires forall e :: e in rules <==> e in rules'
    requires Fixpoint(db, rules, rounds).Some? && Fixpoint(db, rules', rounds').Some?
    ensures Fixpoint(db, rules, rounds).value == Fixpoint(db, rules', rounds').value
  {
    forall i | 0 <= i < |rules'| ensures Positive(rules'[i].all) {
      assert rules'[i] in rules;
    }
    LeastModel(db, rules, rounds);
    LeastModel(db, rules', rounds');
    forall m: Db ensures Closed(m, rules) <==> Closed(m, rules') {
      ClosedBySet(m, rules, rules');
      ClosedBySet(m, rules', rules);
    }
  }

  lemma ClosedBySet(m: Db, rules: seq<Entry>, rules': seq<Entry>)
    requires forall e :: e in rules' ==> e in rules
    ensures Closed(m, rules) ==> Closed(m, rules')
  {
    if Closed(m, rules) {
      forall i | 0 <= i < |rules'| ensures Derive(m, rules'[i]) <= m {
        assert rules'[i] in rules;
        var j :| 0 <= j < |rules| && rules[j] == rules'[i];
      }
    }
  }
}

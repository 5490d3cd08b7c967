/** How far the guarantees reach: the depth bound is tight, and with negation
    the order of the rules can change the answer. */
module CclLimits {
  import opened Wrappers
  import opened CclPolicy
  import opened CclSemantics
  import opened CclFixpoint
  import opened CclStrata

  const VAR_X: Value := Str("$X")

  function Rung(k: nat): string {
    seq(k, _ => 'p')
  }

  /** The rule copying relation `k` into relation `k + 1`. */
  function Copy(k: nat): Entry {
    Entry(Rung(k + 1), ["$X"], [Atom(Rung(k), [VAR_X])])
  }

  /** A chain of `n` copying rules, listed against the flow of data. */
  function Backwards(n: nat): seq<Entry> {
    if n == 0 then [] else [Copy(n - 1)] + Backwards(n - 1)
  }

  function Ladder(r: nat): Db {
    set k | 0 <= k <= r :: Fact(Rung(k), [Num(1)])
  }

  lemma SolveConsElim(db: Db, conds: seq<Condition>, b: Binding, r: Binding) returns (m: Binding)
    requires conds != [] && r in Solve(db, conds, b)
    ensures m in Step(db, conds[0], b) && r in Solve(db, conds[1..], m)
  {
    m :| m in Step(db, conds[0], b) && r in Solve(db, conds[1..], m);
  }

  lemma SolveConsIntro(db: Db, conds: seq<Condition>, b: Binding, m: Binding, r: Binding)
    requires conds != [] && m in Step(db, conds[0], b) && r in Solve(db, conds[1..], m)
    ensures r in Solve(db, conds, b)
  {
  }

  lemma SolveNil(db: Db, b: Binding)
    ensures Solve(db, [], b) == {b}
  {
  }

  lemma SolveOne(db: Db, c: Condition, b: Binding)
    ensures Solve(db, [c], b) == Step(db, c, b)
  {
    hide Solve;
    var cs := [c];
    assert cs[1..] == [];
    forall r | r in Solve(db, cs, b) ensures r in Step(db, c, b) {
      var m := SolveConsElim(db, cs, b, r);
      SolveNil(db, m);
    }
    forall r | r in Step(db, c, b) ensures r in Solve(db, cs, b) {
      SolveNil(db, r);
      SolveConsIntro(db, cs, b, r, r);
    }
  }

  lemma UnifyOne(v: Value)
    ensures Unify([VAR_X], [v], map[]) == Some(map["$X" := v])
  {
    assert [VAR_X][1..] == [] && [v][1..] == [];
    assert Unify([VAR_X][1..], [v][1..], map["$X" := v]) == Some(map["$X" := v]);
  }

  lemma CopyDerives(r: nat, k: nat)
    ensures Derive(Ladder(r), Copy(k)) == if k <= r then {Fact(Rung(k + 1), [Num(1)])} else {}
  {
    var db := Ladder(r);
    var b := map["$X" := Num(1)];
    var head := Fact(Rung(k + 1), [Num(1)]);
    SolveOne(db, Copy(k).all[0], map[]);
    UnifyOne(Num(1));
    forall m | m in MatchAtom(db, Rung(k), [VAR_X], map[]) ensures m == b && k <= r {
      var f :| f in db && f.pred == Rung(k) && |f.args| == 1 && Unify([VAR_X], f.args, map[]) == Some(m);
      var j :| 0 <= j <= r && f == Fact(Rung(j), [Num(1)]);
      assert |Rung(k)| == |Rung(j)|;
    }
    if k <= r {
      var f := Fact(Rung(k), [Num(1)]);
      assert f in db && f.pred == Rung(k) && |f.args| == 1 && Unify([VAR_X], f.args, map[]) == Some(b);
      assert b in MatchAtom(db, Rung(k), [VAR_X], map[]);
    }
    assert MatchAtom(db, Rung(k), [VAR_X], map[]) == if k <= r then {b} else {};
    assert Project(["$X"], b) == [Num(1)];
  }

  lemma {:induction false} LadderRound(r: nat, n: nat)
    ensures ApplyRules(Ladder(r), Backwards(n)) == Ladder(if r < n then r + 1 else r)
    decreases n
  {
    if n > 0 {
      CopyDerives(r, n - 1);
      assert Backwards(n)[1..] == Backwards(n - 1);
      var next := Ladder(r) + Derive(Ladder(r), Copy(n - 1));
      if n - 1 < r {
        assert next == Ladder(r);
        LadderRound(r, n - 1);
      } else if n - 1 == r {
        assert next == Ladder(r + 1);
        LadderRound(r + 1, n - 1);
      } else {
        assert next == Ladder(r);
        LadderRound(r, n - 1);
      }
    }
  }

  lemma {:induction false} LadderFixpoint(r: nat, n: nat, rounds: nat)
    requires r + rounds <= n
    ensures Fixpoint(Ladder(r), Backwards(n), rounds).None?
    decreases rounds
  {
    if rounds > 0 {
      LadderRound(r, n);
      LadderFixpoint(r + 1, n, rounds - 1);
      assert Fact(Rung(r + 1), [Num(1)]) in Ladder(r + 1);
      forall k | 0 <= k <= r ensures Fact(Rung(k), [Num(1)]) != Fact(Rung(r + 1), [Num(1)]) {
        assert |Rung(k)| != |Rung(r + 1)|;
      }
    }
  }

  lemma {:induction false} BackwardsRule(n: nat, i: nat)
    requires i < |Backwards(n)|
    ensures exists k :: 0 <= k < n && Backwards(n)[i] == Copy(k)
  {
    if i > 0 {
      BackwardsRule(n - 1, i - 1);
    }
  }

  lemma {:induction false} BackwardsChain(n: nat, p: string, k: nat)
    requires k >= 1 && Chain(Backwards(n), p, k)
    ensures k <= |p| <= n
    decreases k
  {
    var i :| 0 <= i < |Backwards(n)| && Backwards(n)[i].name == p &&
      (k == 1 || exists q :: q in Preds(Backwards(n)[i].all) && Chain(Backwards(n), q, k - 1));
    BackwardsRule(n, i);
    var j :| 0 <= j < n && Backwards(n)[i] == Copy(j);
    if k > 1 {
      var q :| q in Preds(Copy(j).all) && Chain(Backwards(n), q, k - 1);
      assert Preds([Atom(Rung(j), [VAR_X])]) == {Rung(j)} by {
        assert [Atom(Rung(j), [VAR_X])][1..] == [];
      }
      BackwardsChain(n, q, k - 1);
    }
  }

  /** Depth 63 is the most that always returns: an acyclic policy of depth 64,
      with no negation at all, hits the cap. */
  lemma DepthBoundIsTight()
    ensures DepthAtMost(Backwards(64), 64)
    ensures PositiveRules(Backwards(64))
    ensures Fixpoint(Ladder(0), Backwards(64), MAX_ROUNDS).None?
  {
    forall p, k: nat | k == MAX_ROUNDS + 1 && Chain(Backwards(MAX_ROUNDS), p, k) ensures false {
      BackwardsChain(MAX_ROUNDS, p, k);
    }
    forall i | 0 <= i < |Backwards(MAX_ROUNDS)| ensures Positive(Backwards(MAX_ROUNDS)[i].all) {
      BackwardsRule(MAX_ROUNDS, i);
    }
    LadderFixpoint(0, MAX_ROUNDS, MAX_ROUNDS);
  }

  const CLAIM: Condition := Atom("claim", [])
  const DISPUTED_ATOM: Condition := Atom("disputed", [])
  const DISPUTED: Entry := Entry("disputed", [], [CLAIM])
  const ACCEPTED: Entry := Entry("accepted", [], [CLAIM, NotExists([], [DISPUTED_ATOM])])

  lemma PropositionalAtom(db: Db, p: string)
    ensures Step(db, Atom(p, []), map[]) == if Fact(p, []) in db then {map[]} else {}
  {
    var f := Fact(p, []);
    assert f in db ==> f.pred == p && |f.args| == 0 && Unify([], f.args, map[]) == Some(map[]);
  }

  lemma DisputedDerives(db: Db)
    ensures Derive(db, DISPUTED) == if Fact("claim", []) in db then {Fact("disputed", [])} else {}
  {
    SolveOne(db, CLAIM, map[]);
    PropositionalAtom(db, "claim");
    assert Project([], map[]) == [];
  }

  lemma SolveTwo(db: Db, c: Condition, d: Condition, b: Binding)
    requires Step(db, c, b) == {b}
    ensures Solve(db, [c, d], b) == Step(db, d, b)
  {
    hide Solve;
    var cs := [c, d];
    assert cs[1..] == [d];
    SolveOne(db, d, b);
    forall r | r in Solve(db, cs, b) ensures r in Step(db, d, b) {
      var m := SolveConsElim(db, cs, b, r);
    }
    forall r | r in Step(db, d, b) ensures r in Solve(db, cs, b) {
      SolveConsIntro(db, cs, b, b, r);
    }
  }

  lemma AcceptedDerives(db: Db)
    requires Fact("claim", []) in db
    ensures Derive(db, ACCEPTED) == if Fact("disputed", []) in db then {} else {Fact("accepted", [])}
  {
    PropositionalAtom(db, "claim");
    PropositionalAtom(db, "disputed");
    SolveOne(db, DISPUTED_ATOM, map[]);
    SolveTwo(db, CLAIM, NotExists([], [DISPUTED_ATOM]), map[]);
    assert Project([], map[]) == [];
  }

  /** With negation the answer depends on rule order even without recursion:
      reading `disputed` before its rule has run accepts a disputed claim. */
  lemma NegationNeedsRuleOrder()
    ensures var db := {Fact("claim", [])};
            && Fixpoint(db, [ACCEPTED, DISPUTED], MAX_ROUNDS).Some?
            && Fixpoint(db, [DISPUTED, ACCEPTED], MAX_ROUNDS).Some?
            && Fact("accepted", []) in Fixpoint(db, [ACCEPTED, DISPUTED], MAX_ROUNDS).value
            && Fact("accepted", []) !in Fixpoint(db, [DISPUTED, ACCEPTED], MAX_ROUNDS).value
  {
    var db := {Fact("claim", [])};
    var db1 := db + {Fact("accepted", [])};
    TwoRules(db, ACCEPTED, DISPUTED);
    TwoRules(db, DISPUTED, ACCEPTED);
    DisputedDerives(db);
    AcceptedDerives(db);
    DisputedDerives(db1);
    var m := db1 + {Fact("disputed", [])};
    var n := db + {Fact("disputed", [])};
    AcceptedDerives(n);
    TwoRules(m, ACCEPTED, DISPUTED);
    TwoRules(n, DISPUTED, ACCEPTED);
    AcceptedDerives(m);
    DisputedDerives(m);
    DisputedDerives(n);
    assert m + {} == m && n + {} == n && m + {Fact("disputed", [])} == m && n + {Fact("disputed", [])} == n;
    assert ApplyRules(db, [ACCEPTED, DISPUTED]) == m && ApplyRules(m, [ACCEPTED, DISPUTED]) == m;
    assert ApplyRules(db, [DISPUTED, ACCEPTED]) == n && ApplyRules(n, [DISPUTED, ACCEPTED]) == n;
    SecondRoundReturns(db, m, [ACCEPTED, DISPUTED]);
    SecondRoundReturns(db, n, [DISPUTED, ACCEPTED]);
  }

  lemma TwoRules(db: Db, a: Entry, b: Entry)
    ensures ApplyRules(db, [a, b]) == db + Derive(db, a) + Derive(db + Derive(db, a), b)
  {
    assert [a, b][1..] == [b] && [b][1..] == [];
    assert ApplyRules(db + Derive(db, a), [b]) == ApplyRules(db + Derive(db, a) + Derive(db + Derive(db, a), b), []);
  }

  lemma SecondRoundReturns(db: Db, m: Db, rules: seq<Entry>)
    requires ApplyRules(db, rules) == m && ApplyRules(m, rules) == m
    ensures Fixpoint(db, rules, MAX_ROUNDS) == Some(m)
  {
    assert Fixpoint(m, rules, MAX_ROUNDS - 1) == Some(m);
  }
}

/** Policies without recursion: rule order, negation and the round cap. */
module CclStrata {
  import opened Wrappers
  import opened CclPolicy
  import opened CclFixpoint

  /** No body reads the head of its own rule or of a later one. */
  ghost predicate Stratified(rules: seq<Entry>) {
    forall i, j :: 0 <= i <= j < |rules| ==> rules[j].name !in Preds(rules[i].all)
  }

  /** `m` holds the facts and exactly what the rules derive from `m` itself. */
  ghost predicate IsStratifiedModel(m: Db, db: Db, rules: seq<Entry>) {
    forall f :: f in m <==> f in db || exists i :: 0 <= i < |rules| && f in Derive(m, rules[i])
  }

  lemma StratifiedTail(rules: seq<Entry>)
    requires Stratified(rules) && rules != []
    ensures Stratified(rules[1..])
    ensures Names(rules) !! Preds(rules[0].all)
  {
    forall i, j | 0 <= i <= j < |rules| - 1 ensures rules[1..][j].name !in Preds(rules[1..][i].all) {
      assert rules[1..][j] == rules[j + 1] && rules[1..][i] == rules[i + 1];
    }
  }

  /** One round from the facts reaches a stratified model. */
  lemma {:induction false} RoundIsModel(db: Db, rules: seq<Entry>)
    requires Stratified(rules)
    ensures IsStratifiedModel(ApplyRules(db, rules), db, rules)
    decreases rules
  {
    if rules != [] {
      var db1 := db + Derive(db, rules[0]);
      var m := ApplyRules(db, rules);
      StratifiedTail(rules);
      RoundIsModel(db1, rules[1..]);
      RoundGrows(db, rules);
      DeriveFrame(db, m, rules[0]);
      forall f ensures f in m <==> f in db || exists i :: 0 <= i < |rules| && f in Derive(m, rules[i]) {
        if f in m && f !in db {
          if f !in Derive(db, rules[0]) {
            var i :| 0 <= i < |rules| - 1 && f in Derive(m, rules[1..][i]);
            assert f in Derive(m, rules[i + 1]);
          } else {
            assert f in Derive(m, rules[0]);
          }
        }
        if i :| 0 <= i < |rules| && f in Derive(m, rules[i]) {
          if i > 0 {
            assert rules[1..][i - 1] == rules[i];
          }
        }
      }
    }
  }

  /** Two stratified models agree on everything not headed from position `i` on. */
  lemma {:induction false} ModelsAgree(m: Db, m': Db, db: Db, rules: seq<Entry>, i: nat, f: Fact)
    requires Stratified(rules) && i <= |rules|
    requires IsStratifiedModel(m, db, rules) && IsStratifiedModel(m', db, rules)
    requires f.pred !in Names(rules[i..])
    ensures f in m ==> f in m'
    decreases i
  {
    forall j | i <= j < |rules| ensures rules[j].name in Names(rules[i..]) {
      assert rules[i..][j - i] == rules[j];
    }
    if f in m && f !in db {
      var k :| 0 <= k < |rules| && f in Derive(m, rules[k]);
      if k < i {
        forall g: Fact | g.pred in Preds(rules[k].all) ensures g in m <==> g in m' {
          forall j | 0 <= j < |rules[k..]| ensures rules[k..][j].name != g.pred {
            assert rules[k..][j] == rules[k + j];
          }
          ModelsAgree(m, m', db, rules, k, g);
          ModelsAgree(m', m, db, rules, k, g);
        }
        DeriveFrame(m, m', rules[k]);
      }
    }
  }

  /** Stratified policies: the first round reaches the one stratified model,
      negation and counts included, and the second changes nothing, so the loop
      returns it. */
  lemma StratifiedResult(db: Db, rules: seq<Entry>, rounds: nat)
    requires Stratified(rules) && rounds >= 2
    ensures var m := ApplyRules(db, rules);
            && Fixpoint(db, rules, rounds) == Some(m)
            && ApplyRules(m, rules) == m
            && forall m' :: IsStratifiedModel(m', db, rules) <==> m' == m
  {
    var m := ApplyRules(db, rules);
    RoundIsModel(db, rules);
    assert Closed(m, rules);
    UnchangedIsClosed(m, rules);
    assert Fixpoint(m, rules, rounds - 1) == Some(m);
    forall m' | IsStratifiedModel(m', db, rules) ensures m' == m {
      assert rules[|rules|..] == [];
      assert Names(rules[|rules|..]) == {};
      forall f: Fact ensures f in m <==> f in m' {
        ModelsAgree(m, m', db, rules, |rules|, f);
        ModelsAgree(m', m, db, rules, |rules|, f);
      }
    }
  }

  // ----- Any rule order ---------------------------------------------------------

  /** A dependency chain of `k` rule heads, each read by the next, ends in `p`. */
  ghost predicate Chain(rules: seq<Entry>, p: string, k: nat)
    requires k >= 1
    decreases k
  {
    exists i :: 0 <= i < |rules| && rules[i].name == p &&
      (k == 1 || exists q :: q in Preds(rules[i].all) && Chain(rules, q, k - 1))
  }

  ghost predicate DepthAtMost(rules: seq<Entry>, d: nat) {
    !exists p, k: nat :: k == d + 1 && Chain(rules, p, k)
  }

  /** When what the rules for `p` read is the same before and after a round as
      in `base`, the round adds to `p` exactly what those rules give on `base`. */
  lemma {:induction false} RoundFromBase(db: Db, rules: seq<Entry>, base: Db, f: Fact)
    requires forall i :: 0 <= i < |rules| && rules[i].name == f.pred ==>
               Agree(db, base, Preds(rules[i].all)) && Agree(ApplyRules(db, rules), base, Preds(rules[i].all))
    ensures f in ApplyRules(db, rules) <==>
            f in db || exists i :: 0 <= i < |rules| && f in Derive(base, rules[i])
    decreases rules
  {
    if rules != [] {
      var db1 := db + Derive(db, rules[0]);
      RoundGrows(db1, rules[1..]);
      forall i | 0 <= i < |rules| - 1 && rules[1..][i].name == f.pred
        ensures Agree(db1, base, Preds(rules[1..][i].all))
      {
        assert rules[1..][i] == rules[i + 1];
      }
      assert forall i :: 0 <= i < |rules| - 1 ==> rules[1..][i] == rules[i + 1];
      RoundFromBase(db1, rules[1..], base, f);
      if rules[0].name == f.pred {
        DeriveFrame(db, base, rules[0]);
      }
      if f in ApplyRules(db, rules) && f !in db1 {
        var i :| 0 <= i < |rules| - 1 && f in Derive(base, rules[1..][i]);
        assert f in Derive(base, rules[i + 1]);
      }
      if i :| 0 <= i < |rules| && f in Derive(base, rules[i]) {
        if i > 0 { assert f in Derive(base, rules[1..][i - 1]); }
      }
    }
  }

  /** A relation at the end of no chain of `k + 1` heads is settled after `k` rounds. */
  lemma {:induction false} SettledAfter(db: Db, rules: seq<Entry>, k: nat, n: nat, f: Fact)
    requires !Chain(rules, f.pred, k + 1) && k <= n
    ensures f in Rounds(db, rules, n) <==> f in Rounds(db, rules, k)
    decreases k, n
  {
    if k == n {
    } else if k == 0 {
      RoundsGrow(db, rules, 0, n);
    } else {
      SettledAfter(db, rules, k, n - 1, f);
      StableRound(db, rules, k, n - 1, f);
      StableRound(db, rules, k, k - 1, f);
      RoundsGrow(db, rules, k, n - 1);
    }
  }

  /** From round `k - 1` on, a round adds to `f.pred` the same fixed facts. */
  lemma {:induction false} StableRound(db: Db, rules: seq<Entry>, k: nat, n: nat, f: Fact)
    requires k >= 1 && !Chain(rules, f.pred, k + 1) && k - 1 <= n
    ensures f in Rounds(db, rules, n + 1) <==>
            f in Rounds(db, rules, n) || exists i :: 0 <= i < |rules| && f in Derive(Rounds(db, rules, k - 1), rules[i])
    decreases k, 0, n
  {
    var base := Rounds(db, rules, k - 1);
    forall i, g: Fact | 0 <= i < |rules| && rules[i].name == f.pred && g.pred in Preds(rules[i].all)
      ensures g in Rounds(db, rules, n) <==> g in base
      ensures g in Rounds(db, rules, n + 1) <==> g in base
    {
      assert !Chain(rules, g.pred, k);
      SettledAfter(db, rules, k - 1, n, g);
      SettledAfter(db, rules, k - 1, n + 1, g);
    }
    RoundFromBase(Rounds(db, rules, n), rules, base, f);
  }

  /** Acyclic policies of depth at most 63 return normally in any rule order,
      negation and counts included: the convergence error is out of reach. */
  lemma ShallowPolicyReturns(db: Db, rules: seq<Entry>, d: nat)
    requires DepthAtMost(rules, d) && d <= 63
    ensures Fixpoint(db, rules, MAX_ROUNDS) == Some(Rounds(db, rules, d))
  {
    forall n: nat | n >= d ensures Rounds(db, rules, n) == Rounds(db, rules, d) {
      forall f: Fact ensures f in Rounds(db, rules, n) <==> f in Rounds(db, rules, d) {
        SettledAfter(db, rules, d, n, f);
      }
    }
    assert ApplyRules(Rounds(db, rules, d), rules) == Rounds(db, rules, d + 1);
    if Fixpoint(db, rules, MAX_ROUNDS).None? {
      FixpointFails(db, rules, MAX_ROUNDS, d);
    } else {
      var n := FixpointReturns(db, rules, MAX_ROUNDS);
      if n < d { UnchangedForever(db, rules, n, d); }
    }
  }

  lemma {:induction false} UnchangedForever(db: Db, rules: seq<Entry>, n: nat, k: nat)
    requires n <= k && ApplyRules(Rounds(db, rules, n), rules) == Rounds(db, rules, n)
    ensures Rounds(db, rules, k) == Rounds(db, rules, n)
  {
    if n < k {
      UnchangedForever(db, rules, n, k - 1);
    }
  }
}

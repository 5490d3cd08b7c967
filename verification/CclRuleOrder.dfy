/** How much of the rule order a policy depends on: only what it reads under
    negation or in a bounded count has to be settled first. */
module CclRuleOrder {
  import opened CclPolicy
  import opened CclFixpoint
  import opened CclStrata

  // ----- Readiness -----------------------------------------------------------------------------

  /** `p` is complete when the first round comes to rule `i`: its own rules come
      earlier, and what they read is complete when the round comes to them. */
  ghost predicate Ready(rules: seq<Entry>, p: string, i: nat)
    decreases i
  {
    forall j :: 0 <= j < |rules| && rules[j].name == p ==>
      j < i && forall q :: q in Preds(rules[j].all) ==> Ready(rules, q, j)
  }

  /** Only what a rule reads negatively has to be ready for it. */
  ghost predicate NegationReady(rules: seq<Entry>) {
    forall i, q :: 0 <= i < |rules| && q in NegPreds(rules[i].all) ==> Ready(rules, q, i)
  }

  // ----- The rounds as one long pass -------------------------------------------------------------

  function Repeated(rules: seq<Entry>, n: nat): seq<Entry> {
    if n == 0 then [] else Repeated(rules, n - 1) + rules
  }

  lemma {:induction false} ApplyAppend(db: Db, a: seq<Entry>, b: seq<Entry>)
    ensures ApplyRules(db, a + b) == ApplyRules(ApplyRules(db, a), b)
    decreases a
  {
    if a == [] {
      assert a + b == b;
    } else {
      assert (a + b)[1..] == a[1..] + b;
      ApplyAppend(db + Derive(db, a[0]), a[1..], b);
    }
  }

  lemma {:induction false} RoundsAreOnePass(db: Db, rules: seq<Entry>, n: nat)
    ensures Rounds(db, rules, n) == ApplyRules(db, Repeated(rules, n))
  {
    if n > 0 {
      RoundsAreOnePass(db, rules, n - 1);
      ApplyAppend(db, Repeated(rules, n - 1), rules);
    }
  }

  /** A pass that begins with the rules and then only repeats some of them. */
  ghost predicate IsPass(rules: seq<Entry>, pass: seq<Entry>) {
    && rules <= pass
    && forall t :: 0 <= t < |pass| ==> TakenBy(rules, pass[t], t)
  }

  /** One of the first `t + 1` rules. */
  ghost predicate TakenBy(rules: seq<Entry>, e: Entry, t: nat) {
    exists j :: 0 <= j < |rules| && j <= t && e == rules[j]
  }

  lemma {:induction false} RepeatedIsPass(rules: seq<Entry>, n: nat)
    requires n >= 1
    ensures IsPass(rules, Repeated(rules, n))
  {
    var pass, before := Repeated(rules, n), Repeated(rules, n - 1);
    if n > 1 { RepeatedIsPass(rules, n - 1); }
    forall t | 0 <= t < |pass| ensures TakenBy(rules, pass[t], t) {
      if t < |before| {
        assert pass[t] == before[t];
      } else {
        assert pass[t] == rules[t - |before|];
      }
    }
  }

  /** The store when the pass comes to position `t`. */
  function At(db: Db, pass: seq<Entry>, t: nat): Db
    requires t <= |pass|
  {
    ApplyRules(db, pass[..t])
  }

  lemma AtNext(db: Db, pass: seq<Entry>, t: nat)
    requires t < |pass|
    ensures At(db, pass, t + 1) == At(db, pass, t) + Derive(At(db, pass, t), pass[t])
  {
    assert pass[..t + 1] == pass[..t] + [pass[t]];
    ApplyAppend(db, pass[..t], [pass[t]]);
    assert [pass[t]][1..] == [];
  }

  lemma {:induction false} AtGrows(db: Db, pass: seq<Entry>, t: nat, u: nat)
    requires t <= u <= |pass|
    ensures At(db, pass, t) <= At(db, pass, u)
  {
    if t < u {
      AtGrows(db, pass, t, u - 1);
      AtNext(db, pass, u - 1);
    }
  }

  lemma DerivesOwnHead(db: Db, e: Entry, f: Fact)
    requires f in Derive(db, e)
    ensures f.pred == e.name
  {
  }

  lemma ReadyRule(rules: seq<Entry>, p: string, i: nat, j: nat)
    requires Ready(rules, p, i) && j < |rules| && rules[j].name == p
    ensures j < i && forall q :: q in Preds(rules[j].all) ==> Ready(rules, q, j)
  {
  }

  /** What is ready for rule `i` gains nothing after the pass has come to it. */
  lemma {:induction false} ReadyIsFinal(db: Db, rules: seq<Entry>, pass: seq<Entry>, i: nat, t: nat, f: Fact)
    requires IsPass(rules, pass) && i <= |rules| && i <= t <= |pass|
    requires Ready(rules, f.pred, i) && f in At(db, pass, t)
    ensures f in At(db, pass, i)
    decreases i, t
  {
    hide At, Ready, Derive;
    if i < t {
      AtNext(db, pass, t - 1);
      if f in At(db, pass, t - 1) {
        ReadyIsFinal(db, rules, pass, i, t - 1, f);
      } else {
        assert TakenBy(rules, pass[t - 1], t - 1);
        var j :| 0 <= j < |rules| && j <= t - 1 && pass[t - 1] == rules[j];
        DerivesOwnHead(At(db, pass, t - 1), rules[j], f);
        ReadyRule(rules, f.pred, i, j);
        ReadyRuleIsDone(db, rules, pass, i, j, t - 1);
      }
    }
  }

  /** A rule that is ready itself derives the same later as in the first round. */
  lemma {:induction false} ReadyRuleIsDone(db: Db, rules: seq<Entry>, pass: seq<Entry>, i: nat, j: nat, t: nat)
    requires IsPass(rules, pass) && j < |rules| && j < i <= |rules| && j <= t <= |pass|
    requires forall q :: q in Preds(rules[j].all) ==> Ready(rules, q, j)
    ensures Derive(At(db, pass, t), rules[j]) <= At(db, pass, i)
    decreases i, 0
  {
    hide At, Ready;
    AtGrows(db, pass, j, t);
    forall g: Fact | g.pred in Preds(rules[j].all) ensures g in At(db, pass, t) <==> g in At(db, pass, j) {
      if g in At(db, pass, t) { ReadyIsFinal(db, rules, pass, j, t, g); }
    }
    DeriveFrame(At(db, pass, t), At(db, pass, j), rules[j]);
    assert pass[j] == rules[j];
    AtNext(db, pass, j);
    AtGrows(db, pass, j + 1, i);
  }

  /** Whatever the pass derives is derived by some rule from its final store. */
  lemma {:induction false} Supported(db: Db, rules: seq<Entry>, pass: seq<Entry>, t: nat, f: Fact)
    requires IsPass(rules, pass) && NegationReady(rules) && t <= |pass|
    requires f in At(db, pass, t) && f !in db
    ensures exists i :: 0 <= i < |rules| && f in Derive(At(db, pass, |pass|), rules[i])
  {
    if t > 0 {
      AtNext(db, pass, t - 1);
      hide At, NegPreds, Ready;
      if f in At(db, pass, t - 1) {
        Supported(db, rules, pass, t - 1, f);
      } else {
        assert TakenBy(rules, pass[t - 1], t - 1);
        var j :| 0 <= j < |rules| && j <= t - 1 && pass[t - 1] == rules[j];
        var early, final := At(db, pass, t - 1), At(db, pass, |pass|);
        AtGrows(db, pass, t - 1, |pass|);
        AtGrows(db, pass, j, t - 1);
        forall g: Fact | g.pred in NegPreds(rules[j].all) && g in final ensures g in early {
          ReadyIsFinal(db, rules, pass, j, |pass|, g);
        }
        DeriveSigned(early, final, rules[j]);
      }
    }
  }

  // ----- The result does not depend on the order ---------------------------------------------------

  /** Two stratified models agree on what ends no chain of `k + 1` heads. */
  lemma {:induction false} ShallowModelsAgree(m: Db, m': Db, db: Db, rules: seq<Entry>, k: nat, f: Fact)
    requires IsStratifiedModel(m, db, rules) && IsStratifiedModel(m', db, rules)
    requires !Chain(rules, f.pred, k + 1) && f in m
    ensures f in m'
    decreases k
  {
    if f !in db {
      var i :| 0 <= i < |rules| && f in Derive(m, rules[i]);
      if k == 0 {
        assert false;
      } else {
        forall g: Fact | g.pred in Preds(rules[i].all) ensures g in m <==> g in m' {
          assert !Chain(rules, g.pred, k);
          if g in m { ShallowModelsAgree(m, m', db, rules, k - 1, g); }
          if g in m' { ShallowModelsAgree(m', m, db, rules, k - 1, g); }
        }
        DeriveFrame(m, m', rules[i]);
      }
    }
  }

  /** An acyclic policy of depth at most 63 in which every rule's negative reads are
      ready for it returns the one stratified model; where its other rules stand
      does not matter. */
  lemma NegationReadyResult(db: Db, rules: seq<Entry>, d: nat)
    requires DepthAtMost(rules, d) && d <= 63 && NegationReady(rules)
    ensures Fixpoint(db, rules, MAX_ROUNDS).Some?
    ensures forall m :: IsStratifiedModel(m, db, rules) <==> m == Fixpoint(db, rules, MAX_ROUNDS).value
  {
    var m, n := Rounds(db, rules, d), d + 1;
    ShallowPolicyReturns(db, rules, d);
    ReturnIsClosed(db, rules, MAX_ROUNDS);
    assert ApplyRules(m, rules) == m by { UnchangedIsClosed(m, rules); }
    assert Rounds(db, rules, n) == m;
    RoundsAreOnePass(db, rules, n);
    RepeatedIsPass(rules, n);
    var pass := Repeated(rules, n);
    assert pass[..|pass|] == pass;
    assert At(db, pass, |pass|) == m;
    forall f | f in m && f !in db ensures exists i :: 0 <= i < |rules| && f in Derive(m, rules[i]) {
      Supported(db, rules, pass, |pass|, f);
    }
    assert IsStratifiedModel(m, db, rules);
    forall m' | IsStratifiedModel(m', db, rules) ensures m' == m {
      SameShallowModel(m, m', db, rules, d);
    }
  }

  lemma SameShallowModel(m: Db, m': Db, db: Db, rules: seq<Entry>, d: nat)
    requires IsStratifiedModel(m, db, rules) && IsStratifiedModel(m', db, rules) && DepthAtMost(rules, d)
    ensures m == m'
  {
    forall f ensures f in m <==> f in m' {
      assert !Chain(rules, f.pred, d + 1);
      if f in m { ShallowModelsAgree(m, m', db, rules, d, f); }
      if f in m' { ShallowModelsAgree(m', m, db, rules, d, f); }
    }
  }

  /** Being a stratified model depends on the set of rules only. */
  lemma ModelIgnoresOrder(m: Db, db: Db, rules: seq<Entry>, rules': seq<Entry>)
    requires forall e :: e in rules <==> e in rules'
    requires IsStratifiedModel(m, db, rules)
    ensures IsStratifiedModel(m, db, rules')
  {
    forall f ensures f in m <==> f in db || exists i :: 0 <= i < |rules'| && f in Derive(m, rules'[i]) {
      if i :| 0 <= i < |rules| && f in Derive(m, rules[i]) {
        assert rules[i] in rules';
      }
      if i :| 0 <= i < |rules'| && f in Derive(m, rules'[i]) {
        assert rules'[i] in rules;
      }
    }
  }

  lemma {:induction false} ChainIgnoresOrder(rules: seq<Entry>, rules': seq<Entry>, p: string, k: nat)
    requires forall e :: e in rules ==> e in rules'
    requires k >= 1 && Chain(rules, p, k)
    ensures Chain(rules', p, k)
    decreases k
  {
    var i :| 0 <= i < |rules| && rules[i].name == p
        && (k == 1 || exists q :: q in Preds(rules[i].all) && Chain(rules, q, k - 1));
    assert rules[i] in rules';
    var j :| 0 <= j < |rules'| && rules'[j] == rules[i];
    if k > 1 {
      var q :| q in Preds(rules[i].all) && Chain(rules, q, k - 1);
      ChainIgnoresOrder(rules, rules', q, k - 1);
      assert q in Preds(rules'[j].all);
    }
  }

  /** So two such orders of the same rules return the same store. */
  lemma ReadyOrdersAgree(db: Db, rules: seq<Entry>, rules': seq<Entry>, d: nat)
    requires forall e :: e in rules <==> e in rules'
    requires DepthAtMost(rules, d) && d <= 63
    requires NegationReady(rules) && NegationReady(rules')
    ensures Fixpoint(db, rules, MAX_ROUNDS) == Fixpoint(db, rules', MAX_ROUNDS)
  {
    forall p, k: nat | k == d + 1 && Chain(rules', p, k) ensures Chain(rules, p, k) {
      ChainIgnoresOrder(rules', rules, p, k);
    }
    NegationReadyResult(db, rules, d);
    NegationReadyResult(db, rules', d);
    ModelIgnoresOrder(Fixpoint(db, rules, MAX_ROUNDS).value, db, rules, rules');
  }

  /** And so do two stratified orders of the same rules, of any depth. */
  lemma StratifiedOrdersAgree(db: Db, rules: seq<Entry>, rules': seq<Entry>, rounds: nat)
    requires forall e :: e in rules <==> e in rules'
    requires Stratified(rules) && Stratified(rules') && rounds >= 2
    ensures Fixpoint(db, rules, rounds) == Fixpoint(db, rules', rounds)
  {
    StratifiedResult(db, rules, rounds);
    StratifiedResult(db, rules', rounds);
    ModelIgnoresOrder(ApplyRules(db, rules), db, rules, rules');
  }

  lemma {:induction false} NegPredsAreRead(conds: seq<Condition>)
    ensures NegPreds(conds) <= Preds(conds)
    decreases conds
  {
    if conds != [] {
      NegPredsAreRead(conds[1..]);
      match conds[0]
      case Exists(_, body) => NegPredsAreRead(body);
      case CountDistinct(_, body, _, _) => NegPredsAreRead(body);
      case _ =>
    }
  }

  lemma {:induction false} StratifiedReadsAreReady(rules: seq<Entry>, i: nat, q: string)
    requires Stratified(rules) && i < |rules| && q in Preds(rules[i].all)
    ensures Ready(rules, q, i)
    decreases i
  {
    forall j, p | 0 <= j < |rules| && rules[j].name == q && p in Preds(rules[j].all)
      ensures j < i && Ready(rules, p, j)
    {
      StratifiedReadsAreReady(rules, j, p);
    }
  }

  /** Readiness asks less than stratification. */
  lemma StratifiedIsReady(rules: seq<Entry>)
    requires Stratified(rules)
    ensures NegationReady(rules)
  {
    forall i, q | 0 <= i < |rules| && q in NegPreds(rules[i].all) ensures Ready(rules, q, i) {
      NegPredsAreRead(rules[i].all);
      StratifiedReadsAreReady(rules, i, q);
    }
  }
}

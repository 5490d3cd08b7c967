/** What the dependencies of a policy alone can say about its rule order: exactly
    readiness. */
module CclSkeleton {
  import opened CclPolicy
  import opened CclSemantics
  import opened CclFixpoint
  import opened CclStrata
  import opened CclLimits
  import opened CclRuleOrder

  ghost predicate SameRule(e: Entry, e': Entry) {
    e.name == e'.name && Preds(e.all) == Preds(e'.all) && NegPreds(e.all) == NegPreds(e'.all)
  }

  /** Same heads, reading the same predicates with the same signs, rule by rule. */
  ghost predicate SameSkeleton(rules: seq<Entry>, rules': seq<Entry>) {
    |rules| == |rules'| && forall t :: 0 <= t < |rules| ==> SameRule(rules[t], rules'[t])
  }

  lemma {:induction false} ChainSame(rules: seq<Entry>, rules': seq<Entry>, p: string, k: nat)
    requires SameSkeleton(rules, rules') && k >= 1 && Chain(rules, p, k)
    ensures Chain(rules', p, k)
    decreases k
  {
    var i :| 0 <= i < |rules| && rules[i].name == p
             && (k == 1 || exists q :: q in Preds(rules[i].all) && Chain(rules, q, k - 1));
    assert SameRule(rules[i], rules'[i]);
    if k > 1 {
      var q :| q in Preds(rules[i].all) && Chain(rules, q, k - 1);
      ChainSame(rules, rules', q, k - 1);
    }
  }

  lemma {:induction false} ReadySame(rules: seq<Entry>, rules': seq<Entry>, p: string, i: nat)
    requires SameSkeleton(rules, rules') && Ready(rules, p, i)
    ensures Ready(rules', p, i)
    decreases i
  {
    forall j, q | 0 <= j < |rules'| && rules'[j].name == p && q in Preds(rules'[j].all) ensures Ready(rules', q, j) {
      assert SameRule(rules[j], rules'[j]);
      ReadySame(rules, rules', q, j);
    }
    forall j | 0 <= j < |rules'| && rules'[j].name == p ensures j < i {
      assert SameRule(rules[j], rules'[j]);
    }
  }

  lemma SkeletonKeeps(rules: seq<Entry>, rules': seq<Entry>, d: nat)
    requires SameSkeleton(rules, rules')
    ensures DepthAtMost(rules, d) ==> DepthAtMost(rules', d)
    ensures NegationReady(rules) ==> NegationReady(rules')
  {
    forall p, k: nat | k == d + 1 && Chain(rules', p, k) ensures Chain(rules, p, k) {
      ChainSame(rules', rules, p, k);
    }
    if NegationReady(rules) {
      forall i, q | 0 <= i < |rules'| && q in NegPreds(rules'[i].all) ensures Ready(rules', q, i) {
        assert SameRule(rules[i], rules'[i]);
        ReadySame(rules, rules', q, i);
      }
    }
  }

  // ----- Bodies with a given skeleton ----------------------------------------------------------

  /** What a rule is to do: never fire, always fire, or depend on one fact. */
  datatype Kind = Off | Free | Needs(p: string) | Unless(q: string)

  /** Reads the old body in a count that is always true, or never. */
  function Guard(e: Entry, open: bool): Condition {
    CountDistinct([], e.all, Ge, if open then 0.0 else 2.0)
  }

  function Shape(e: Entry, k: Kind): Entry {
    Entry(e.name, [],
          match k
          case Off => [Guard(e, false)]
          case Free => [Guard(e, true)]
          case Needs(p) => [Guard(e, true), Exists([], [Atom(p, [])])]
          case Unless(q) => [Guard(e, true), NotExists([], [Atom(q, [])])])
  }

  lemma PredsOfOne(c: Condition)
    ensures Preds([c]) == PredsOf(c) && NegPreds([c]) == NegPredsOf(c)
  {
    assert [c][1..] == [];
  }

  lemma PredsOfTwo(c: Condition, d: Condition)
    ensures Preds([c, d]) == PredsOf(c) + PredsOf(d) && NegPreds([c, d]) == NegPredsOf(c) + NegPredsOf(d)
  {
    assert [c, d][1..] == [d];
    PredsOfOne(d);
  }

  lemma ShapeIsSame(e: Entry, k: Kind)
    requires k.Needs? ==> k.p in Preds(e.all)
    requires k.Unless? ==> k.q in NegPreds(e.all)
    ensures SameRule(e, Shape(e, k))
  {
    NegPredsAreRead(e.all);
    PredsOfOne(Guard(e, true));
    PredsOfOne(Guard(e, false));
    match k
    case Needs(p) =>
      PredsOfOne(Atom(p, []));
      PredsOfTwo(Guard(e, true), Exists([], [Atom(p, [])]));
    case Unless(q) =>
      PredsOfOne(Atom(q, []));
      PredsOfTwo(Guard(e, true), NotExists([], [Atom(q, [])]));
    case _ =>
  }

  predicate Fires(db: Db, k: Kind) {
    match k
    case Off => false
    case Free => true
    case Needs(p) => Fact(p, []) in db
    case Unless(q) => Fact(q, []) !in db
  }

  lemma GuardHolds(db: Db, e: Entry, open: bool)
    ensures Step(db, Guard(e, open), map[]) == if open then {map[]} else {}
  {
    var ts := Projections([], Solve(db, e.all, map[]));
    assert ts <= {[]};
    SubsetCardinality(ts, {[]});
  }

  lemma ShapeSolves(db: Db, e: Entry, k: Kind)
    ensures Solve(db, Shape(e, k).all, map[]) == if Fires(db, k) then {map[]} else {}
  {
    hide Step, Guard, Solve;
    GuardHolds(db, e, true);
    GuardHolds(db, e, false);
    match k
    case Off => SolveOne(db, Guard(e, false), map[]);
    case Free => SolveOne(db, Guard(e, true), map[]);
    case Needs(p) =>
      SolveTwo(db, Guard(e, true), Exists([], [Atom(p, [])]), map[]);
      QuantifiedAtom(db, p);
    case Unless(q) =>
      SolveTwo(db, Guard(e, true), NotExists([], [Atom(q, [])]), map[]);
      QuantifiedAtom(db, q);
  }

  lemma ShapeDerives(db: Db, e: Entry, k: Kind)
    ensures Derive(db, Shape(e, k)) == if Fires(db, k) then {Fact(e.name, [])} else {}
  {
    ShapeSolves(db, e, k);
    hide Solve, Fires;
    assert Project([], map[]) == [];
  }

  lemma QuantifiedAtom(db: Db, p: string)
    ensures Step(db, Exists([], [Atom(p, [])]), map[]) == if Fact(p, []) in db then {map[]} else {}
    ensures Step(db, NotExists([], [Atom(p, [])]), map[]) == if Fact(p, []) in db then {} else {map[]}
  {
    SolveOne(db, Atom(p, []), map[]);
    PropositionalAtom(db, p);
  }

  // ----- Ranks ---------------------------------------------------------------------------------

  /** The length of the longest dependency chain that ends in `p`, up to `d`. */
  ghost function Rank(rules: seq<Entry>, p: string, d: nat): (k: nat)
    ensures k <= d && (k > 0 ==> Chain(rules, p, k))
    ensures forall j :: k < j <= d ==> !Chain(rules, p, j)
  {
    if d == 0 then 0 else if Chain(rules, p, d) then d else Rank(rules, p, d - 1)
  }

  lemma RankDrops(rules: seq<Entry>, d: nat, t: nat, q: string)
    requires DepthAtMost(rules, d) && t < |rules| && q in Preds(rules[t].all)
    ensures Rank(rules, q, d) < Rank(rules, rules[t].name, d)
  {
    var k := Rank(rules, q, d);
    assert Chain(rules, rules[t].name, k + 1);
  }

  // ----- A path of late rules --------------------------------------------------------------------

  /** Rules that support `q`, each coming before the one that reads its head, except
      for the last, which comes too late. */
  ghost predicate IsLatePath(rules: seq<Entry>, q: string, i: nat, path: seq<nat>)
    decreases |path|
  {
    && path != [] && path[0] < |rules| && rules[path[0]].name == q
    && if |path| == 1 then path[0] >= i
       else
         && path[0] < i && path[1] < |rules| && rules[path[1]].name in Preds(rules[path[0]].all)
         && IsLatePath(rules, rules[path[1]].name, path[0], path[1..])
  }

  lemma {:induction false} LatePath(rules: seq<Entry>, q: string, i: nat) returns (path: seq<nat>)
    requires !Ready(rules, q, i)
    ensures IsLatePath(rules, q, i, path)
    decreases i
  {
    var j :| 0 <= j < |rules| && rules[j].name == q
             && !(j < i && forall p :: p in Preds(rules[j].all) ==> Ready(rules, p, j));
    if j >= i {
      path := [j];
    } else {
      var p :| p in Preds(rules[j].all) && !Ready(rules, p, j);
      var rest := LatePath(rules, p, j);
      path := [j] + rest;
      assert path[1..] == rest;
    }
  }

  /** What the rules of a path are to do. */
  ghost function Assign(rules: seq<Entry>, q: string, i: nat, path: seq<nat>): map<nat, Kind>
    requires IsLatePath(rules, q, i, path)
    decreases |path|
  {
    if |path| == 1 then map[path[0] := Free]
    else Assign(rules, rules[path[1]].name, path[0], path[1..])[path[0] := Needs(rules[path[1]].name)]
  }

  lemma {:induction false} AssignRanks(rules: seq<Entry>, d: nat, q: string, i: nat, path: seq<nat>, t: nat)
    requires DepthAtMost(rules, d) && IsLatePath(rules, q, i, path) && t in Assign(rules, q, i, path)
    ensures t < |rules| && (t != path[0] ==> Rank(rules, rules[t].name, d) < Rank(rules, q, d))
    decreases |path|
  {
    if |path| > 1 && t != path[0] {
      RankDrops(rules, d, path[0], rules[path[1]].name);
      AssignRanks(rules, d, rules[path[1]].name, path[0], path[1..], t);
    }
  }

  /** The path's rules do what they are to do, and no other rule derives its heads. */
  ghost predicate Fits(rules: seq<Entry>, kinds: nat -> Kind, path: seq<nat>)
    requires forall m :: 0 <= m < |path| ==> path[m] < |rules|
    decreases |path|
  {
    path != [] ==>
      && (forall u :: 0 <= u < |rules| && rules[u].name == rules[path[0]].name && kinds(u) != Off ==> u == path[0])
      && kinds(path[0]) == (if |path| == 1 then Free else Needs(rules[path[1]].name))
      && Fits(rules, kinds, path[1..])
  }

  lemma {:induction false} PathInRange(rules: seq<Entry>, q: string, i: nat, path: seq<nat>)
    requires IsLatePath(rules, q, i, path)
    ensures forall m :: 0 <= m < |path| ==> path[m] < |rules|
    decreases |path|
  {
    if |path| > 1 {
      PathInRange(rules, rules[path[1]].name, path[0], path[1..]);
      assert forall m :: 0 < m < |path| ==> path[m] == path[1..][m - 1];
    }
  }

  lemma {:induction false} AssignFits(rules: seq<Entry>, d: nat, q: string, i: nat, path: seq<nat>, kinds: nat -> Kind)
    requires DepthAtMost(rules, d) && IsLatePath(rules, q, i, path)
    requires forall m :: 0 <= m < |path| ==> path[m] < |rules|
    requires forall t :: t in Assign(rules, q, i, path) ==> kinds(t) == Assign(rules, q, i, path)[t]
    requires forall u :: 0 <= u < |rules| && kinds(u) != Off && Rank(rules, rules[u].name, d) <= Rank(rules, q, d) ==>
               u in Assign(rules, q, i, path)
    ensures Fits(rules, kinds, path)
    decreases |path|
  {
    forall u | 0 <= u < |rules| && rules[u].name == q && kinds(u) != Off ensures u == path[0] {
      AssignRanks(rules, d, q, i, path, u);
    }
    if |path| > 1 {
      var p, rest := rules[path[1]].name, path[1..];
      RankDrops(rules, d, path[0], p);
      var inner := Assign(rules, p, path[0], rest);
      forall t | t in inner ensures t != path[0] && kinds(t) == inner[t] {
        AssignRanks(rules, d, p, path[0], rest, t);
        assert t in Assign(rules, q, i, path);
      }
      AssignFits(rules, d, p, path[0], rest, kinds);
    } else {
      assert path[1..] == [];
    }
  }

  // ----- The counterexample ------------------------------------------------------------------------

  function Shaped(rules: seq<Entry>, kinds: nat -> Kind): seq<Entry> {
    seq(|rules|, t requires 0 <= t < |rules| => Shape(rules[t], kinds(t)))
  }

  /** The head of a late path is missing when the first round comes to its reader. */
  lemma {:induction false} NotYet(rules: seq<Entry>, kinds: nat -> Kind, q: string, i: nat, path: seq<nat>, t: nat)
    requires IsLatePath(rules, q, i, path) && t <= i && t <= |rules|
    requires (forall m :: 0 <= m < |path| ==> path[m] < |rules|) && Fits(rules, kinds, path)
    ensures Fact(q, []) !in At({}, Shaped(rules, kinds), t)
    decreases |path|, t
  {
    var pass := Shaped(rules, kinds);
    if t == 0 {
      assert pass[..0] == [];
    } else {
      NotYet(rules, kinds, q, i, path, t - 1);
      AtNext({}, pass, t - 1);
      ShapeDerives(At({}, pass, t - 1), rules[t - 1], kinds(t - 1));
      if t - 1 == path[0] && |path| > 1 {
        NotYet(rules, kinds, rules[path[1]].name, path[0], path[1..], path[0]);
      }
    }
  }

  /** Every stratified model has the head of the path. */
  lemma {:induction false} InModel(rules: seq<Entry>, kinds: nat -> Kind, q: string, i: nat, path: seq<nat>, m: Db)
    requires IsLatePath(rules, q, i, path)
    requires (forall n :: 0 <= n < |path| ==> path[n] < |rules|) && Fits(rules, kinds, path)
    requires IsStratifiedModel(m, {}, Shaped(rules, kinds))
    ensures Fact(q, []) in m
    decreases |path|
  {
    var pass := Shaped(rules, kinds);
    if |path| > 1 { InModel(rules, kinds, rules[path[1]].name, path[0], path[1..], m); }
    ShapeDerives(m, rules[path[0]], kinds(path[0]));
    assert Fact(q, []) in Derive(m, pass[path[0]]);
  }

  /** The reader fires in the first round. */
  lemma ReaderFires(rules: seq<Entry>, kinds: nat -> Kind, q: string, i: nat, path: seq<nat>)
    requires SetUp(rules, kinds, q, i, path)
    ensures Fact(rules[i].name, []) in ApplyRules({}, Shaped(rules, kinds))
  {
    NotYet(rules, kinds, q, i, path, i);
    hide IsLatePath, Fits, NegPreds, Preds, ApplyRules, Derive;
    var pass := Shaped(rules, kinds);
    AtNext({}, pass, i);
    ShapeDerives(At({}, pass, i), rules[i], kinds(i));
    AtGrows({}, pass, i + 1, |pass|);
    assert pass[..|pass|] == pass;
  }

  /** No stratified model lets it. */
  lemma ReaderErrs(rules: seq<Entry>, kinds: nat -> Kind, q: string, i: nat, path: seq<nat>, m: Db)
    requires SetUp(rules, kinds, q, i, path) && IsStratifiedModel(m, {}, Shaped(rules, kinds))
    ensures Fact(rules[i].name, []) !in m
  {
    InModel(rules, kinds, q, i, path, m);
    hide IsLatePath, Fits, NegPreds, Preds, Derive;
    var pass, h := Shaped(rules, kinds), Fact(rules[i].name, []);
    forall u | 0 <= u < |pass| ensures h !in Derive(m, pass[u]) { ShapeDerives(m, rules[u], kinds(u)); }
  }

  /** Everything the counterexample needs: a late path to what rule `i` reads
      negatively, its rules set up along it, and all others switched off. */
  ghost predicate SetUp(rules: seq<Entry>, kinds: nat -> Kind, q: string, i: nat, path: seq<nat>) {
    && i < |rules| && IsLatePath(rules, q, i, path) && kinds(i) == Unless(q) && q in NegPreds(rules[i].all)
    && (forall n :: 0 <= n < |path| ==> path[n] < |rules|) && Fits(rules, kinds, path)
    && (forall u :: 0 <= u < |rules| && rules[u].name == rules[i].name && kinds(u) != Off ==> u == i)
    && (forall t :: 0 <= t < |rules| && t != i ==> !kinds(t).Unless?)
    && (forall t :: 0 <= t < |rules| && kinds(t).Needs? ==> kinds(t).p in Preds(rules[t].all))
  }

  lemma SetUpExists(rules: seq<Entry>, d: nat, q: string, i: nat) returns (kinds: nat -> Kind, path: seq<nat>)
    requires DepthAtMost(rules, d) && i < |rules| && q in NegPreds(rules[i].all) && !Ready(rules, q, i)
    ensures SetUp(rules, kinds, q, i, path)
  {
    path := LatePath(rules, q, i);
    var active := Assign(rules, q, i, path);
    kinds := (t: nat) => if t == i then Unless(q) else if t in active then active[t] else Off;
    hide SetUp;
    NegPredsAreRead(rules[i].all);
    KindsAreSetUp(rules, d, q, i, path, active, kinds);
  }

  lemma KindsAreSetUp(rules: seq<Entry>, d: nat, q: string, i: nat, path: seq<nat>, active: map<nat, Kind>,
                      kinds: nat -> Kind)
    requires DepthAtMost(rules, d) && i < |rules| && q in NegPreds(rules[i].all) && q in Preds(rules[i].all)
    requires IsLatePath(rules, q, i, path) && active == Assign(rules, q, i, path)
    requires forall t: nat :: kinds(t) == if t == i then Unless(q) else if t in active then active[t] else Off
    ensures SetUp(rules, kinds, q, i, path)
  {
    hide IsLatePath, Fits, NegPreds, Preds, Assign;
    PathInRange(rules, q, i, path);
    RankDrops(rules, d, i, q);
    hide Rank, DepthAtMost;
    forall t | t in active
      ensures t < |rules| && Rank(rules, rules[t].name, d) < Rank(rules, rules[i].name, d)
      ensures !active[t].Unless? && (active[t].Needs? ==> active[t].p in Preds(rules[t].all))
    {
      ActiveRule(rules, d, q, i, path, t);
    }
    AssignFits(rules, d, q, i, path, kinds);
  }

  lemma ActiveRule(rules: seq<Entry>, d: nat, q: string, i: nat, path: seq<nat>, t: nat)
    requires DepthAtMost(rules, d) && IsLatePath(rules, q, i, path) && t in Assign(rules, q, i, path)
    ensures t < |rules| && Rank(rules, rules[t].name, d) <= Rank(rules, q, d)
    ensures var k := Assign(rules, q, i, path)[t]; !k.Unless? && (k.Needs? ==> k.p in Preds(rules[t].all))
  {
    AssignRanks(rules, d, q, i, path, t);
    AssignKinds(rules, q, i, path, t);
    PathHead(rules, q, i, path);
  }

  lemma PathHead(rules: seq<Entry>, q: string, i: nat, path: seq<nat>)
    requires IsLatePath(rules, q, i, path)
    ensures path != [] && path[0] < |rules| && rules[path[0]].name == q
  {
  }

  lemma SetUpIsSame(rules: seq<Entry>, kinds: nat -> Kind, q: string, i: nat, path: seq<nat>)
    requires SetUp(rules, kinds, q, i, path)
    ensures SameSkeleton(rules, Shaped(rules, kinds))
  {
    hide IsLatePath, Fits, NegPreds, Preds, SameRule, Shape;
    forall t | 0 <= t < |rules| ensures SameRule(rules[t], Shape(rules[t], kinds(t))) {
      ShapeIsSame(rules[t], kinds(t));
    }
  }

  /** For every acyclic rule list that is not ready there are bodies with the same
      skeleton that, on no facts at all, do not return their stratified model. */
  lemma UnreadyCanErr(rules: seq<Entry>, d: nat) returns (rules': seq<Entry>)
    requires DepthAtMost(rules, d) && d <= 63 && !NegationReady(rules)
    ensures SameSkeleton(rules, rules') && Fixpoint({}, rules', MAX_ROUNDS).Some?
    ensures !IsStratifiedModel(Fixpoint({}, rules', MAX_ROUNDS).value, {}, rules')
  {
    var i, q :| 0 <= i < |rules| && q in NegPreds(rules[i].all) && !Ready(rules, q, i);
    var kinds, path := SetUpExists(rules, d, q, i);
    SetUpIsSame(rules, kinds, q, i, path);
    rules' := Shaped(rules, kinds);
    SkeletonKeeps(rules, rules', d);
    hide SameSkeleton, Shaped, IsStratifiedModel, ApplyRules, SetUp, Fixpoint, DepthAtMost;
    ShallowPolicyReturns({}, rules', d);
    var m := Fixpoint({}, rules', MAX_ROUNDS).value;
    ReaderFires(rules, kinds, q, i, path);
    FirstRoundStays({}, rules');
    if IsStratifiedModel(m, {}, rules') { ReaderErrs(rules, kinds, q, i, path, m); }
  }

  lemma FirstRoundStays(db: Db, rules: seq<Entry>)
    requires Fixpoint(db, rules, MAX_ROUNDS).Some?
    ensures ApplyRules(db, rules) <= Fixpoint(db, rules, MAX_ROUNDS).value
  {
    hide ApplyRules, Fixpoint;
    var n := FixpointReturns(db, rules, MAX_ROUNDS);
    RoundsGrow(db, rules, 1, n + 1);
    assert Rounds(db, rules, 0) == db;
    assert Rounds(db, rules, 1) == ApplyRules(db, rules);
  }

  lemma {:induction false} AssignKinds(rules: seq<Entry>, q: string, i: nat, path: seq<nat>, t: nat)
    requires IsLatePath(rules, q, i, path) && t in Assign(rules, q, i, path)
    ensures t < |rules|
    ensures var k := Assign(rules, q, i, path)[t]; !k.Unless? && (k.Needs? ==> k.p in Preds(rules[t].all))
    decreases |path|
  {
    if |path| > 1 && t != path[0] { AssignKinds(rules, rules[path[1]].name, path[0], path[1..], t); }
  }

  /** Readiness is exact for skeletons: an acyclic rule list of depth at most 63 is
      ready if and only if every policy with its skeleton returns a stratified model
      on every set of facts. */
  lemma ReadyIffSkeletonSafe(rules: seq<Entry>, d: nat)
    requires DepthAtMost(rules, d) && d <= 63
    ensures NegationReady(rules) <==>
            forall rules', db :: SameSkeleton(rules, rules') ==>
              && Fixpoint(db, rules', MAX_ROUNDS).Some?
              && IsStratifiedModel(Fixpoint(db, rules', MAX_ROUNDS).value, db, rules')
  {
    if NegationReady(rules) {
      forall rules', db | SameSkeleton(rules, rules')
        ensures Fixpoint(db, rules', MAX_ROUNDS).Some?
        ensures IsStratifiedModel(Fixpoint(db, rules', MAX_ROUNDS).value, db, rules')
      {
        SkeletonKeeps(rules, rules', d);
        NegationReadyResult(db, rules', d);
      }
    } else {
      var rules' := UnreadyCanErr(rules, d);
    }
  }

  /** A single policy can be safe without being ready: a rule that never fires may
      read `late` before its rule has run. */
  function Harmless(): seq<Entry> {
    var reader := Entry("reader", [], [NotExists([], [Atom("late", [])])]);
    [Shape(reader, Off), Shape(Entry("late", [], []), Free)]
  }

  lemma HarmlessIsUnready()
    ensures !NegationReady(Harmless())
  {
    var reader := Entry("reader", [], [NotExists([], [Atom("late", [])])]);
    PredsOfOne(Atom("late", []));
    PredsOfOne(NotExists([], [Atom("late", [])]));
    PredsOfOne(Guard(reader, false));
    assert "late" in NegPreds(Harmless()[0].all) && Harmless()[1].name == "late";
    assert !Ready(Harmless(), "late", 0);
  }

  lemma HarmlessDerives(db: Db)
    ensures Derive(db, Harmless()[0]) == {} && Derive(db, Harmless()[1]) == {Fact("late", [])}
  {
    ShapeDerives(db, Entry("reader", [], [NotExists([], [Atom("late", [])])]), Off);
    ShapeDerives(db, Entry("late", [], []), Free);
  }

  lemma UnreadyCanBeHarmless(db: Db)
    ensures !NegationReady(Harmless()) && Fixpoint(db, Harmless(), MAX_ROUNDS).Some?
    ensures IsStratifiedModel(Fixpoint(db, Harmless(), MAX_ROUNDS).value, db, Harmless())
  {
    HarmlessIsUnready();
    var rules, fact := Harmless(), Fact("late", []);
    assert rules == [rules[0], rules[1]];
    hide Harmless, Derive, ApplyRules, NegationReady;
    var m := db + {fact};
    HarmlessDerives(db);
    HarmlessDerives(m);
    TwoRules(db, rules[0], rules[1]);
    TwoRules(m, rules[0], rules[1]);
    assert db + {} == db && m + {} == m && m + {fact} == m;
    SecondRoundReturns(db, m, rules);
    assert fact in Derive(m, rules[1]);
  }
}

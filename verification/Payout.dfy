/** Paying the publishers: a payout that is run again and again over a ledger of
    confirmed transfers. */
module Payout {
  import opened Aggregates

  /** What becomes of one transfer. `ReceiptLost` was mined although waiting for its
      receipt threw; `SaveFailed` was confirmed but the ledger file could not be
      written, so that only the running script knows of it. */
  datatype Outcome = Confirmed | Rejected | ReceiptLost | SaveFailed

  /** `ledger` is the ledger; `transfers` is what left the wallet, `lost` the part of
      it that no ledger accounts for, and `balance` what is left. */
  datatype Books = Books(ledger: seq<Entry>, transfers: seq<Entry>, lost: seq<Entry>, balance: nat)

  /** A run in progress: the ledger is the one in memory, `saved` entries of which
      are in the file. */
  datatype Tally = Tally(books: Books, saved: nat, success: nat, fail: nat, shortfalls: nat, distributed: nat)

  const MAX_FAILURES: nat := 3

  /** One publisher of the payout loop. A transfer the wallet cannot cover reverts. */
  function Pay(t: Tally, e: Entry, outcome: Outcome, dryRun: bool): Tally {
    var b := t.books;
    if e in b.ledger then t
    else if dryRun then t.(success := t.success + 1, distributed := t.distributed + e.wei)
    else if b.balance < e.wei then t.(fail := t.fail + 1, shortfalls := t.shortfalls + 1)
    else
      var moved := b.(transfers := b.transfers + [e], balance := b.balance - e.wei);
      match outcome
      case Confirmed =>
        t.(books := moved.(ledger := b.ledger + [e]), saved := |b.ledger| + 1,
           success := t.success + 1, distributed := t.distributed + e.wei)
      case Rejected => t.(fail := t.fail + 1)
      case ReceiptLost => t.(books := moved.(lost := b.lost + [e]), fail := t.fail + 1)
      case SaveFailed => t.(books := moved.(ledger := b.ledger + [e]), fail := t.fail + 1)
  }

  /** The loop over the first `n` publishers, which ends after the third failure. */
  function PayFirst(b: Books, pubs: seq<Entry>, outcomes: nat -> Outcome, dryRun: bool, n: nat): Tally
    requires n <= |pubs|
  {
    if n == 0 then Tally(b, |b.ledger|, 0, 0, 0, 0)
    else
      var t := PayFirst(b, pubs, outcomes, dryRun, n - 1);
      if t.fail >= MAX_FAILURES then t else Pay(t, pubs[n - 1], outcomes(n - 1), dryRun)
  }

  /** What the ledger already covers among the first `n` publishers. */
  function Already(pubs: seq<Entry>, ledger: seq<Entry>, n: nat): nat
    requires n <= |pubs|
  {
    if n == 0 then 0
    else Already(pubs, ledger, n - 1) + (if pubs[n - 1] in ledger then pubs[n - 1].wei else 0)
  }

  function AlreadyCount(pubs: seq<Entry>, ledger: seq<Entry>, n: nat): nat
    requires n <= |pubs|
  {
    if n == 0 then 0 else AlreadyCount(pubs, ledger, n - 1) + (if pubs[n - 1] in ledger then 1 else 0)
  }

  datatype Exit = NothingToDo | InsufficientBalance | Ran(tally: Tally)

  /** A whole run of the payout. */
  function RunOnce(b: Books, d: Distribution, dryRun: bool, outcomes: nat -> Outcome): Exit {
    var n := |d.publishers|;
    if AlreadyCount(d.publishers, b.ledger, n) == d.count then NothingToDo
    else if !dryRun && b.balance < d.totalWei - Already(d.publishers, b.ledger, n) then InsufficientBalance
    else Ran(PayFirst(b, d.publishers, outcomes, dryRun, n))
  }

  /** When the script ends, what its file does not hold is forgotten. */
  function Forget(b: Books, saved: nat): Books {
    var n := if saved <= |b.ledger| then saved else |b.ledger|;
    b.(ledger := b.ledger[..n], lost := b.lost + b.ledger[n..])
  }

  function BooksAfter(b: Books, exit: Exit): Books {
    if exit.Ran? then Forget(exit.tally.books, exit.tally.saved) else b
  }

  /** The wallet, the ledger file and the chain, as runs change them. */
  class Wallet {
    var ledgerFile: seq<Entry>
    var transfers: seq<Entry>
    var balance: nat
    ghost var lost: seq<Entry>

    ghost function Current(): Books
      reads this
    {
      Books(ledgerFile, transfers, lost, balance)
    }

    /** The state of a run whose ledger in memory is `ledger`. */
    ghost predicate Running(t: Tally, ledger: seq<Entry>)
      reads this
    {
      && t.books == Books(ledger, transfers, lost, balance)
      && t.saved <= |ledger| && ledgerFile == ledger[..t.saved]
    }

    /** One transfer and, when it is confirmed, its ledger entry and the saved file. */
    method Transfer(e: Entry, outcome: Outcome, ledger: seq<Entry>)
      returns (ledger': seq<Entry>, success: bool, short: bool)
      modifies this
      ensures forall t: Tally :: old(Running(t, ledger)) && e !in ledger ==>
                var t' := Pay(t, e, outcome, false);
                && Running(t', ledger')
                && t'.success == t.success + (if success then 1 else 0)
                && t'.fail == t.fail + (if success then 0 else 1)
                && t'.shortfalls == t.shortfalls + (if short then 1 else 0)
                && t'.distributed == t.distributed + (if success then e.wei else 0)
      ensures ledger' == ledger || ledger' == ledger + [e]
    {
      ledger' := ledger;
      short := balance < e.wei;
      success := false;
      if short || outcome == Rejected { return; }
      transfers, balance := transfers + [e], balance - e.wei;
      if outcome == ReceiptLost {
        lost := lost + [e];
        return;
      }
      ledger' := ledger + [e];
      if outcome == Confirmed {
        ledgerFile := ledger';
        success := true;
      }
      assert ledger'[..|ledger|] == ledger && ledger'[..|ledger'|] == ledger';
      assert forall k :: 0 <= k <= |ledger| ==> ledger'[..k] == ledger[..k];
    }

    /** What the ledger covers, in wei and in publishers. */
    method Covered(pubs: seq<Entry>, completed: set<Entry>) returns (already: nat, skipped: nat)
      requires completed == set e <- ledgerFile
      ensures already == Already(pubs, ledgerFile, |pubs|) && skipped == AlreadyCount(pubs, ledgerFile, |pubs|)
    {
      already, skipped := 0, 0;
      for i := 0 to |pubs|
        invariant already == Already(pubs, ledgerFile, i) && skipped == AlreadyCount(pubs, ledgerFile, i)
      {
        if pubs[i] in completed { already, skipped := already + pubs[i].wei, skipped + 1; }
      }
    }

    method PayAll(pubs: seq<Entry>, dryRun: bool, outcomes: nat -> Outcome, replayed: set<Entry>)
      returns (success: nat, fail: nat, distributed: nat, ghost t: Tally)
      requires replayed == set e <- ledgerFile
      modifies this
      ensures t == PayFirst(old(Current()), pubs, outcomes, dryRun, |pubs|) && t.saved <= |t.books.ledger|
      ensures success == t.success && fail == t.fail && distributed == t.distributed
      ensures Current() == Forget(t.books, t.saved)
    {
      var completed, ledger := replayed, ledgerFile;
      success, fail, distributed := 0, 0, 0;
      t := Tally(Current(), |ledger|, 0, 0, 0, 0);
      assert ledger[..|ledger|] == ledger;
      var i := 0;
      while i < |pubs| && fail < MAX_FAILURES
        invariant i <= |pubs| && completed == set e <- ledger
        invariant t == PayFirst(old(Current()), pubs, outcomes, dryRun, i)
        invariant Running(t, ledger) && success == t.success && fail == t.fail && distributed == t.distributed
      {
        var e := pubs[i];
        t := Pay(t, e, outcomes(i), dryRun);
        if e in completed {
        } else if dryRun {
          success, distributed := success + 1, distributed + e.wei;
        } else {
          var noted, paid, _ := Transfer(e, outcomes(i), ledger);
          if noted != ledger { completed := completed + {e}; }
          ledger := noted;
          if paid {
            success, distributed := success + 1, distributed + e.wei;
          } else {
            fail := fail + 1;
          }
        }
        i := i + 1;
      }
      lost := lost + ledger[|ledgerFile|..];
      StoppedStays(old(Current()), pubs, outcomes, dryRun, i, |pubs|);
    }

    method Run(d: Distribution, dryRun: bool, outcomes: nat -> Outcome)
      returns (ghost exit: Exit, success: nat, fail: nat, distributed: nat)
      modifies this
      ensures exit == RunOnce(old(Current()), d, dryRun, outcomes)
      ensures Current() == BooksAfter(old(Current()), exit)
      ensures exit.Ran? ==>
                success == exit.tally.success && fail == exit.tally.fail && distributed == exit.tally.distributed
      ensures !exit.Ran? ==> success == fail == distributed == 0
    {
      success, fail, distributed := 0, 0, 0;
      var completed := set e <- ledgerFile;
      var already, skipped := Covered(d.publishers, completed);
      if skipped == d.count {
        exit := NothingToDo;
        return;
      }
      if !dryRun && balance < d.totalWei - already {
        exit := InsufficientBalance;
        return;
      }
      ghost var t: Tally;
      success, fail, distributed, t := PayAll(d.publishers, dryRun, outcomes, completed);
      exit := Ran(t);
    }
  }

  lemma {:induction false} StoppedStays(b: Books, pubs: seq<Entry>, outcomes: nat -> Outcome, dryRun: bool, i: nat,
                                        n: nat)
    requires i <= n <= |pubs|
    requires i == n || PayFirst(b, pubs, outcomes, dryRun, i).fail >= MAX_FAILURES
    ensures PayFirst(b, pubs, outcomes, dryRun, n) == PayFirst(b, pubs, outcomes, dryRun, i)
  {
    if i < n { StoppedStays(b, pubs, outcomes, dryRun, i, n - 1); }
  }

  // ----- Over any series of runs ---------------------------------------------------------------

  ghost predicate NoRepeats(es: seq<Entry>) {
    forall i, j :: 0 <= i < j < |es| ==> es[i] != es[j]
  }

  ghost predicate AllIn(es: seq<Entry>, pubs: seq<Entry>) {
    forall i :: 0 <= i < |es| ==> es[i] in pubs
  }

  /** Every ledger entry is a publisher's, none twice; what moved is what the
      ledger and the lost receipts say; and no wei appeared or vanished. */
  ghost predicate Sound(b: Books, pubs: seq<Entry>, funded: nat) {
    && NoRepeats(b.ledger) && AllIn(b.ledger, pubs) && AllIn(b.lost, pubs)
    && multiset(b.transfers) == multiset(b.ledger) + multiset(b.lost)
    && Sum(b.transfers) == Sum(b.ledger) + Sum(b.lost)
    && (forall a :: AmountOf(b.transfers, a) == AmountOf(b.ledger, a) + AmountOf(b.lost, a))
    && b.balance + Sum(b.transfers) == funded
  }

  lemma PayKeepsSound(t: Tally, e: Entry, outcome: Outcome, dryRun: bool, pubs: seq<Entry>, funded: nat)
    requires Sound(t.books, pubs, funded) && e in pubs
    ensures Sound(Pay(t, e, outcome, dryRun).books, pubs, funded)
  {
    hide Sum, AmountOf;
    forall a ensures
      && AmountOf(t.books.transfers + [e], a) == AmountOf(t.books.transfers, a) + (if e.address == a then e.wei else 0)
      && AmountOf(t.books.ledger + [e], a) == AmountOf(t.books.ledger, a) + (if e.address == a then e.wei else 0)
      && AmountOf(t.books.lost + [e], a) == AmountOf(t.books.lost, a) + (if e.address == a then e.wei else 0)
    {
      AmountSnoc(t.books.transfers, e, a);
      AmountSnoc(t.books.ledger, e, a);
      AmountSnoc(t.books.lost, e, a);
    }
    AmountSnoc(t.books.transfers, e, e.address);
    AmountSnoc(t.books.ledger, e, e.address);
    AmountSnoc(t.books.lost, e, e.address);
  }

  lemma {:induction false} LoopKeepsSound(b: Books, pubs: seq<Entry>, outcomes: nat -> Outcome, dryRun: bool, n: nat,
                                          funded: nat)
    requires Sound(b, pubs, funded) && n <= |pubs|
    ensures Sound(PayFirst(b, pubs, outcomes, dryRun, n).books, pubs, funded)
  {
    hide Sound;
    if n > 0 {
      LoopKeepsSound(b, pubs, outcomes, dryRun, n - 1, funded);
      var t := PayFirst(b, pubs, outcomes, dryRun, n - 1);
      PayKeepsSound(t, pubs[n - 1], outcomes(n - 1), dryRun, pubs, funded);
    }
  }

  lemma {:induction false} SumAppend(a: seq<Entry>, b: seq<Entry>, address: string)
    ensures Sum(a + b) == Sum(a) + Sum(b)
    ensures AmountOf(a + b, address) == AmountOf(a, address) + AmountOf(b, address)
  {
    if b == [] {
      assert a + b == a;
    } else {
      assert (a + b)[..|a + b| - 1] == a + b[..|b| - 1];
      SumAppend(a, b[..|b| - 1], address);
    }
  }

  /** What is forgotten is accounted for as lost. */
  lemma ForgetKeepsSound(b: Books, saved: nat, pubs: seq<Entry>, funded: nat)
    requires Sound(b, pubs, funded)
    ensures Sound(Forget(b, saved), pubs, funded)
  {
    hide Sum, AmountOf;
    var n := if saved <= |b.ledger| then saved else |b.ledger|;
    var kept, gone := b.ledger[..n], b.ledger[n..];
    assert b.ledger == kept + gone;
    forall a ensures
      && AmountOf(b.ledger, a) == AmountOf(kept, a) + AmountOf(gone, a)
      && AmountOf(b.lost + gone, a) == AmountOf(b.lost, a) + AmountOf(gone, a)
    {
      SumAppend(kept, gone, a);
      SumAppend(b.lost, gone, a);
    }
    SumAppend(kept, gone, "");
    SumAppend(b.lost, gone, "");
    assert multiset(b.ledger) == multiset(kept) + multiset(gone);
  }

  /** What the publishers from index `n` on are still owed. */
  function Owed(pubs: seq<Entry>, ledger: seq<Entry>, n: nat): nat
    requires n <= |pubs|
    decreases |pubs| - n
  {
    if n == |pubs| then 0 else (if pubs[n] in ledger then 0 else pubs[n].wei) + Owed(pubs, ledger, n + 1)
  }

  lemma {:induction false} OwedShrinks(pubs: seq<Entry>, ledger: seq<Entry>, e: Entry, n: nat)
    requires n <= |pubs|
    ensures Owed(pubs, ledger + [e], n) <= Owed(pubs, ledger, n)
    decreases |pubs| - n
  {
    if n < |pubs| { OwedShrinks(pubs, ledger, e, n + 1); }
  }

  /** The balance check compares against exactly what is still owed. */
  lemma {:induction false} OwedIsRemaining(pubs: seq<Entry>, ledger: seq<Entry>, n: nat)
    requires n <= |pubs|
    ensures Sum(pubs[..n]) + Owed(pubs, ledger, n) == Already(pubs, ledger, n) + Owed(pubs, ledger, 0)
  {
    if n > 0 {
      OwedIsRemaining(pubs, ledger, n - 1);
      assert pubs[..n][..n - 1] == pubs[..n - 1];
    }
  }

  lemma {:induction false} LoopNeverShort(b: Books, pubs: seq<Entry>, outcomes: nat -> Outcome, n: nat)
    requires b.balance >= Owed(pubs, b.ledger, 0) && n <= |pubs|
    ensures var t := PayFirst(b, pubs, outcomes, false, n);
            t.shortfalls == 0 && t.books.balance >= Owed(pubs, t.books.ledger, n)
  {
    if n > 0 {
      LoopNeverShort(b, pubs, outcomes, n - 1);
      var t := PayFirst(b, pubs, outcomes, false, n - 1);
      OwedShrinks(pubs, t.books.ledger, pubs[n - 1], n);
    }
  }

  /** A run that passes the balance check never lacks the tokens for a transfer,
      lost receipts or not. */
  lemma NeverShort(b: Books, d: Distribution, outcomes: nat -> Outcome)
    requires WellFormed(d)
    ensures var exit := RunOnce(b, d, false, outcomes); exit.Ran? ==> exit.tally.shortfalls == 0
  {
    var n := |d.publishers|;
    OwedIsRemaining(d.publishers, b.ledger, n);
    assert d.publishers[..n] == d.publishers;
    if b.balance >= Owed(d.publishers, b.ledger, 0) { LoopNeverShort(b, d.publishers, outcomes, n); }
  }

  /** One run of the payout; `deposit` reached the wallet before it. */
  datatype RunInput = RunInput(deposit: nat, dryRun: bool, outcomes: nat -> Outcome)

  function Deposited(b: Books, r: RunInput): Books {
    b.(balance := b.balance + r.deposit)
  }

  function AfterRun(b: Books, d: Distribution, r: RunInput): Books {
    BooksAfter(Deposited(b, r), RunOnce(Deposited(b, r), d, r.dryRun, r.outcomes))
  }

  function RunAll(b: Books, d: Distribution, runs: seq<RunInput>): Books {
    if runs == [] then b
    else AfterRun(RunAll(b, d, runs[..|runs| - 1]), d, runs[|runs| - 1])
  }

  function Deposits(runs: seq<RunInput>): nat {
    if runs == [] then 0 else Deposits(runs[..|runs| - 1]) + runs[|runs| - 1].deposit
  }

  lemma RunKeepsSound(b: Books, d: Distribution, r: RunInput, funded: nat)
    requires Sound(b, d.publishers, funded)
    ensures Sound(AfterRun(b, d, r), d.publishers, funded + r.deposit)
  {
    hide Sound, PayFirst;
    var before := Deposited(b, r);
    SoundAfterDeposit(b, r, d.publishers, funded);
    LoopKeepsSound(before, d.publishers, r.outcomes, r.dryRun, |d.publishers|, funded + r.deposit);
    var t := PayFirst(before, d.publishers, r.outcomes, r.dryRun, |d.publishers|);
    ForgetKeepsSound(t.books, t.saved, d.publishers, funded + r.deposit);
  }

  /** Any series of runs keeps the books. */
  lemma {:induction false} RunsKeepSound(b: Books, d: Distribution, runs: seq<RunInput>, funded: nat)
    requires Sound(b, d.publishers, funded)
    ensures Sound(RunAll(b, d, runs), d.publishers, funded + Deposits(runs))
    decreases |runs|
  {
    hide Sound, AfterRun;
    if runs != [] {
      var prior := runs[..|runs| - 1];
      RunsKeepSound(b, d, prior, funded);
      RunKeepsSound(RunAll(b, d, prior), d, runs[|runs| - 1], funded + Deposits(prior));
    }
  }

  lemma SoundAfterDeposit(b: Books, r: RunInput, pubs: seq<Entry>, funded: nat)
    requires Sound(b, pubs, funded)
    ensures Sound(Deposited(b, r), pubs, funded + r.deposit)
  {
  }

  // ----- What the books say about the publishers -------------------------------------------------

  lemma {:induction false} LedgerAmount(ledger: seq<Entry>, pubs: seq<Entry>, e: Entry)
    requires NoRepeats(ledger) && AllIn(ledger, pubs) && DistinctAddresses(pubs) && e in pubs
    ensures AmountOf(ledger, e.address) == if e in ledger then e.wei else 0
  {
    if ledger != [] {
      var n := |ledger| - 1;
      assert ledger == ledger[..n] + [ledger[n]];
      assert ledger[n] in pubs;
      LedgerAmount(ledger[..n], pubs, e);
    }
  }

  lemma {:induction false} AlreadySnoc(pubs: seq<Entry>, ledger: seq<Entry>, e: Entry, n: nat)
    requires DistinctAddresses(pubs) && n <= |pubs| && e !in ledger
    ensures Already(pubs, ledger + [e], n) == Already(pubs, ledger, n) + if e in pubs[..n] then e.wei else 0
  {
    if n > 0 {
      AlreadySnoc(pubs, ledger, e, n - 1);
      assert pubs[..n] == pubs[..n - 1] + [pubs[n - 1]];
    }
  }

  lemma {:induction false} AlreadyNone(pubs: seq<Entry>, n: nat)
    requires n <= |pubs|
    ensures Already(pubs, [], n) == 0
  {
    if n > 0 { AlreadyNone(pubs, n - 1); }
  }

  /** Replaying the ledger against the file finds exactly what the ledger paid. */
  lemma {:induction false} AlreadyIsLedgerSum(pubs: seq<Entry>, ledger: seq<Entry>)
    requires NoRepeats(ledger) && AllIn(ledger, pubs) && DistinctAddresses(pubs)
    ensures Already(pubs, ledger, |pubs|) == Sum(ledger)
  {
    if ledger == [] {
      AlreadyNone(pubs, |pubs|);
    } else {
      var n := |ledger| - 1;
      assert ledger == ledger[..n] + [ledger[n]];
      AlreadyIsLedgerSum(pubs, ledger[..n]);
      AlreadySnoc(pubs, ledger[..n], ledger[n], |pubs|);
      assert pubs[..|pubs|] == pubs;
    }
  }

  function Opened(balance: nat): Books {
    Books([], [], [], balance)
  }

  /** Over every series of runs from an empty ledger, with rejected transfers,
      lost receipts, dry runs and deposits: a publisher is paid once for its
      ledger entry and once for each lost receipt, nobody else is paid, the wallet
      is short by exactly what was paid, and the ledger never exceeds the file. */
  lemma PaymentsAccountedFor(balance: nat, d: Distribution, runs: seq<RunInput>)
    requires WellFormed(d)
    ensures var b := RunAll(Opened(balance), d, runs);
            && (forall e :: e in b.transfers ==> e in d.publishers)
            && (forall e :: e in d.publishers ==>
                 multiset(b.transfers)[e] == (if e in b.ledger then 1 else 0) + multiset(b.lost)[e])
            && Sum(b.transfers) == Sum(b.ledger) + Sum(b.lost)
            && b.balance + Sum(b.transfers) == balance + Deposits(runs)
            && Sum(b.ledger) <= d.totalWei
  {
    OpenedIsSound(balance, d.publishers);
    hide RunAll, Sum, AmountOf, Already, Owed;
    var b := RunAll(Opened(balance), d, runs);
    RunsKeepSound(Opened(balance), d, runs, balance);
    forall e | e in b.transfers ensures e in d.publishers {
      assert multiset(b.transfers)[e] > 0;
      assert e in b.ledger || e in b.lost;
    }
    forall e ensures multiset(b.ledger)[e] == if e in b.ledger then 1 else 0 { CountOne(b.ledger, e); }
    AlreadyIsLedgerSum(d.publishers, b.ledger);
    OwedIsRemaining(d.publishers, b.ledger, |d.publishers|);
    assert d.publishers[..|d.publishers|] == d.publishers;
    NothingOwedPast(d.publishers, b.ledger);
  }

  lemma NothingOwedPast(pubs: seq<Entry>, ledger: seq<Entry>)
    ensures Owed(pubs, ledger, |pubs|) == 0
  {
  }

  lemma {:induction false} CountOne(es: seq<Entry>, e: Entry)
    requires NoRepeats(es)
    ensures multiset(es)[e] == if e in es then 1 else 0
  {
    if es != [] {
      var n := |es| - 1;
      assert es == es[..n] + [es[n]];
      CountOne(es[..n], e);
    }
  }

  /** The transfer moved nothing, or the ledger file has it. */
  predicate Accounted(outcome: Outcome) {
    outcome == Confirmed || outcome == Rejected
  }

  ghost predicate NoneLost(runs: seq<RunInput>) {
    forall i, k: nat :: 0 <= i < |runs| ==> Accounted(runs[i].outcomes(k))
  }

  lemma {:induction false} LoopLosesNone(b: Books, pubs: seq<Entry>, outcomes: nat -> Outcome, dryRun: bool, n: nat)
    requires n <= |pubs| && forall k: nat :: Accounted(outcomes(k))
    ensures var t := PayFirst(b, pubs, outcomes, dryRun, n); t.books.lost == b.lost && t.saved == |t.books.ledger|
  {
    if n > 0 { LoopLosesNone(b, pubs, outcomes, dryRun, n - 1); }
  }

  lemma {:induction false} RunsLoseNone(b: Books, d: Distribution, runs: seq<RunInput>)
    requires NoneLost(runs)
    ensures RunAll(b, d, runs).lost == b.lost
    decreases |runs|
  {
    if runs != [] {
      var n := |runs| - 1;
      RunsLoseNone(b, d, runs[..n]);
      var before := Deposited(RunAll(b, d, runs[..n]), runs[n]);
      LoopLosesNone(before, d.publishers, runs[n].outcomes, runs[n].dryRun, |d.publishers|);
    }
  }

  /** When a failed transfer moves nothing, every publisher is paid at most once,
      and then in full, and what was paid is what the ledger says. */
  lemma PaidAtMostOnce(balance: nat, d: Distribution, runs: seq<RunInput>)
    requires WellFormed(d) && NoneLost(runs)
    ensures var b := RunAll(Opened(balance), d, runs);
            && (forall e :: multiset(b.transfers)[e] <= 1)
            && (forall e :: e in d.publishers ==>
               AmountOf(b.transfers, e.address) == if e in b.ledger then e.wei else 0)
            && Sum(b.transfers) == Sum(b.ledger) <= d.totalWei
  {
    hide RunAll, Sound;
    PaymentsAccountedFor(balance, d, runs);
    RunsLoseNone(Opened(balance), d, runs);
    OpenedIsSound(balance, d.publishers);
    RunsKeepSound(Opened(balance), d, runs, balance);
    LosslessBooks(RunAll(Opened(balance), d, runs), d.publishers, balance + Deposits(runs));
  }

  lemma OpenedIsSound(balance: nat, pubs: seq<Entry>)
    ensures Sound(Opened(balance), pubs, balance)
  {
  }

  /** With nothing lost, what moved is what the ledger says, once each. */
  lemma LosslessBooks(b: Books, pubs: seq<Entry>, funded: nat)
    requires Sound(b, pubs, funded) && b.lost == [] && DistinctAddresses(pubs)
    ensures Sum(b.transfers) == Sum(b.ledger)
    ensures forall e :: multiset(b.transfers)[e] <= 1
    ensures forall e :: e in pubs ==> AmountOf(b.transfers, e.address) == if e in b.ledger then e.wei else 0
  {
    NothingOwed();
    hide Sum, AmountOf;
    forall e ensures multiset(b.transfers)[e] <= 1 { CountOne(b.ledger, e); }
    forall e | e in pubs ensures AmountOf(b.transfers, e.address) == if e in b.ledger then e.wei else 0 {
      LedgerAmount(b.ledger, pubs, e);
    }
  }

  lemma NothingOwed()
    ensures Sum([]) == 0 && forall a :: AmountOf([], a) == 0
  {
  }

  // ----- Completion ------------------------------------------------------------------------------

  lemma {:induction false} LoopPaysAll(b: Books, pubs: seq<Entry>, outcomes: nat -> Outcome, n: nat)
    requires b.balance >= Owed(pubs, b.ledger, 0) && n <= |pubs| && forall k: nat :: outcomes(k) == Confirmed
    ensures var t := PayFirst(b, pubs, outcomes, false, n);
            && t.fail == 0
            && (forall e :: e in b.ledger || e in pubs[..n] ==> e in t.books.ledger)
  {
    if n > 0 {
      LoopPaysAll(b, pubs, outcomes, n - 1);
      LoopNeverShort(b, pubs, outcomes, n - 1);
      assert pubs[..n] == pubs[..n - 1] + [pubs[n - 1]];
    }
  }

  lemma {:induction false} AllCounted(pubs: seq<Entry>, ledger: seq<Entry>, n: nat)
    requires n <= |pubs| && forall e :: e in pubs ==> e in ledger
    ensures AlreadyCount(pubs, ledger, n) == n && Owed(pubs, ledger, |pubs| - n) == 0
  {
    if n > 0 { AllCounted(pubs, ledger, n - 1); }
  }

  /** A funded run in which every transfer confirms puts everyone in the ledger. */
  lemma CleanRun(b: Books, d: Distribution, outcomes: nat -> Outcome, funded: nat)
    requires WellFormed(d) && Sound(b, d.publishers, funded)
    requires forall k: nat :: outcomes(k) == Confirmed
    requires RunOnce(b, d, false, outcomes).Ran?
    ensures var after := BooksAfter(b, RunOnce(b, d, false, outcomes));
            && Sound(after, d.publishers, funded) && after.lost == b.lost
            && forall e :: e in d.publishers ==> e in after.ledger
  {
    hide Sound;
    var pubs := d.publishers;
    var n := |pubs|;
    OwedIsRemaining(pubs, b.ledger, n);
    assert pubs[..n] == pubs;
    LoopPaysAll(b, pubs, outcomes, n);
    LoopKeepsSound(b, pubs, outcomes, false, n, funded);
    LoopLosesNone(b, pubs, outcomes, false, n);
    var t := PayFirst(b, pubs, outcomes, false, n);
    assert t.books.ledger[..t.saved] == t.books.ledger;
    assert Forget(t.books, t.saved) == t.books;
  }

  /** Then the payout is finished: the ledger holds the whole grand total, and every
      later run does nothing. */
  lemma CleanRunCompletes(b: Books, d: Distribution, outcomes: nat -> Outcome, funded: nat, later: RunInput)
    requires WellFormed(d) && Sound(b, d.publishers, funded)
    requires forall k: nat :: outcomes(k) == Confirmed
    requires RunOnce(b, d, false, outcomes).Ran?
    ensures var after := BooksAfter(b, RunOnce(b, d, false, outcomes));
            && Sum(after.ledger) == d.totalWei
            && RunOnce(Deposited(after, later), d, later.dryRun, later.outcomes) == NothingToDo
  {
    CleanRun(b, d, outcomes, funded);
    var pubs, after := d.publishers, BooksAfter(b, RunOnce(b, d, false, outcomes));
    hide RunOnce, BooksAfter, PayFirst;
    AllCounted(pubs, after.ledger, |pubs|);
    AlreadyIsLedgerSum(pubs, after.ledger);
    OwedIsRemaining(pubs, after.ledger, |pubs|);
    assert pubs[..|pubs|] == pubs;
    AllCountedEnds(after, d, later);
  }

  lemma AllCountedEnds(b: Books, d: Distribution, later: RunInput)
    requires AlreadyCount(d.publishers, b.ledger, |d.publishers|) == d.count
    ensures RunOnce(Deposited(b, later), d, later.dryRun, later.outcomes) == NothingToDo
  {
    hide PayFirst, Already, AlreadyCount;
  }

  /** A lost receipt is not guarded against: whoever lost one and is not in the
      ledger is paid again by the next clean run. */
  lemma LostReceiptIsPaidAgain(b: Books, d: Distribution, outcomes: nat -> Outcome, funded: nat, e: Entry)
    requires WellFormed(d) && Sound(b, d.publishers, funded)
    requires e in b.lost && e !in b.ledger
    requires forall k: nat :: outcomes(k) == Confirmed
    requires RunOnce(b, d, false, outcomes).Ran?
    ensures multiset(BooksAfter(b, RunOnce(b, d, false, outcomes)).transfers)[e] == 1 + multiset(b.lost)[e] >= 2
  {
    CleanRun(b, d, outcomes, funded);
    var after := BooksAfter(b, RunOnce(b, d, false, outcomes));
    hide RunOnce, BooksAfter;
    CountOne(after.ledger, e);
  }

  // ----- Exactly when nobody is paid twice -----------------------------------------------------------

  ghost predicate PaysNobodyTwice(b: Books) {
    forall e :: multiset(b.transfers)[e] <= 1
  }

  lemma {:induction false} SomeoneMissing(pubs: seq<Entry>, ledger: seq<Entry>, n: nat, i: nat)
    requires i < n <= |pubs| && pubs[i] !in ledger
    ensures AlreadyCount(pubs, ledger, n) < n
  {
    if i < n - 1 {
      SomeoneMissing(pubs, ledger, n - 1, i);
    } else {
      CountedAtMost(pubs, ledger, n - 1);
    }
  }

  lemma {:induction false} CountedAtMost(pubs: seq<Entry>, ledger: seq<Entry>, n: nat)
    requires n <= |pubs|
    ensures AlreadyCount(pubs, ledger, n) <= n
  {
    if n > 0 { CountedAtMost(pubs, ledger, n - 1); }
  }

  /** A deposit of the grand total and a run in which everything confirms. */
  function FundedRun(d: Distribution): RunInput {
    RunInput(d.totalWei, false, (k: nat) => Confirmed)
  }

  lemma OneMoreRun(b: Books, d: Distribution, r: RunInput)
    ensures RunAll(b, d, [r]) == AfterRun(b, d, r)
  {
    assert [r][..0] == [];
    assert RunAll(b, d, []) == b;
  }

  /** From sound books: no further series of runs in which every transfer is
      accounted for pays anyone twice, if and only if nothing is lost so far. */
  lemma PaidOnceIff(b: Books, d: Distribution, funded: nat)
    requires WellFormed(d) && Sound(b, d.publishers, funded)
    ensures (forall more :: NoneLost(more) ==> PaysNobodyTwice(RunAll(b, d, more))) <==> b.lost == []
  {
    hide Sound, RunAll, PaysNobodyTwice, NoneLost;
    if b.lost == [] {
      forall more | NoneLost(more) ensures PaysNobodyTwice(RunAll(b, d, more)) {
        LosslessStays(b, d, more, funded);
      }
    } else {
      var more := LossIsPaidTwice(b, d, funded);
    }
  }

  lemma LosslessStays(b: Books, d: Distribution, more: seq<RunInput>, funded: nat)
    requires WellFormed(d) && Sound(b, d.publishers, funded) && b.lost == [] && NoneLost(more)
    ensures PaysNobodyTwice(RunAll(b, d, more))
  {
    hide RunAll, Sound, NoneLost;
    RunsKeepSound(b, d, more, funded);
    RunsLoseNone(b, d, more);
    LosslessBooks(RunAll(b, d, more), d.publishers, funded + Deposits(more));
  }

  lemma LossIsPaidTwice(b: Books, d: Distribution, funded: nat) returns (more: seq<RunInput>)
    requires WellFormed(d) && Sound(b, d.publishers, funded) && b.lost != []
    ensures NoneLost(more) && !PaysNobodyTwice(RunAll(b, d, more))
  {
    var e := b.lost[0];
    CountOne(b.ledger, e);
    assert multiset(b.lost)[e] >= 1;
    if e in b.ledger {
      more := [];
      assert multiset(b.transfers)[e] >= 2;
    } else {
      var r := FundedRun(d);
      var start := Deposited(b, r);
      more := [r];
      var i :| 0 <= i < |d.publishers| && d.publishers[i] == e;
      SomeoneMissing(d.publishers, b.ledger, |d.publishers|, i);
      SoundAfterDeposit(b, r, d.publishers, funded);
      LostReceiptIsPaidAgain(start, d, r.outcomes, funded + r.deposit, e);
      OneMoreRun(b, d, r);
      assert multiset(RunAll(b, d, more).transfers)[e] >= 2;
    }
  }

  /** Such a state is reached: one run, one publisher, one lost receipt. */
  lemma LostReceiptReachable(e: Entry, r: RunInput)
    requires r.outcomes(0) == ReceiptLost && !r.dryRun
    ensures var b := RunAll(Opened(e.wei), Distribution([e], e.wei, 1), [r]);
            b.ledger == [] && b.lost == [e] && b.transfers == [e]
  {
    hide RunAll, AfterRun;
    OneMoreRun(Opened(e.wei), Distribution([e], e.wei, 1), r);
    LostReceiptRun(e, r);
  }

  lemma LostReceiptRun(e: Entry, r: RunInput)
    requires r.outcomes(0) == ReceiptLost && !r.dryRun
    ensures var b := AfterRun(Opened(e.wei), Distribution([e], e.wei, 1), r);
            b.ledger == [] && b.lost == [e] && b.transfers == [e]
  {
    var b := Deposited(Opened(e.wei), r);
    NobodyPaidYet(e);
    OnePayment(b, e, r.outcomes);
    hide PayFirst, AlreadyCount, Already;
    assert [] + [e] == [e] && [e] + [] == [e];
  }

  lemma NobodyPaidYet(e: Entry)
    ensures AlreadyCount([e], [], 1) == 0 && Already([e], [], 1) == 0
  {
    assert AlreadyCount([e], [], 0) == 0 && Already([e], [], 0) == 0;
  }

  lemma OnePayment(b: Books, e: Entry, outcomes: nat -> Outcome)
    ensures PayFirst(b, [e], outcomes, false, 1) == Pay(Tally(b, |b.ledger|, 0, 0, 0, 0), e, outcomes(0), false)
  {
    assert PayFirst(b, [e], outcomes, false, 0) == Tally(b, |b.ledger|, 0, 0, 0, 0);
  }

  // ----- What a run does ---------------------------------------------------------------------------

  /** A run happens unless every publisher is in the ledger or, outside a dry run, the
      balance is below what the others are owed. */
  lemma RunHappensIff(b: Books, d: Distribution, dryRun: bool, outcomes: nat -> Outcome)
    requires WellFormed(d)
    ensures RunOnce(b, d, dryRun, outcomes).Ran? <==>
            && (exists i :: 0 <= i < |d.publishers| && d.publishers[i] !in b.ledger)
            && (dryRun || b.balance >= Owed(d.publishers, b.ledger, 0))
    ensures RunOnce(b, d, dryRun, outcomes) == NothingToDo <==>
            forall i :: 0 <= i < |d.publishers| ==> d.publishers[i] in b.ledger
  {
    var pubs, n := d.publishers, |d.publishers|;
    OwedIsRemaining(pubs, b.ledger, n);
    assert pubs[..n] == pubs;
    if i :| 0 <= i < n && pubs[i] !in b.ledger {
      SomeoneMissing(pubs, b.ledger, n, i);
    } else {
      AllCounted(pubs, b.ledger, n);
    }
  }

  /** A dry run moves and records nothing, and reports what a clean run would pay. */
  lemma {:induction false} DryRunMovesNothing(b: Books, pubs: seq<Entry>, outcomes: nat -> Outcome, n: nat)
    requires n <= |pubs|
    ensures var t := PayFirst(b, pubs, outcomes, true, n);
            && t.books == b && t.saved == |b.ledger| && t.fail == t.shortfalls == 0
            && t.success == n - AlreadyCount(pubs, b.ledger, n)
            && t.distributed == Sum(pubs[..n]) - Already(pubs, b.ledger, n)
  {
    if n > 0 {
      DryRunMovesNothing(b, pubs, outcomes, n - 1);
      assert pubs[..n][..n - 1] == pubs[..n - 1];
    }
  }

  /** During a run the ledger gains only publishers the loop has come to. */
  lemma {:induction false} LedgerGrows(b: Books, pubs: seq<Entry>, outcomes: nat -> Outcome, n: nat)
    requires n <= |pubs|
    ensures var ledger := PayFirst(b, pubs, outcomes, false, n).books.ledger;
            b.ledger <= ledger && forall e :: e in ledger[|b.ledger|..] ==> e in pubs[..n]
  {
    if n > 0 {
      LedgerGrows(b, pubs, outcomes, n - 1);
      assert pubs[..n] == pubs[..n - 1] + [pubs[n - 1]];
    }
  }

  /** So whether the loop has to try the next publisher is what the ledger said at the start. */
  lemma NextIsNew(b: Books, pubs: seq<Entry>, outcomes: nat -> Outcome, n: nat)
    requires DistinctAddresses(pubs) && n < |pubs|
    ensures pubs[n] in PayFirst(b, pubs, outcomes, false, n).books.ledger <==> pubs[n] in b.ledger
  {
    LedgerGrows(b, pubs, outcomes, n);
    hide PayFirst;
    var ledger := PayFirst(b, pubs, outcomes, false, n).books.ledger;
    assert ledger == b.ledger + ledger[|b.ledger|..];
    assert pubs[n] !in pubs[..n];
  }

  /** The loop goes on through one or two failures and stops at the third: below
      three, every publisher not in the ledger has been tried. */
  lemma {:induction false} RunGoesOnBelowThree(b: Books, pubs: seq<Entry>, outcomes: nat -> Outcome, n: nat)
    requires DistinctAddresses(pubs) && n <= |pubs|
    ensures var t := PayFirst(b, pubs, outcomes, false, n);
            t.fail <= 3 && (t.fail < 3 ==> t.success + t.fail + AlreadyCount(pubs, b.ledger, n) == n)
  {
    if n > 0 {
      RunGoesOnBelowThree(b, pubs, outcomes, n - 1);
      NextIsNew(b, pubs, outcomes, n - 1);
      hide DistinctAddresses;
    }
  }

  /** And whoever's transfer was confirmed is in the ledger, whatever became of the others. */
  lemma {:induction false} ConfirmedArePaid(b: Books, pubs: seq<Entry>, outcomes: nat -> Outcome, n: nat, i: nat)
    requires i < n <= |pubs| && b.balance >= Owed(pubs, b.ledger, 0)
    requires PayFirst(b, pubs, outcomes, false, n).fail < 3 && outcomes(i) == Confirmed
    ensures pubs[i] in PayFirst(b, pubs, outcomes, false, n).books.ledger
  {
    LoopNeverShort(b, pubs, outcomes, n - 1);
    if i < n - 1 { ConfirmedArePaid(b, pubs, outcomes, n - 1, i); }
  }

  /** And what a third failure keeps from being tried is left as it was. */
  lemma {:induction false} RunStopsAtThree(b: Books, pubs: seq<Entry>, outcomes: nat -> Outcome, m: nat, n: nat)
    requires m <= n <= |pubs| && PayFirst(b, pubs, outcomes, false, m).fail == 3
    ensures PayFirst(b, pubs, outcomes, false, n) == PayFirst(b, pubs, outcomes, false, m)
  {
    if m < n { RunStopsAtThree(b, pubs, outcomes, m, n - 1); }
  }
}

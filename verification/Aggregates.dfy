/** The distribution file: one total per publisher address, over all epochs. */
module Aggregates {
  import opened Sums

  datatype Entry = Entry(address: string, wei: nat)

  datatype Distribution = Distribution(publishers: seq<Entry>, totalWei: nat, count: nat)

  function Sum(es: seq<Entry>): nat {
    if es == [] then 0 else Sum(es[..|es| - 1]) + es[|es| - 1].wei
  }

  /** What an address is owed by a list of entries. */
  function AmountOf(es: seq<Entry>, address: string): nat {
    if es == [] then 0
    else AmountOf(es[..|es| - 1], address) + (if es[|es| - 1].address == address then es[|es| - 1].wei else 0)
  }

  ghost predicate Mentions(es: seq<Entry>, address: string) {
    exists i :: 0 <= i < |es| && es[i].address == address
  }

  ghost predicate DistinctAddresses(es: seq<Entry>) {
    forall i, j :: 0 <= i < j < |es| ==> es[i].address != es[j].address
  }

  /** What the payout relies on: one entry per address and a matching grand total. */
  ghost predicate WellFormed(d: Distribution) {
    DistinctAddresses(d.publishers) && d.totalWei == Sum(d.publishers) && d.count == |d.publishers|
  }

  // ----- The distribution file ------------------------------------------------------------------

  function Flatten(epochs: seq<seq<Entry>>): seq<Entry> {
    if epochs == [] then [] else Flatten(epochs[..|epochs| - 1]) + epochs[|epochs| - 1]
  }

  ghost predicate TotalsOf(totals: map<string, int>, read: seq<Entry>) {
    && (forall a :: a in totals <==> Mentions(read, a))
    && (forall a :: a in totals ==> totals[a] == AmountOf(read, a))
  }

  /** Flattening keeps every entry of every epoch, in order. */
  lemma FlattenMeans(epochs: seq<seq<Entry>>, epoch: seq<Entry>)
    ensures Flatten([]) == [] && Flatten(epochs + [epoch]) == Flatten(epochs) + epoch
  {
    assert (epochs + [epoch])[..|epochs|] == epochs;
  }

  /** `totals`, with its keys in insertion order, accounts for the entries read. */
  ghost predicate Accounts(totals: map<string, int>, order: seq<string>, read: seq<Entry>) {
    TotalsOf(totals, read) && Lists(order, totals) && SumValues(totals) == Sum(read)
  }

  ghost predicate Lists(order: seq<string>, totals: map<string, int>) {
    && (forall i, j :: 0 <= i < j < |order| ==> order[i] != order[j])
    && (forall a :: a in totals <==> a in order)
  }

  lemma {:induction false} UnmentionedIsOwedNothing(es: seq<Entry>, a: string)
    requires !Mentions(es, a)
    ensures AmountOf(es, a) == 0
  {
    if es != [] {
      assert es[|es| - 1].address != a;
      assert !Mentions(es[..|es| - 1], a);
      UnmentionedIsOwedNothing(es[..|es| - 1], a);
    }
  }

  lemma MentionsSnoc(es: seq<Entry>, e: Entry, a: string)
    ensures Mentions(es + [e], a) <==> Mentions(es, a) || e.address == a
  {
    var l := es + [e];
    if Mentions(es, a) {
      var i :| 0 <= i < |es| && es[i].address == a;
      assert l[i].address == a;
    }
    if e.address == a { assert l[|es|].address == a; }
  }

  function AddTo(totals: map<string, int>, e: Entry): map<string, int> {
    totals[e.address := Get(totals, e.address) + e.wei]
  }

  lemma NothingAddsUp(a: string)
    ensures Sum([]) == 0 && AmountOf([], a) == 0
  {
  }

  lemma AmountSnoc(es: seq<Entry>, e: Entry, a: string)
    ensures AmountOf(es + [e], a) == AmountOf(es, a) + (if e.address == a then e.wei else 0)
    ensures Sum(es + [e]) == Sum(es) + e.wei
  {
    assert (es + [e])[..|es|] == es;
  }

  lemma TotalsSnoc(totals: map<string, int>, read: seq<Entry>, e: Entry)
    requires TotalsOf(totals, read)
    ensures TotalsOf(AddTo(totals, e), read + [e])
  {
    hide Mentions, AmountOf, Sum;
    var after := AddTo(totals, e);
    if e.address !in totals { UnmentionedIsOwedNothing(read, e.address); }
    forall a ensures a in after <==> Mentions(read + [e], a) { MentionsSnoc(read, e, a); }
    forall a | a in after ensures after[a] == AmountOf(read + [e], a) { AmountSnoc(read, e, a); }
  }

  lemma AccountsSnoc(totals: map<string, int>, order: seq<string>, read: seq<Entry>, e: Entry)
    requires Accounts(totals, order, read)
    ensures Accounts(AddTo(totals, e), if e.address in totals then order else order + [e.address], read + [e])
  {
    hide TotalsOf, Sum, SumValues, AmountOf, Mentions;
    TotalsSnoc(totals, read, e);
    SumUpdate(totals, e.address, Get(totals, e.address) + e.wei);
    AmountSnoc(read, e, e.address);
  }

  lemma ListsTail(order: seq<string>, totals: map<string, int>)
    requires Lists(order, totals) && order != []
    ensures var n := |order| - 1;
            && order[n] in totals && Lists(order[..n], totals - {order[n]})
            && forall i :: 0 <= i < n ==> Get(totals - {order[n]}, order[i]) == Get(totals, order[i])
  {
    var n := |order| - 1;
    assert order == order[..n] + [order[n]];
  }

  lemma {:induction false} SumListed(order: seq<string>, totals: map<string, int>, es: seq<Entry>)
    requires Lists(order, totals) && |es| == |order|
    requires forall i :: 0 <= i < |es| ==> es[i].address == order[i] && es[i].wei == Get(totals, order[i])
    ensures Sum(es) == SumValues(totals)
    decreases |order|
  {
    if order == [] {
      assert totals == map[];
    } else {
      var n := |order| - 1;
      hide SumValues, Lists;
      ListsTail(order, totals);
      SumSplit(totals, order[n]);
      SumListed(order[..n], totals - {order[n]}, es[..n]);
    }
  }

  /** The aggregate of the epochs: well-formed, naming exactly the publishers
      read, each with the sum of its own amounts, and with nothing lost overall. */
  method Aggregate(epochs: seq<seq<Entry>>) returns (d: Distribution)
    ensures WellFormed(d)
    ensures d.totalWei == Sum(Flatten(epochs))
    ensures forall a :: Mentions(d.publishers, a) <==> Mentions(Flatten(epochs), a)
    ensures forall e :: e in d.publishers ==> e.wei == AmountOf(Flatten(epochs), e.address)
  {
    hide Accounts, Mentions, AmountOf, Sum;
    var totals: map<string, int> := map[];
    var order: seq<string> := [];
    NothingAccounted();
    for i := 0 to |epochs|
      invariant Accounts(totals, order, Flatten(epochs[..i]))
    {
      totals, order := AddEpoch(totals, order, epochs[i], Flatten(epochs[..i]));
      assert epochs[..i + 1][..i] == epochs[..i];
    }
    assert epochs[..|epochs|] == epochs;
    var publishers := ListTotals(totals, order, Flatten(epochs));
    var totalWei := SumOf(publishers);
    d := Distribution(publishers, totalWei, |publishers|);
  }

  lemma NothingAccounted()
    ensures Accounts(map[], [], [])
  {
  }

  method AddEpoch(totals: map<string, int>, order: seq<string>, epoch: seq<Entry>, ghost read: seq<Entry>)
    returns (totals': map<string, int>, order': seq<string>)
    requires Accounts(totals, order, read)
    ensures Accounts(totals', order', read + epoch)
  {
    hide Accounts;
    totals', order' := totals, order;
    assert read + epoch[..0] == read;
    for j := 0 to |epoch|
      invariant Accounts(totals', order', read + epoch[..j])
    {
      AccountsSnoc(totals', order', read + epoch[..j], epoch[j]);
      assert read + epoch[..j + 1] == read + epoch[..j] + [epoch[j]];
      if epoch[j].address !in totals' { order' := order' + [epoch[j].address]; }
      totals' := AddTo(totals', epoch[j]);
    }
    assert epoch[..|epoch|] == epoch;
  }

  method ListTotals(totals: map<string, int>, order: seq<string>, ghost read: seq<Entry>) returns (es: seq<Entry>)
    requires Accounts(totals, order, read)
    ensures DistinctAddresses(es) && Sum(es) == Sum(read)
    ensures forall a :: Mentions(es, a) <==> Mentions(read, a)
    ensures forall e :: e in es ==> e.wei == AmountOf(read, e.address)
  {
    es := [];
    for i := 0 to |order|
      invariant |es| == i
      invariant forall k :: 0 <= k < i ==> es[k].address == order[k] && es[k].wei == Get(totals, order[k])
    {
      assert order[i] in totals;
      es := es + [Entry(order[i], totals[order[i]])];
    }
    SumListed(order, totals, es);
    forall a ensures Mentions(es, a) <==> Mentions(read, a) {
      assert Mentions(es, a) <==> a in order;
    }
    forall e | e in es ensures e.wei == AmountOf(read, e.address) {
      var k :| 0 <= k < |es| && es[k] == e;
      assert order[k] in totals;
    }
  }

  method SumOf(es: seq<Entry>) returns (total: nat)
    ensures total == Sum(es)
  {
    total := 0;
    for i := 0 to |es|
      invariant total == Sum(es[..i])
    {
      assert es[..i + 1][..i] == es[..i];
      total := total + es[i].wei;
    }
    assert es[..|es|] == es;
  }
}

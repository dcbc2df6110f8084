/**
 * The entities of the expense calculator and the balance classifier:
 * contributions, transfers, the fair share and the split of the entries
 * into surplus payers and debtors. Amounts are exact reals.
 */
module Ledger {
  import opened Wrappers

  /** One ledger entry: who paid, and how much (later reused for a balance). */
  datatype Contribution = Contribution(name: string, amount: real) {

    /** `Contribution::update`: add `delta` to the amount, in place. */
    function Update(delta: real): (r: Contribution)
      ensures r.name == name
      ensures r.amount - amount == delta
    {
      this.(amount := amount + delta)
    }
  }

  /** A transfer `(from, to, amount)`: `from` pays `to` this amount. */
  datatype Transaction = Transaction(from: string, to: string, amount: real)

  // ---------------------------------------------------------------------
  // Tallies. `who == None` tallies everybody; `Some(p)` only the entries
  // and transfers that bear the name p.
  // ---------------------------------------------------------------------

  predicate Covers(who: Option<string>, name: string) {
    who.None? || who.value == name
  }

  function Share(e: Contribution, who: Option<string>): real {
    if Covers(who, e.name) then e.amount else 0.0
  }

  /** Sum of the amounts of the entries `who` covers. */
  function Tally(es: seq<Contribution>, who: Option<string>): real
    decreases |es|
  {
    if es == [] then 0.0 else Tally(es[..|es| - 1], who) + Share(es[|es| - 1], who)
  }

  /** Number of entries `who` covers. */
  function Count(es: seq<Contribution>, who: Option<string>): nat
    decreases |es|
  {
    if es == [] then 0 else Count(es[..|es| - 1], who) + if Covers(who, es[|es| - 1].name) then 1 else 0
  }

  /** What `who` pays out in one transfer, less what it receives. */
  function Outflow(tx: Transaction, who: Option<string>): real {
    (if Covers(who, tx.from) then tx.amount else 0.0) - (if Covers(who, tx.to) then tx.amount else 0.0)
  }

  /** What `who` pays out over all the transfers, less what it receives. */
  function NetOut(txs: seq<Transaction>, who: Option<string>): real
    decreases |txs|
  {
    if txs == [] then 0.0 else NetOut(txs[..|txs| - 1], who) + Outflow(txs[|txs| - 1], who)
  }

  function Names(es: seq<Contribution>): set<string> {
    set e | e in es :: e.name
  }

  /** No two entries with both the same name and the same amount. */
  predicate NoDuplicates(es: seq<Contribution>) {
    forall i, j :: 0 <= i < j < |es| ==> es[i] != es[j]
  }

  predicate AllPositive(es: seq<Contribution>) {
    forall i :: 0 <= i < |es| ==> es[i].amount > 0.0
  }

  predicate AllNonNegative(es: seq<Contribution>) {
    forall i :: 0 <= i < |es| ==> es[i].amount >= 0.0
  }

  predicate AllNegative(es: seq<Contribution>) {
    forall i :: 0 <= i < |es| ==> es[i].amount < 0.0
  }

  lemma {:induction false} TallyConcat(a: seq<Contribution>, b: seq<Contribution>, who: Option<string>)
    ensures Tally(a + b, who) == Tally(a, who) + Tally(b, who)
    decreases |b|
  {
    if b != [] {
      assert (a + b)[..|a + b| - 1] == a + b[..|b| - 1];
      TallyConcat(a, b[..|b| - 1], who);
    } else {
      assert a + b == a;
    }
  }

  lemma TallyCons(e: Contribution, es: seq<Contribution>, who: Option<string>)
    ensures Tally([e] + es, who) == Share(e, who) + Tally(es, who)
  {
    TallyConcat([e], es, who);
    assert [e][..0] == [];
  }

  lemma {:induction false} NetOutConcat(a: seq<Transaction>, b: seq<Transaction>, who: Option<string>)
    ensures NetOut(a + b, who) == NetOut(a, who) + NetOut(b, who)
    decreases |b|
  {
    if b != [] {
      assert (a + b)[..|a + b| - 1] == a + b[..|b| - 1];
      NetOutConcat(a, b[..|b| - 1], who);
    } else {
      assert a + b == a;
    }
  }

  /** Every transfer leaves one party and reaches another: nothing is created or lost overall. */
  lemma {:induction false} NetOutOfEverybody(txs: seq<Transaction>)
    ensures NetOut(txs, None) == 0.0
    decreases |txs|
  {
    if txs != [] {
      NetOutOfEverybody(txs[..|txs| - 1]);
    }
  }

  /** The sum of the amounts of the transfers, whoever makes them. */
  function TotalAmount(txs: seq<Transaction>): real
    decreases |txs|
  {
    if txs == [] then 0.0 else TotalAmount(txs[..|txs| - 1]) + txs[|txs| - 1].amount
  }

  lemma {:induction false} TotalAmountConcat(a: seq<Transaction>, b: seq<Transaction>)
    ensures TotalAmount(a + b) == TotalAmount(a) + TotalAmount(b)
    decreases |b|
  {
    if b != [] {
      assert (a + b)[..|a + b| - 1] == a + b[..|b| - 1];
      TotalAmountConcat(a, b[..|b| - 1]);
    } else {
      assert a + b == a;
    }
  }

  lemma TotalAmountCons(tx: Transaction, txs: seq<Transaction>)
    ensures TotalAmount([tx] + txs) == tx.amount + TotalAmount(txs)
  {
    TotalAmountConcat([tx], txs);
    assert [tx][..0] == [];
  }

  /** Entries that are all at least zero and sum to zero are all zero, whoever is tallied. */
  lemma {:induction false} ZeroSumOfNonNegative(es: seq<Contribution>, who: Option<string>)
    requires AllNonNegative(es) && Tally(es, None) == 0.0
    ensures Tally(es, who) == 0.0
    decreases |es|
  {
    if es != [] {
      var init := es[..|es| - 1];
      TallyAtLeastZero(init);
      ZeroSumOfNonNegative(init, who);
    }
  }

  lemma {:induction false} TallyAtLeastZero(es: seq<Contribution>)
    requires AllNonNegative(es)
    ensures Tally(es, None) >= 0.0
    decreases |es|
  {
    if es != [] {
      TallyAtLeastZero(es[..|es| - 1]);
    }
  }

  /** Strictly negative entries can only sum to zero when there are none. */
  lemma {:induction false} ZeroSumOfNegative(es: seq<Contribution>)
    requires AllNegative(es) && Tally(es, None) == 0.0
    ensures es == []
  {
    if es != [] {
      TallyBelowZero(es[..|es| - 1]);
    }
  }

  lemma {:induction false} TallyBelowZero(es: seq<Contribution>)
    requires AllNegative(es)
    ensures Tally(es, None) <= 0.0
    ensures es != [] ==> Tally(es, None) < 0.0
    decreases |es|
  {
    if es != [] {
      TallyBelowZero(es[..|es| - 1]);
    }
  }

  // ---------------------------------------------------------------------
  // Fair share and classification (expense_calculator.rs lines 67-105)
  // ---------------------------------------------------------------------

  /** The target contribution: the mean amount, or 0 when there are no entries. */
  function FairShare(cs: seq<Contribution>): real {
    if cs == [] then 0.0 else Tally(cs, None) / (|cs| as real)
  }

  /** `retain`: keep the entries whose amount differs from the target. */
  function Retain(cs: seq<Contribution>, target: real): seq<Contribution>
    decreases |cs|
  {
    if cs == [] then []
    else Retain(cs[..|cs| - 1], target) + if cs[|cs| - 1].amount != target then [cs[|cs| - 1]] else []
  }

  /** The entry's balance: what it paid beyond the target. */
  function Balance(e: Contribution, target: real): Contribution {
    Contribution(e.name, e.amount - target)
  }

  /** Every entry's balance, in input order. */
  function Balances(cs: seq<Contribution>, target: real): seq<Contribution>
    decreases |cs|
  {
    if cs == [] then [] else Balances(cs[..|cs| - 1], target) + [Balance(cs[|cs| - 1], target)]
  }

  /** The surplus payers with their (positive) balances, in input order. */
  function Surplus(cs: seq<Contribution>, target: real): seq<Contribution>
    decreases |cs|
  {
    if cs == [] then []
    else Surplus(cs[..|cs| - 1], target) + if cs[|cs| - 1].amount > target then [Balance(cs[|cs| - 1], target)] else []
  }

  /** The debtors with their (negative) balances, in input order. */
  function Debts(cs: seq<Contribution>, target: real): seq<Contribution>
    decreases |cs|
  {
    if cs == [] then []
    else Debts(cs[..|cs| - 1], target) + if cs[|cs| - 1].amount < target then [Balance(cs[|cs| - 1], target)] else []
  }

  /**
   * Neither list of balances repeats an entry. Lines of the same name and
   * amount are allowed when they sit exactly at the target, since those
   * lead to no balance at all.
   */
  predicate DistinctBalances(cs: seq<Contribution>, target: real) {
    NoDuplicates(Surplus(cs, target)) && NoDuplicates(Debts(cs, target))
  }

  /** One more entry adds its balance to the creditors exactly when it is above the target. */
  lemma SurplusStep(cs: seq<Contribution>, i: nat, target: real)
    requires i < |cs|
    ensures Surplus(cs[..i + 1], target) ==
      Surplus(cs[..i], target) + if cs[i].amount > target then [Balance(cs[i], target)] else []
  {
    assert cs[..i + 1][..i] == cs[..i];
  }

  /** One more entry adds its balance to the debtors exactly when it is below the target. */
  lemma DebtsStep(cs: seq<Contribution>, i: nat, target: real)
    requires i < |cs|
    ensures Debts(cs[..i + 1], target) ==
      Debts(cs[..i], target) + if cs[i].amount < target then [Balance(cs[i], target)] else []
  {
    assert cs[..i + 1][..i] == cs[..i];
  }

  /** The target times the number of entries is the total paid. */
  lemma FairShareTimesCount(cs: seq<Contribution>)
    ensures (|cs| as real) * FairShare(cs) == Tally(cs, None)
  {
    if cs != [] {
      DivideThenMultiply(Tally(cs, None), |cs| as real);
    }
  }

  lemma DivideThenMultiply(x: real, n: real)
    requires n != 0.0
    ensures n * (x / n) == x
  {
  }

  /** A lone entry is its own fair share. */
  lemma FairShareOfOne(e: Contribution)
    ensures FairShare([e]) == e.amount
  {
    TallyOne(e, None);
  }

  lemma TallyOne(e: Contribution, who: Option<string>)
    ensures Tally([e], who) == Share(e, who)
  {
    assert [e][..0] == [];
  }

  /**
   * A balance is in the surplus list exactly when it is positive and the
   * entry that paid target plus that balance is in the input.
   */
  lemma {:induction false} SurplusMembers(cs: seq<Contribution>, target: real, y: Contribution)
    ensures y in Surplus(cs, target) <==> y.amount > 0.0 && Contribution(y.name, y.amount + target) in cs
    decreases |cs|
  {
    if cs != [] {
      var init, last := cs[..|cs| - 1], cs[|cs| - 1];
      assert cs == init + [last];
      SurplusMembers(init, target, y);
    }
  }

  /** A balance is in the debtor list exactly when it is negative and its entry is in the input. */
  lemma {:induction false} DebtsMembers(cs: seq<Contribution>, target: real, y: Contribution)
    ensures y in Debts(cs, target) <==> y.amount < 0.0 && Contribution(y.name, y.amount + target) in cs
    decreases |cs|
  {
    if cs != [] {
      var init, last := cs[..|cs| - 1], cs[|cs| - 1];
      assert cs == init + [last];
      DebtsMembers(init, target, y);
    }
  }

  lemma SurplusIsPositive(cs: seq<Contribution>, target: real)
    ensures AllPositive(Surplus(cs, target))
  {
    var s := Surplus(cs, target);
    forall i | 0 <= i < |s| ensures s[i].amount > 0.0 {
      SurplusMembers(cs, target, s[i]);
    }
  }

  lemma DebtsAreNegative(cs: seq<Contribution>, target: real)
    ensures AllNegative(Debts(cs, target))
  {
    var d := Debts(cs, target);
    forall i | 0 <= i < |d| ensures d[i].amount < 0.0 {
      DebtsMembers(cs, target, d[i]);
    }
  }

  /** Entries equal to the target are in neither list, so dropping them first changes nothing. */
  lemma {:induction false} RetainKeepsClasses(cs: seq<Contribution>, target: real)
    ensures Surplus(Retain(cs, target), target) == Surplus(cs, target)
    ensures Debts(Retain(cs, target), target) == Debts(cs, target)
    ensures |Retain(cs, target)| == |Surplus(cs, target)| + |Debts(cs, target)|
    decreases |cs|
  {
    if cs != [] {
      var init, last := cs[..|cs| - 1], cs[|cs| - 1];
      RetainKeepsClasses(init, target);
      var r := Retain(init, target);
      if last.amount != target {
        assert (r + [last])[..|r + [last]| - 1] == r;
      } else {
        assert r + [] == r;
      }
    }
  }

  /** The two lists together hold every entry's balance (zero balances add nothing). */
  lemma {:induction false} ClassesTally(cs: seq<Contribution>, target: real, who: Option<string>)
    ensures Tally(Surplus(cs, target), who) + Tally(Debts(cs, target), who) == Tally(Balances(cs, target), who)
    decreases |cs|
  {
    if cs != [] {
      var init, last := cs[..|cs| - 1], cs[|cs| - 1];
      ClassesTally(init, target, who);
      var s, d, all := Surplus(init, target), Debts(init, target), Balances(init, target);
      var b := [Balance(last, target)];
      TallyOne(b[0], who);
      TallyConcat(all, b, who);
      if last.amount > target {
        TallyConcat(s, b, who);
        assert Debts(cs, target) == d + [] == d;
      } else if last.amount < target {
        TallyConcat(d, b, who);
        assert Surplus(cs, target) == s + [] == s;
      } else {
        assert Surplus(cs, target) == s + [] == s;
        assert Debts(cs, target) == d + [] == d;
      }
    }
  }

  /** What the entries `who` covers owe at `target` each. */
  function Owed(es: seq<Contribution>, who: Option<string>, target: real): real
    decreases |es|
  {
    if es == [] then 0.0 else Owed(es[..|es| - 1], who, target) + if Covers(who, es[|es| - 1].name) then target else 0.0
  }

  /** Every entry's balance together: what the entries paid, less what they owe. */
  lemma {:induction false} BalancesTally(cs: seq<Contribution>, target: real, who: Option<string>)
    ensures Tally(Balances(cs, target), who) == Tally(cs, who) - Owed(cs, who, target)
    decreases |cs|
  {
    if cs != [] {
      var init, last := cs[..|cs| - 1], cs[|cs| - 1];
      BalancesTally(init, target, who);
      assert Balances(cs, target) == Balances(init, target) + [Balance(last, target)];
      TallyOne(Balance(last, target), who);
      TallyConcat(Balances(init, target), [Balance(last, target)], who);
    }
  }

  /** Each entry owes the target once. */
  lemma {:induction false} OwedIsCountTimesTarget(es: seq<Contribution>, who: Option<string>, target: real)
    ensures Owed(es, who, target) == (Count(es, who) as real) * target
    decreases |es|
  {
    if es != [] {
      var init := es[..|es| - 1];
      OwedIsCountTimesTarget(init, who, target);
      var k := Count(init, who) as real;
      if Covers(who, es[|es| - 1].name) {
        assert Count(es, who) as real == k + 1.0;
        OneMoreTimes(k, target);
      } else {
        assert Count(es, who) == Count(init, who);
      }
    }
  }

  /** At the mean, what all the entries owe is what they paid. */
  lemma OwedAtMean(cs: seq<Contribution>, mean: real)
    requires (|cs| as real) * mean == Tally(cs, None)
    ensures Owed(cs, None, mean) == Tally(cs, None)
  {
    OwedIsCountTimesTarget(cs, None, mean);
    CountOfEverybody(cs);
  }

  lemma OneMoreTimes(k: real, t: real)
    ensures (k + 1.0) * t == k * t + t
  {
  }

  /** At the fair share the balances of all the entries cancel out. */
  lemma BalancesCancel(cs: seq<Contribution>)
    ensures Tally(Balances(cs, FairShare(cs)), None) == 0.0
    ensures Tally(Surplus(cs, FairShare(cs)), None) + Tally(Debts(cs, FairShare(cs)), None) == 0.0
  {
    var f := FairShare(cs);
    FairShareTimesCount(cs);
    OwedAtMean(cs, f);
    BalancesTally(cs, f, None);
    ClassesTally(cs, f, None);
  }

  lemma {:induction false} CountOfEverybody(es: seq<Contribution>)
    ensures Count(es, None) == |es|
    decreases |es|
  {
    if es != [] {
      CountOfEverybody(es[..|es| - 1]);
    }
  }

  /** Distinct entries have distinct balances in each list. */
  lemma {:induction false} ClassesHaveNoDuplicates(cs: seq<Contribution>, target: real)
    requires NoDuplicates(cs)
    ensures DistinctBalances(cs, target)
    decreases |cs|
  {
    if cs != [] {
      var init, last := cs[..|cs| - 1], cs[|cs| - 1];
      assert NoDuplicates(init);
      ClassesHaveNoDuplicates(init, target);
      forall k | 0 <= k < |init| ensures init[k] != last {
        assert cs[k] == init[k];
      }
      var b := Balance(last, target);
      SurplusMembers(init, target, b);
      DebtsMembers(init, target, b);
      NoDuplicatesSnoc(Surplus(init, target), b);
      NoDuplicatesSnoc(Debts(init, target), b);
    }
  }

  lemma NoDuplicatesSnoc(es: seq<Contribution>, e: Contribution)
    requires NoDuplicates(es) && e !in es
    ensures NoDuplicates(es + [e]) && NoDuplicates(es + [])
  {
    assert es + [] == es;
  }

  /** Entries drawn from a list keep the signs every entry of that list has. */
  lemma SignsOfMembers(a: seq<Contribution>, b: seq<Contribution>)
    requires forall e :: e in a ==> e in b
    ensures AllPositive(b) ==> AllPositive(a)
    ensures AllNonNegative(b) ==> AllNonNegative(a)
    ensures AllNegative(b) ==> AllNegative(a)
  {
    forall i | 0 <= i < |a| ensures exists k :: 0 <= k < |b| && b[k] == a[i] {
      assert a[i] in b;
    }
  }

  /** Entries that are all at least zero and sum to zero are each zero. */
  lemma {:induction false} ZeroSumAllZero(es: seq<Contribution>)
    requires AllNonNegative(es) && Tally(es, None) == 0.0
    ensures forall i :: 0 <= i < |es| ==> es[i].amount == 0.0
    decreases |es|
  {
    if es != [] {
      var init := es[..|es| - 1];
      TallyAtLeastZero(init);
      ZeroSumAllZero(init);
      assert forall i :: 0 <= i < |init| ==> es[i] == init[i];
    }
  }

  /** `retain` only drops entries. */
  lemma {:induction false} RetainShrinks(cs: seq<Contribution>, target: real)
    ensures |Retain(cs, target)| <= |cs|
    decreases |cs|
  {
    if cs != [] {
      RetainShrinks(cs[..|cs| - 1], target);
    }
  }

  /** Entries that all paid the same amount have that amount as their fair share. */
  lemma EqualAmountsFairShare(cs: seq<Contribution>)
    requires cs != [] && forall i :: 0 <= i < |cs| ==> cs[i].amount == cs[0].amount
    ensures FairShare(cs) == cs[0].amount
  {
    TallyOfEqual(cs, cs[0].amount);
    MultiplyThenDivide(cs[0].amount, |cs| as real);
  }

  lemma {:induction false} TallyOfEqual(es: seq<Contribution>, a: real)
    requires forall i :: 0 <= i < |es| ==> es[i].amount == a
    ensures Tally(es, None) == (|es| as real) * a
    decreases |es|
  {
    if es != [] {
      TallyOfEqual(es[..|es| - 1], a);
      OneMoreTimes((|es| - 1) as real, a);
    }
  }

  lemma MultiplyThenDivide(a: real, n: real)
    requires n != 0.0
    ensures (n * a) / n == a
  {
  }

  /** When every entry paid the fair share, `retain` drops them all. */
  lemma {:induction false} RetainAllAtTarget(cs: seq<Contribution>, target: real)
    requires forall i :: 0 <= i < |cs| ==> cs[i].amount == target
    ensures Retain(cs, target) == []
    decreases |cs|
  {
    if cs != [] {
      RetainAllAtTarget(cs[..|cs| - 1], target);
    }
  }
}

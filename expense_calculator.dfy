/**
 * `ExpenseCalculatorApp::find_contributions` (expense_calculator.rs lines
 * 42-207): the object with its four fields, the loops of each stage, and
 * what the whole computation promises about the transfers it records.
 */
module ExpenseCalculator {
  import opened Wrappers
  import opened Text
  import opened Ledger
  import opened Input
  import opened Planner

  /** One record of the diagnostic trace in `self.output`, by value. */
  datatype TraceEntry =
    | ContributionsLogged(entries: seq<Contribution>)
    | TargetLogged(target: real)
    | PartitionLogged(surplus: seq<Contribution>, debts: seq<Contribution>)
    | ResidualLogged(surplus: seq<Contribution>, debts: seq<Contribution>)
    | HistoryLogged(history: seq<Transaction>)

  /** The transfers recorded for the parsed entries `cs`. */
  function Settlement(cs: seq<Contribution>): seq<Transaction> {
    var t := FairShare(cs);
    var kept := Retain(cs, t);
    SettlePlan(Surplus(kept, t), Debts(kept, t))
  }

  /** The trace written for the parsed entries `cs` (lines 65, 79, 106-110, 172-176, 206). */
  function Trace(cs: seq<Contribution>): seq<TraceEntry> {
    var t := FairShare(cs);
    var kept := Retain(cs, t);
    var s, d := Surplus(kept, t), Debts(kept, t);
    [ContributionsLogged(cs), TargetLogged(t), PartitionLogged(s, d)] + PlanTrace(s, d)
  }

  /** The trace of the planner on the creditors `s` and debtors `d` (lines 172-176, 206). */
  function PlanTrace(s: seq<Contribution>, d: seq<Contribution>): seq<TraceEntry> {
    if |s| == 1 then []
    else [ResidualLogged(Residual(s, d).0, Residual(s, d).1), HistoryLogged(SettlePlan(s, d))]
  }

  // ---------------------------------------------------------------------
  // The loops of each stage
  // ---------------------------------------------------------------------

  /** Lines 88-105: two passes over the entries, keeping the balances above and below the target. */
  method ClassifyEntries(cs: seq<Contribution>, target: real) returns (surplus: seq<Contribution>, debts: seq<Contribution>)
    ensures surplus == Surplus(cs, target)
    ensures debts == Debts(cs, target)
  {
    surplus := [];
    for i := 0 to |cs|
      invariant surplus == Surplus(cs[..i], target)
    {
      SurplusStep(cs, i, target);
      if cs[i].amount > target {
        surplus := surplus + [Contribution(cs[i].name, cs[i].amount - target)];
      }
    }
    assert cs[..|cs|] == cs;
    debts := [];
    for i := 0 to |cs|
      invariant debts == Debts(cs[..i], target)
    {
      DebtsStep(cs, i, target);
      if cs[i].amount < target {
        debts := debts + [Contribution(cs[i].name, cs[i].amount - target)];
      }
    }
    assert cs[..|cs|] == cs;
  }

  /** Lines 116-122: each debtor in turn pays the one creditor. */
  method PaySingleCreditor(c: Contribution, ds: seq<Contribution>) returns (txs: seq<Transaction>)
    ensures txs == SingleCreditorPlan(c, ds)
  {
    txs := [];
    for i := 0 to |ds|
      invariant txs == SingleCreditorPlan(c, ds[..i])
    {
      assert ds[..i + 1][..i] == ds[..i];
      txs := txs + [Transaction(ds[i].name, c.name, -ds[i].amount)];
    }
    assert ds[..|ds|] == ds;
  }

  /** Lines 125-150: every creditor against every debtor, marking the exact pairs by value. */
  method MatchExactPairs(cs: seq<Contribution>, ds: seq<Contribution>)
    returns (txs: seq<Transaction>, surplusSet: set<Contribution>, debtSet: set<Contribution>)
    ensures MatchState(txs, surplusSet, debtSet) == MatchAll(cs, ds)
  {
    txs, surplusSet, debtSet := [], {}, {};
    for i := 0 to |cs|
      invariant MatchState(txs, surplusSet, debtSet) == MatchAll(cs[..i], ds)
    {
      assert cs[..i + 1][..i] == cs[..i];
      ghost var before := MatchState(txs, surplusSet, debtSet);
      for j := 0 to |ds|
        invariant MatchState(txs, surplusSet, debtSet) == ScanDebts(cs[i], ds[..j], before)
      {
        assert ds[..j + 1][..j] == ds[..j];
        if cs[i].amount == -ds[j].amount && cs[i] !in surplusSet && ds[j] !in debtSet {
          txs := txs + [Transaction(ds[j].name, cs[i].name, cs[i].amount)];
          surplusSet := surplusSet + {cs[i]};
          debtSet := debtSet + {ds[j]};
        }
      }
      assert ds[..|ds|] == ds;
    }
    assert cs[..|cs|] == cs;
  }

  /** Lines 152-165: keep, in order, the entries whose value was not marked. */
  method DropMatched(es: seq<Contribution>, marks: set<Contribution>) returns (kept: seq<Contribution>)
    ensures kept == Unmatched(es, marks)
  {
    kept := [];
    for i := 0 to |es|
      invariant kept == Unmatched(es[..i], marks)
    {
      assert es[..i + 1][..i] == es[..i];
      if es[i] !in marks {
        kept := kept + [es[i]];
      }
    }
    assert es[..|es|] == es;
  }

  /**
   * Lines 179-204: the two-cursor loop. The lists are updated in place at
   * the cursors; each round advances exactly one cursor. Also returns the
   * entries from each cursor on when the loop stops.
   */
  method SettleResidual(cs: seq<Contribution>, ds: seq<Contribution>)
    returns (txs: seq<Transaction>, creditorsLeft: seq<Contribution>, debtorsLeft: seq<Contribution>)
    ensures txs == Settle(cs, ds)
    ensures |txs| + |creditorsLeft| + |debtorsLeft| == |cs| + |ds|
    ensures creditorsLeft == [] || debtorsLeft == []
    ensures Balanced(cs, ds) ==>
      debtorsLeft == [] && forall i :: 0 <= i < |creditorsLeft| ==> creditorsLeft[i].amount == 0.0
  {
    var surplus, debts := cs, ds;
    var surplusIndex, debtIndex := 0, 0;
    txs := [];
    while surplusIndex < |surplus| && debtIndex < |debts|
      invariant |surplus| == |cs| && |debts| == |ds|
      invariant 0 <= surplusIndex <= |surplus| && 0 <= debtIndex <= |debts|
      invariant txs + Settle(surplus[surplusIndex..], debts[debtIndex..]) == Settle(cs, ds)
      invariant |txs| == surplusIndex + debtIndex
      invariant Balanced(cs, ds) ==> Balanced(surplus[surplusIndex..], debts[debtIndex..])
      decreases |surplus| - surplusIndex + |debts| - debtIndex
    {
      ghost var done := txs;
      var tx;
      tx, surplus, debts, surplusIndex, debtIndex := SettleRound(surplus, debts, surplusIndex, debtIndex);
      txs := txs + [tx];
      ghost var rest := Settle(surplus[surplusIndex..], debts[debtIndex..]);
      assert txs + rest == done + ([tx] + rest);
    }
    creditorsLeft, debtorsLeft := surplus[surplusIndex..], debts[debtIndex..];
    if Balanced(cs, ds) {
      SettledLeftovers(creditorsLeft, debtorsLeft);
    }
  }

  /**
   * One round of the two-cursor loop: the transfer from the debtor at `j`
   * to the creditor at `i`, and the state after it.
   */
  method SettleRound(surplus: seq<Contribution>, debts: seq<Contribution>, i: nat, j: nat)
    returns (tx: Transaction, surplus': seq<Contribution>, debts': seq<Contribution>, i': nat, j': nat)
    requires i < |surplus| && j < |debts|
    ensures |surplus'| == |surplus| && |debts'| == |debts|
    ensures i' <= |surplus'| && j' <= |debts'| && i' + j' == i + j + 1 && i <= i' && j <= j'
    ensures Settle(surplus[i..], debts[j..]) == [tx] + Settle(surplus'[i'..], debts'[j'..])
    ensures Balanced(surplus[i..], debts[j..]) ==> Balanced(surplus'[i'..], debts'[j'..])
  {
    var c, d := surplus[i], debts[j];
    if c.amount < -d.amount {
      tx := Transaction(d.name, c.name, c.amount);
      CreditorRound(surplus, debts, i, j);
      surplus', debts', i', j' := surplus, debts[j := d.Update(c.amount)], i + 1, j;
    } else {
      tx := Transaction(d.name, c.name, -d.amount);
      DebtorRound(surplus, debts, i, j);
      surplus', debts', i', j' := surplus[i := c.Update(d.amount)], debts, i, j + 1;
    }
  }

  /** When the cursors stop on a balanced pair, no debt is left and every creditor left is owed 0. */
  lemma SettledLeftovers(creditorsLeft: seq<Contribution>, debtorsLeft: seq<Contribution>)
    requires creditorsLeft == [] || debtorsLeft == []
    requires Balanced(creditorsLeft, debtorsLeft)
    ensures debtorsLeft == []
    ensures forall i :: 0 <= i < |creditorsLeft| ==> creditorsLeft[i].amount == 0.0
  {
    if creditorsLeft == [] {
      ZeroSumOfNegative(debtorsLeft);
    } else {
      ZeroSumAllZero(creditorsLeft);
    }
  }

  /**
   * One round of the two-cursor loop in which the creditor at `i` is paid
   * off: the transfer is the first of the plan left, the debtor at `j`
   * keeps what it still owes and the creditor cursor moves on.
   */
  lemma CreditorRound(surplus: seq<Contribution>, debts: seq<Contribution>, i: nat, j: nat)
    requires i < |surplus| && j < |debts| && surplus[i].amount < -debts[j].amount
    ensures var c, d := surplus[i], debts[j];
      var debts' := debts[j := d.Update(c.amount)];
      Settle(surplus[i..], debts[j..]) == [Transaction(d.name, c.name, c.amount)] + Settle(surplus[i + 1..], debts'[j..]) &&
      (Balanced(surplus[i..], debts[j..]) ==> Balanced(surplus[i + 1..], debts'[j..]))
  {
    var rc, rd := surplus[i..], debts[j..];
    var debts' := debts[j := debts[j].Update(surplus[i].amount)];
    assert surplus[i + 1..] == rc[1..];
    assert debts'[j..] == [debts[j].Update(surplus[i].amount)] + rd[1..];
    if Balanced(rc, rd) {
      CreditorStepBalanced(rc, rd);
    }
  }

  /** The round in which the debtor at `j` is paid off; the creditor at `i` keeps what it is still owed. */
  lemma DebtorRound(surplus: seq<Contribution>, debts: seq<Contribution>, i: nat, j: nat)
    requires i < |surplus| && j < |debts| && surplus[i].amount >= -debts[j].amount
    ensures var c, d := surplus[i], debts[j];
      var surplus' := surplus[i := c.Update(d.amount)];
      Settle(surplus[i..], debts[j..]) == [Transaction(d.name, c.name, -d.amount)] + Settle(surplus'[i..], debts[j + 1..]) &&
      (Balanced(surplus[i..], debts[j..]) ==> Balanced(surplus'[i..], debts[j + 1..]))
  {
    var rc, rd := surplus[i..], debts[j..];
    var surplus' := surplus[i := surplus[i].Update(debts[j].amount)];
    assert surplus'[i..] == [surplus[i].Update(debts[j].amount)] + rc[1..];
    assert debts[j + 1..] == rd[1..];
    if Balanced(rc, rd) {
      DebtorStepBalanced(rc, rd);
    }
  }

  // ---------------------------------------------------------------------
  // The object
  // ---------------------------------------------------------------------

  class ExpenseCalculatorApp {
    var input: string
    var contributions: seq<Contribution>
    var output: seq<TraceEntry>
    var transactionHistory: seq<Transaction>

    /** `Default`: every field empty. */
    constructor ()
      ensures input == "" && contributions == [] && output == [] && transactionHistory == []
    {
      input := "";
      contributions := [];
      output := [];
      transactionHistory := [];
    }

    /**
     * Read `input`, compute the fair share, classify and plan the
     * transfers. On a bad line the method stops at once: `output` is
     * empty, `contributions` holds the lines read before it and
     * `transactionHistory` is left as it was.
     */
    method FindContributions()
      modifies this
      ensures input == old(input)
      ensures ParseInput(input).Failed? ==>
        contributions == ParseInput(input).partial && output == [] &&
        transactionHistory == old(transactionHistory)
      ensures ParseInput(input).Parsed? ==>
        var cs := ParseInput(input).entries;
        contributions == Retain(cs, FairShare(cs)) &&
        transactionHistory == Settlement(cs) &&
        output == Trace(cs)
    {
      output := [];
      var complete := ReadContributions();
      if !complete {
        return;
      }
      PlanTransfers();
    }

    /**
     * Lines 45-63: one contribution per line of `input`; on the first
     * bad line stop, reporting the text incomplete, with the
     * contributions of the lines before it.
     */
    method ReadContributions() returns (complete: bool)
      modifies this
      ensures input == old(input) && output == old(output) && transactionHistory == old(transactionHistory)
      ensures complete <==> ParseInput(input).Parsed?
      ensures complete ==> contributions == ParseInput(input).entries
      ensures !complete ==> contributions == ParseInput(input).partial
    {
      contributions := [];
      var lines := Lines(input);
      var i := 0;
      while i < |lines|
        invariant 0 <= i <= |lines| && lines == Lines(input)
        invariant input == old(input) && output == old(output) && transactionHistory == old(transactionHistory)
        invariant ParseLines(lines[..i]) == Parsed(contributions)
      {
        ParseLinesStep(lines, i);
        var parts := Tokens(lines[i]);
        if |parts| != 2 {
          ParseLinesStopsAt(lines, i + 1);
          return false;
        }
        var n := ParseNumber(parts[1]);
        if n.None? {
          ParseLinesStopsAt(lines, i + 1);
          return false;
        }
        contributions := contributions + [Contribution(parts[0], n.value)];
        i := i + 1;
      }
      assert lines[..i] == lines;
      return true;
    }

    /**
     * Lines 65-110: log the contributions read, compute the target, drop
     * the entries at the target, classify the rest, log them, and record
     * the transfers planned for them.
     */
    method PlanTransfers()
      modifies this
      ensures input == old(input)
      ensures contributions == Retain(old(contributions), FairShare(old(contributions)))
      ensures transactionHistory == Settlement(old(contributions))
      ensures output == old(output) + Trace(old(contributions))
    {
      var cs := contributions;
      ghost var before := output;
      output := output + [ContributionsLogged(cs)];
      var target := FairShare(cs);
      output := output + [TargetLogged(target)];
      var kept := Retain(cs, target);
      contributions := kept;
      var surplus, debts := ClassifyEntries(kept, target);
      output := output + [PartitionLogged(surplus, debts)];
      ghost var head := [ContributionsLogged(cs), TargetLogged(target), PartitionLogged(surplus, debts)];
      assert output == before + head;
      RecordPlan(surplus, debts);
      assert output == before + (head + PlanTrace(surplus, debts));
    }

    /** Lines 112-206: record the transfers planned for the creditors `surplus` and the debtors `debts`. */
    method RecordPlan(surplus: seq<Contribution>, debts: seq<Contribution>)
      modifies this
      ensures input == old(input) && contributions == old(contributions)
      ensures transactionHistory == SettlePlan(surplus, debts)
      ensures output == old(output) + PlanTrace(surplus, debts)
    {
      transactionHistory := [];
      if |surplus| == 1 {
        var single := PaySingleCreditor(surplus[0], debts);
        transactionHistory := single;
        return;
      }
      var matched, surplusSet, debtSet := MatchExactPairs(surplus, debts);
      transactionHistory := matched;
      var surplusLeft := DropMatched(surplus, surplusSet);
      var debtsLeft := DropMatched(debts, debtSet);
      surplusLeft := SortByBalance(surplusLeft, true);
      debtsLeft := SortByBalance(debtsLeft, false);
      output := output + [ResidualLogged(surplusLeft, debtsLeft)];
      var settled, _, _ := SettleResidual(surplusLeft, debtsLeft);
      transactionHistory := transactionHistory + settled;
      output := output + [HistoryLogged(transactionHistory)];
    }
  }

  // ---------------------------------------------------------------------
  // What the recorded transfers promise
  // ---------------------------------------------------------------------

  /** The names of the entries that paid more, and less, than the fair share. */
  function PaidAbove(cs: seq<Contribution>): set<string> {
    set e | e in cs && e.amount > FairShare(cs) :: e.name
  }

  function PaidBelow(cs: seq<Contribution>): set<string> {
    set e | e in cs && e.amount < FairShare(cs) :: e.name
  }

  predicate UniqueNames(cs: seq<Contribution>) {
    forall i, j :: 0 <= i < j < |cs| ==> cs[i].name != cs[j].name
  }

  /**
   * Conservation: when neither list of balances repeats an entry, what each
   * name pays out net is minus its balances at the fair share.
   */
  lemma SettlementConserves(cs: seq<Contribution>, who: Option<string>)
    requires DistinctBalances(cs, FairShare(cs))
    ensures NetOut(Settlement(cs), who) == -Tally(Balances(cs, FairShare(cs)), who)
  {
    BalancesCancel(cs);
    PlanConservesAt(cs, FairShare(cs), who);
  }

  /**
   * Equally: what a name paid, plus what it pays out, less what it
   * receives, is the fair share once for each of its entries.
   */
  lemma SettlementReachesFairShare(cs: seq<Contribution>, who: Option<string>)
    requires DistinctBalances(cs, FairShare(cs))
    ensures Tally(cs, who) + NetOut(Settlement(cs), who) == Owed(cs, who, FairShare(cs))
  {
    SettlementConserves(cs, who);
    BalancesTally(cs, FairShare(cs), who);
  }

  /** The plan at a target where the balances cancel settles every balance. */
  lemma PlanConservesAt(cs: seq<Contribution>, t: real, who: Option<string>)
    requires DistinctBalances(cs, t)
    requires Tally(Surplus(cs, t), None) + Tally(Debts(cs, t), None) == 0.0
    ensures NetOut(SettlePlan(Surplus(Retain(cs, t), t), Debts(Retain(cs, t), t)), who) == -Tally(Balances(cs, t), who)
  {
    RetainKeepsClasses(cs, t);
    SurplusIsPositive(cs, t);
    DebtsAreNegative(cs, t);
    SettlePlanConserves(Surplus(cs, t), Debts(cs, t), who);
    ClassesTally(cs, t, who);
  }

  /** Every recorded transfer is never negative and runs from an entry below the fair share to one above it. */
  lemma SettlementTransfers(cs: seq<Contribution>)
    ensures forall tx :: tx in Settlement(cs) ==>
      tx.amount >= 0.0 && tx.from in PaidBelow(cs) && tx.to in PaidAbove(cs)
  {
    var t := FairShare(cs);
    var s, d := Surplus(cs, t), Debts(cs, t);
    RetainKeepsClasses(cs, t);
    SurplusIsPositive(cs, t);
    DebtsAreNegative(cs, t);
    SettlePlanTransfers(s, d);
    forall n | n in Names(s) ensures n in PaidAbove(cs) {
      var y :| y in s && y.name == n;
      SurplusMembers(cs, t, y);
      assert Contribution(n, y.amount + t) in cs;
    }
    forall n | n in Names(d) ensures n in PaidBelow(cs) {
      var y :| y in d && y.name == n;
      DebtsMembers(cs, t, y);
      assert Contribution(n, y.amount + t) in cs;
    }
  }

  /** With every name on one line only, nobody pays themself. */
  lemma NoSelfPayment(cs: seq<Contribution>)
    requires UniqueNames(cs)
    ensures forall tx :: tx in Settlement(cs) ==> tx.from != tx.to
  {
    SettlementTransfers(cs);
    forall tx | tx in Settlement(cs) ensures tx.from != tx.to {
      var a :| a in cs && a.amount < FairShare(cs) && a.name == tx.from;
      var b :| b in cs && b.amount > FairShare(cs) && b.name == tx.to;
      var i :| 0 <= i < |cs| && cs[i] == a;
      var j :| 0 <= j < |cs| && cs[j] == b;
      assert i != j;
    }
  }

  /** There are fewer transfers than entries. */
  lemma SettlementLength(cs: seq<Contribution>)
    ensures cs == [] || |Settlement(cs)| < |cs|
  {
    var t := FairShare(cs);
    RetainKeepsClasses(cs, t);
    RetainShrinks(cs, t);
    SettlePlanLength(Surplus(cs, t), Debts(cs, t));
  }

  /**
   * The transfers move at most the total surplus above the fair share,
   * and exactly that when neither list of balances repeats an entry.
   */
  lemma SettlementTotal(cs: seq<Contribution>)
    ensures TotalAmount(Settlement(cs)) <= Tally(Surplus(cs, FairShare(cs)), None)
    ensures DistinctBalances(cs, FairShare(cs)) ==> TotalAmount(Settlement(cs)) == Tally(Surplus(cs, FairShare(cs)), None)
  {
    var t := FairShare(cs);
    RetainKeepsClasses(cs, t);
    SurplusIsPositive(cs, t);
    DebtsAreNegative(cs, t);
    BalancesCancel(cs);
    SettlePlanTotalBound(Surplus(cs, t), Debts(cs, t));
    if DistinctBalances(cs, t) {
      SettlePlanTotalExact(Surplus(cs, t), Debts(cs, t));
    }
  }

  /** With one surplus payer, one transfer per debtor, in order, each paying its whole debt to that payer. */
  lemma SingleCreditorSettlement(cs: seq<Contribution>)
    requires |Surplus(cs, FairShare(cs))| == 1
    ensures var s, d := Surplus(cs, FairShare(cs)), Debts(cs, FairShare(cs));
      |Settlement(cs)| == |d| &&
      forall i :: 0 <= i < |d| ==> Settlement(cs)[i] == Transaction(d[i].name, s[0].name, -d[i].amount)
  {
    var t := FairShare(cs);
    RetainKeepsClasses(cs, t);
    SingleCreditorPlanAt(Surplus(cs, t)[0], Debts(cs, t));
  }

  /** When everybody paid the same, there is nothing to settle. */
  lemma BalancedInputNeedsNoTransfers(cs: seq<Contribution>)
    requires forall i :: 0 <= i < |cs| ==> cs[i].amount == cs[0].amount
    ensures Retain(cs, FairShare(cs)) == []
    ensures Settlement(cs) == []
  {
    if cs != [] {
      EqualAmountsFairShare(cs);
      RetainAllAtTarget(cs, FairShare(cs));
    }
  }
}

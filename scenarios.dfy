/**
 * Worked examples of the whole computation on concrete inputs, checked
 * against the definitions.
 */
module Scenarios {
  import opened Wrappers
  import opened Text
  import opened Ledger
  import opened Input
  import opened Planner
  import opened ExpenseCalculator

  /** `A 100, B 0, C 0`: one surplus payer, so each debtor pays A a third of 100. */
  lemma OneCreditorScenario()
    ensures Settlement([Contribution("A", 100.0), Contribution("B", 0.0), Contribution("C", 0.0)])
      == [Transaction("B", "A", 100.0 / 3.0), Transaction("C", "A", 100.0 / 3.0)]
  {
    var cs := [Contribution("A", 100.0), Contribution("B", 0.0), Contribution("C", 0.0)];
    var t := 100.0 / 3.0;
    OneCreditorShare();
    RetainKeepsClasses(cs, t);
    OneCreditorClasses();
    SingleCreditorPlanAt(Contribution("A", 200.0 / 3.0), [Contribution("B", -100.0 / 3.0), Contribution("C", -100.0 / 3.0)]);
  }

  lemma OneCreditorShare()
    ensures FairShare([Contribution("A", 100.0), Contribution("B", 0.0), Contribution("C", 0.0)]) == 100.0 / 3.0
  {
    var a, b, c := Contribution("A", 100.0), Contribution("B", 0.0), Contribution("C", 0.0);
    var cs := [a, b, c];
    assert cs[..2] == [a, b] && [a, b][..1] == [a] && [a][..0] == [];
    assert Tally([a], None) == 100.0;
    assert Tally([a, b], None) == 100.0;
    assert Tally(cs, None) == 100.0;
  }

  lemma OneCreditorClasses()
    ensures var cs := [Contribution("A", 100.0), Contribution("B", 0.0), Contribution("C", 0.0)];
      Surplus(cs, 100.0 / 3.0) == [Contribution("A", 200.0 / 3.0)] &&
      Debts(cs, 100.0 / 3.0) == [Contribution("B", -100.0 / 3.0), Contribution("C", -100.0 / 3.0)]
  {
    var a, b, c := Contribution("A", 100.0), Contribution("B", 0.0), Contribution("C", 0.0);
    var cs := [a, b, c];
    var t := 100.0 / 3.0;
    assert cs[..2] == [a, b] && [a, b][..1] == [a] && [a][..0] == [];
    var s := [Contribution("A", 200.0 / 3.0)];
    assert Surplus([a], t) == s;
    assert Surplus([a, b], t) == s + [];
    assert Surplus(cs, t) == s + [];
    assert Debts([a], t) == [];
    assert Debts([a, b], t) == [Contribution("B", -100.0 / 3.0)];
  }

  /**
   * `A 50, B 50, C 0, D 100`: A and B paid the fair share 50 and are
   * dropped; D is then the only surplus payer and C pays D 50.
   */
  lemma SettledEntriesDroppedScenario()
    ensures Retain([Contribution("A", 50.0), Contribution("B", 50.0), Contribution("C", 0.0), Contribution("D", 100.0)], 50.0)
      == [Contribution("C", 0.0), Contribution("D", 100.0)]
    ensures Settlement([Contribution("A", 50.0), Contribution("B", 50.0), Contribution("C", 0.0), Contribution("D", 100.0)])
      == [Transaction("C", "D", 50.0)]
  {
    var a, b, c, d := Contribution("A", 50.0), Contribution("B", 50.0), Contribution("C", 0.0), Contribution("D", 100.0);
    var cs := [a, b, c, d];
    assert cs[..3] == [a, b, c] && [a, b, c][..2] == [a, b] && [a, b][..1] == [a] && [a][..0] == [];
    assert Tally([a], None) == 50.0;
    assert Tally([a, b], None) == 100.0;
    assert Tally([a, b, c], None) == 100.0;
    assert Tally(cs, None) == 200.0;
    var t := FairShare(cs);
    assert t == 50.0;
    assert Retain([a], t) == [] + [];
    assert Retain([a, b], t) == [] + [];
    assert Retain([a, b, c], t) == [] + [c];
    assert Retain(cs, t) == [c] + [d];
    RetainKeepsClasses(cs, t);
    assert Surplus([a, b, c], t) == [] + [];
    assert Surplus(cs, t) == [] + [Contribution("D", 50.0)];
    assert Debts([a, b], t) == [] + [];
    assert Debts([a, b, c], t) == [] + [Contribution("C", -50.0)];
    assert Debts(cs, t) == [Contribution("C", -50.0)] + [];
    SingleCreditorPlanAt(Surplus(cs, t)[0], Debts(cs, t));
  }

  /**
   * `A 10, A 10, B 0, C 20`: the two A lines are identical but sit at the
   * fair share 10, so both are dropped and no balance repeats. C is the only
   * surplus payer, B pays C 10, and conservation applies.
   */
  lemma RepeatedSettledLinesScenario()
    ensures var cs := [Contribution("A", 10.0), Contribution("A", 10.0), Contribution("B", 0.0), Contribution("C", 20.0)];
      !NoDuplicates(cs) && DistinctBalances(cs, FairShare(cs)) &&
      Settlement(cs) == [Transaction("B", "C", 10.0)]
  {
    var a, b, c := Contribution("A", 10.0), Contribution("B", 0.0), Contribution("C", 20.0);
    var cs := [a, a, b, c];
    assert cs[0] == cs[1];
    assert cs[..3] == [a, a, b] && [a, a, b][..2] == [a, a] && [a, a][..1] == [a] && [a][..0] == [];
    assert Tally([a], None) == 10.0;
    assert Tally([a, a], None) == 20.0;
    assert Tally([a, a, b], None) == 20.0;
    assert Tally(cs, None) == 40.0;
    var t := FairShare(cs);
    assert t == 10.0;
    RetainKeepsClasses(cs, t);
    assert Surplus([a], t) == [] + [];
    assert Surplus([a, a], t) == [] + [];
    assert Surplus([a, a, b], t) == [] + [];
    assert Surplus(cs, t) == [] + [Contribution("C", 10.0)];
    assert Debts([a], t) == [] + [];
    assert Debts([a, a], t) == [] + [];
    assert Debts([a, a, b], t) == [] + [Contribution("B", -10.0)];
    assert Debts(cs, t) == [Contribution("B", -10.0)] + [];
    SingleCreditorPlanAt(Surplus(cs, t)[0], Debts(cs, t));
  }

  /**
   * `A 90, B 60, C 30, D 0` (fair share 45): the exact-match pass pairs A
   * with D first, then B with C, and nothing is left for the two-cursor pass.
   */
  lemma ExactMatchScenario()
    ensures Settlement([Contribution("A", 90.0), Contribution("B", 60.0), Contribution("C", 30.0), Contribution("D", 0.0)])
      == [Transaction("D", "A", 45.0), Transaction("C", "B", 15.0)]
  {
    ExactMatchClasses();
    ExactMatchPlan();
  }

  lemma ExactMatchClasses()
    ensures var cs := [Contribution("A", 90.0), Contribution("B", 60.0), Contribution("C", 30.0), Contribution("D", 0.0)];
      FairShare(cs) == 45.0 && Retain(cs, 45.0) == cs &&
      Surplus(cs, 45.0) == [Contribution("A", 45.0), Contribution("B", 15.0)] &&
      Debts(cs, 45.0) == [Contribution("C", -15.0), Contribution("D", -45.0)]
  {
    ExactMatchShare();
    ExactMatchRetain();
    ExactMatchSurplus();
    ExactMatchDebts();
  }

  lemma ExactMatchShare()
    ensures FairShare([Contribution("A", 90.0), Contribution("B", 60.0), Contribution("C", 30.0), Contribution("D", 0.0)]) == 45.0
  {
    var a, b, c, d := Contribution("A", 90.0), Contribution("B", 60.0), Contribution("C", 30.0), Contribution("D", 0.0);
    var cs := [a, b, c, d];
    assert cs[..3] == [a, b, c] && [a, b, c][..2] == [a, b] && [a, b][..1] == [a] && [a][..0] == [];
    assert Tally([a], None) == 90.0;
    assert Tally([a, b], None) == 150.0;
    assert Tally([a, b, c], None) == 180.0;
    assert Tally(cs, None) == 180.0;
  }

  lemma ExactMatchRetain()
    ensures var cs := [Contribution("A", 90.0), Contribution("B", 60.0), Contribution("C", 30.0), Contribution("D", 0.0)];
      Retain(cs, 45.0) == cs
  {
    var a, b, c, d := Contribution("A", 90.0), Contribution("B", 60.0), Contribution("C", 30.0), Contribution("D", 0.0);
    var cs := [a, b, c, d];
    assert cs[..3] == [a, b, c] && [a, b, c][..2] == [a, b] && [a, b][..1] == [a] && [a][..0] == [];
    assert Retain([a], 45.0) == [a];
    assert Retain([a, b], 45.0) == [a, b];
    assert Retain([a, b, c], 45.0) == [a, b, c];
  }

  lemma ExactMatchSurplus()
    ensures var cs := [Contribution("A", 90.0), Contribution("B", 60.0), Contribution("C", 30.0), Contribution("D", 0.0)];
      Surplus(cs, 45.0) == [Contribution("A", 45.0), Contribution("B", 15.0)]
  {
    var a, b, c, d := Contribution("A", 90.0), Contribution("B", 60.0), Contribution("C", 30.0), Contribution("D", 0.0);
    var cs := [a, b, c, d];
    assert cs[..3] == [a, b, c] && [a, b, c][..2] == [a, b] && [a, b][..1] == [a] && [a][..0] == [];
    var a', b' := Contribution("A", 45.0), Contribution("B", 15.0);
    assert Surplus([a], 45.0) == [a'];
    assert Surplus([a, b], 45.0) == [a', b'];
    assert Surplus([a, b, c], 45.0) == [a', b'] + [];
    assert Surplus(cs, 45.0) == [a', b'] + [];
  }

  lemma ExactMatchDebts()
    ensures var cs := [Contribution("A", 90.0), Contribution("B", 60.0), Contribution("C", 30.0), Contribution("D", 0.0)];
      Debts(cs, 45.0) == [Contribution("C", -15.0), Contribution("D", -45.0)]
  {
    var a, b, c, d := Contribution("A", 90.0), Contribution("B", 60.0), Contribution("C", 30.0), Contribution("D", 0.0);
    var cs := [a, b, c, d];
    assert cs[..3] == [a, b, c] && [a, b, c][..2] == [a, b] && [a, b][..1] == [a] && [a][..0] == [];
    assert Debts([a], 45.0) == [] + [];
    assert Debts([a, b], 45.0) == [] + [];
    assert Debts([a, b, c], 45.0) == [] + [Contribution("C", -15.0)];
  }

  lemma ExactMatchPlan()
    ensures SettlePlan([Contribution("A", 45.0), Contribution("B", 15.0)], [Contribution("C", -15.0), Contribution("D", -45.0)])
      == [Transaction("D", "A", 45.0), Transaction("C", "B", 15.0)]
  {
    var a', b' := Contribution("A", 45.0), Contribution("B", 15.0);
    var c', d' := Contribution("C", -15.0), Contribution("D", -45.0);
    var ds := [c', d'];
    assert ds[..1] == [c'] && [a', b'][..1] == [a'];
    var m1 := MatchState([Transaction("D", "A", 45.0)], {a'}, {d'});
    assert ScanDebts(a', [c'], MatchState([], {}, {})) == MatchState([], {}, {});
    assert MatchAll([a'], ds) == m1;
    var m2 := MatchState([Transaction("D", "A", 45.0), Transaction("C", "B", 15.0)], {a', b'}, {d', c'});
    assert ScanDebts(b', [c'], m1) == m2;
    assert MatchAll([a', b'], ds) == m2;
    assert [a'][..0] == [];
    assert Unmatched([a'], m2.surplusSet) == [];
    assert Unmatched([a', b'], m2.surplusSet) == [];
    assert Unmatched([c'], m2.debtSet) == [];
    assert Unmatched(ds, m2.debtSet) == [];
    assert m2.txs + [] == m2.txs;
  }

  /**
   * `A 30, A 30, B 0` (fair share 20): the two A lines give the same
   * balance, but no debtor matches it exactly, so the two-cursor pass pays
   * each of them and every name still ends at the fair share.
   */
  lemma RepeatedBalanceScenario(who: Option<string>)
    ensures var cs := [Contribution("A", 30.0), Contribution("A", 30.0), Contribution("B", 0.0)];
      !DistinctBalances(cs, FairShare(cs)) &&
      Settlement(cs) == [Transaction("B", "A", 10.0), Transaction("B", "A", 10.0)] &&
      NetOut(Settlement(cs), who) == -Tally(Balances(cs, FairShare(cs)), who)
  {
    RepeatedBalanceClasses();
    RepeatedBalancePlan();
    RepeatedBalanceConserves(who);
  }

  lemma RepeatedBalanceClasses()
    ensures var cs := [Contribution("A", 30.0), Contribution("A", 30.0), Contribution("B", 0.0)];
      FairShare(cs) == 20.0 && Retain(cs, 20.0) == cs &&
      Surplus(cs, 20.0) == [Contribution("A", 10.0), Contribution("A", 10.0)] &&
      Debts(cs, 20.0) == [Contribution("B", -20.0)] &&
      Balances(cs, 20.0) == [Contribution("A", 10.0), Contribution("A", 10.0), Contribution("B", -20.0)]
  {
    RepeatedBalanceShare();
    RepeatedBalanceSurplus();
    RepeatedBalanceDebts();
    RepeatedBalanceBalances();
  }

  lemma RepeatedBalanceShare()
    ensures var cs := [Contribution("A", 30.0), Contribution("A", 30.0), Contribution("B", 0.0)];
      FairShare(cs) == 20.0 && Retain(cs, 20.0) == cs
  {
    var a, b := Contribution("A", 30.0), Contribution("B", 0.0);
    var cs := [a, a, b];
    assert cs[..2] == [a, a] && [a, a][..1] == [a] && [a][..0] == [];
    assert Tally([a], None) == 30.0;
    assert Tally([a, a], None) == 60.0;
    assert Tally(cs, None) == 60.0;
    assert Retain([a], 20.0) == [a];
    assert Retain([a, a], 20.0) == [a, a];
  }

  lemma RepeatedBalanceSurplus()
    ensures var cs := [Contribution("A", 30.0), Contribution("A", 30.0), Contribution("B", 0.0)];
      Surplus(cs, 20.0) == [Contribution("A", 10.0), Contribution("A", 10.0)]
  {
    var a, b := Contribution("A", 30.0), Contribution("B", 0.0);
    var cs := [a, a, b];
    assert cs[..2] == [a, a] && [a, a][..1] == [a] && [a][..0] == [];
    var a' := Contribution("A", 10.0);
    assert Surplus([a], 20.0) == [a'];
    assert Surplus([a, a], 20.0) == [a', a'];
    assert Surplus(cs, 20.0) == [a', a'] + [];
  }

  lemma RepeatedBalanceDebts()
    ensures var cs := [Contribution("A", 30.0), Contribution("A", 30.0), Contribution("B", 0.0)];
      Debts(cs, 20.0) == [Contribution("B", -20.0)]
  {
    var a, b := Contribution("A", 30.0), Contribution("B", 0.0);
    var cs := [a, a, b];
    assert cs[..2] == [a, a] && [a, a][..1] == [a] && [a][..0] == [];
    assert Debts([a], 20.0) == [] + [];
    assert Debts([a, a], 20.0) == [] + [];
    assert Debts(cs, 20.0) == [] + [Contribution("B", -20.0)];
  }

  lemma RepeatedBalanceBalances()
    ensures var cs := [Contribution("A", 30.0), Contribution("A", 30.0), Contribution("B", 0.0)];
      Balances(cs, 20.0) == [Contribution("A", 10.0), Contribution("A", 10.0), Contribution("B", -20.0)]
  {
    var a, b := Contribution("A", 30.0), Contribution("B", 0.0);
    var cs := [a, a, b];
    assert cs[..2] == [a, a] && [a, a][..1] == [a] && [a][..0] == [];
    var a' := Contribution("A", 10.0);
    assert Balances([a], 20.0) == [a'];
    assert Balances([a, a], 20.0) == [a', a'];
  }

  lemma RepeatedBalancePlan()
    ensures SettlePlan([Contribution("A", 10.0), Contribution("A", 10.0)], [Contribution("B", -20.0)])
      == [Transaction("B", "A", 10.0), Transaction("B", "A", 10.0)]
  {
    var a', b' := Contribution("A", 10.0), Contribution("B", -20.0);
    var cs, ds := [a', a'], [b'];
    var none := MatchState([], {}, {});
    assert cs[..1] == [a'] && [a'][..0] == [] && ds[..0] == [];
    assert ScanDebts(a', ds, none) == none;
    assert MatchAll([a'], ds) == none;
    assert MatchAll(cs, ds) == none;
    assert Unmatched([a'], {}) == [a'];
    assert Unmatched(cs, {}) == cs;
    assert Unmatched(ds, {}) == ds;
    assert SortByBalance([a'], true) == [a'];
    assert SortByBalance(cs, true) == cs;
    assert SortByBalance(ds, false) == ds;
    var b1 := b'.Update(10.0);
    assert Settle(cs, ds) == [Transaction("B", "A", 10.0)] + Settle([a'], [b1]);
    assert Settle([a'], [b1]) == [Transaction("B", "A", 10.0)] + Settle([a'.Update(-10.0)], []);
  }

  lemma RepeatedBalanceConserves(who: Option<string>)
    ensures NetOut([Transaction("B", "A", 10.0), Transaction("B", "A", 10.0)], who)
      == -Tally([Contribution("A", 10.0), Contribution("A", 10.0), Contribution("B", -20.0)], who)
  {
    var tx := Transaction("B", "A", 10.0);
    assert [tx, tx][..1] == [tx] && [tx][..0] == [];
    var a', b' := Contribution("A", 10.0), Contribution("B", -20.0);
    assert [a', a', b'][..2] == [a', a'] && [a', a'][..1] == [a'] && [a'][..0] == [];
    assert NetOut([tx], who) == Outflow(tx, who);
    assert NetOut([tx, tx], who) == NetOut([tx], who) + Outflow(tx, who);
    assert Tally([a'], who) == Share(a', who);
    assert Tally([a', a'], who) == Tally([a'], who) + Share(a', who);
    assert Tally([a', a', b'], who) == Tally([a', a'], who) + Share(b', who);
  }

  /**
   * `A 20, A 20, B 0, B 0`: the two A lines have the same balance and share
   * one mark, so only one transfer is recorded and B pays 10 where its two
   * lines owe 20.
   */
  lemma DuplicateEntriesScenario()
    ensures Settlement([Contribution("A", 20.0), Contribution("A", 20.0), Contribution("B", 0.0), Contribution("B", 0.0)])
      == [Transaction("B", "A", 10.0)]
    ensures Tally(Balances([Contribution("A", 20.0), Contribution("A", 20.0), Contribution("B", 0.0), Contribution("B", 0.0)], 10.0), Some("B"))
      == -20.0
  {
    DuplicateEntriesClasses();
    DuplicateShortfall();
    DuplicateEntriesBalances();
  }

  lemma DuplicateEntriesClasses()
    ensures var cs := [Contribution("A", 20.0), Contribution("A", 20.0), Contribution("B", 0.0), Contribution("B", 0.0)];
      FairShare(cs) == 10.0 && Retain(cs, 10.0) == cs &&
      Surplus(cs, 10.0) == [Contribution("A", 10.0), Contribution("A", 10.0)] &&
      Debts(cs, 10.0) == [Contribution("B", -10.0), Contribution("B", -10.0)]
  {
    DuplicateEntriesShare();
    DuplicateEntriesRetain();
    DuplicateEntriesSurplus();
    DuplicateEntriesDebts();
  }

  lemma DuplicateEntriesShare()
    ensures FairShare([Contribution("A", 20.0), Contribution("A", 20.0), Contribution("B", 0.0), Contribution("B", 0.0)]) == 10.0
  {
    var a, b := Contribution("A", 20.0), Contribution("B", 0.0);
    var cs := [a, a, b, b];
    assert cs[..3] == [a, a, b] && [a, a, b][..2] == [a, a] && [a, a][..1] == [a] && [a][..0] == [];
    assert Tally([a], None) == 20.0;
    assert Tally([a, a], None) == 40.0;
    assert Tally([a, a, b], None) == 40.0;
    assert Tally(cs, None) == 40.0;
  }

  lemma DuplicateEntriesRetain()
    ensures var cs := [Contribution("A", 20.0), Contribution("A", 20.0), Contribution("B", 0.0), Contribution("B", 0.0)];
      Retain(cs, 10.0) == cs
  {
    var a, b := Contribution("A", 20.0), Contribution("B", 0.0);
    var cs := [a, a, b, b];
    assert cs[..3] == [a, a, b] && [a, a, b][..2] == [a, a] && [a, a][..1] == [a] && [a][..0] == [];
    assert Retain([a], 10.0) == [a];
    assert Retain([a, a], 10.0) == [a, a];
    assert Retain([a, a, b], 10.0) == [a, a, b];
  }

  lemma DuplicateEntriesSurplus()
    ensures var cs := [Contribution("A", 20.0), Contribution("A", 20.0), Contribution("B", 0.0), Contribution("B", 0.0)];
      Surplus(cs, 10.0) == [Contribution("A", 10.0), Contribution("A", 10.0)]
  {
    var a, b := Contribution("A", 20.0), Contribution("B", 0.0);
    var cs := [a, a, b, b];
    assert cs[..3] == [a, a, b] && [a, a, b][..2] == [a, a] && [a, a][..1] == [a] && [a][..0] == [];
    var a' := Contribution("A", 10.0);
    assert Surplus([a], 10.0) == [a'];
    assert Surplus([a, a], 10.0) == [a', a'];
    assert Surplus([a, a, b], 10.0) == [a', a'] + [];
    assert Surplus(cs, 10.0) == [a', a'] + [];
  }

  lemma DuplicateEntriesDebts()
    ensures var cs := [Contribution("A", 20.0), Contribution("A", 20.0), Contribution("B", 0.0), Contribution("B", 0.0)];
      Debts(cs, 10.0) == [Contribution("B", -10.0), Contribution("B", -10.0)]
  {
    var a, b := Contribution("A", 20.0), Contribution("B", 0.0);
    var cs := [a, a, b, b];
    assert cs[..3] == [a, a, b] && [a, a, b][..2] == [a, a] && [a, a][..1] == [a] && [a][..0] == [];
    assert Debts([a], 10.0) == [] + [];
    assert Debts([a, a], 10.0) == [] + [];
    assert Debts([a, a, b], 10.0) == [] + [Contribution("B", -10.0)];
  }

  lemma DuplicateEntriesBalances()
    ensures Tally(Balances([Contribution("A", 20.0), Contribution("A", 20.0), Contribution("B", 0.0), Contribution("B", 0.0)], 10.0), Some("B"))
      == -20.0
  {
    DuplicateEntriesBalanceList();
    DuplicateEntriesOwedByB();
  }

  lemma DuplicateEntriesBalanceList()
    ensures Balances([Contribution("A", 20.0), Contribution("A", 20.0), Contribution("B", 0.0), Contribution("B", 0.0)], 10.0)
      == [Contribution("A", 10.0), Contribution("A", 10.0), Contribution("B", -10.0), Contribution("B", -10.0)]
  {
    var a, b := Contribution("A", 20.0), Contribution("B", 0.0);
    var cs := [a, a, b, b];
    assert cs[..3] == [a, a, b] && [a, a, b][..2] == [a, a] && [a, a][..1] == [a] && [a][..0] == [];
    var a', b' := Contribution("A", 10.0), Contribution("B", -10.0);
    assert Balances([a], 10.0) == [a'];
    assert Balances([a, a], 10.0) == [a', a'];
    assert Balances([a, a, b], 10.0) == [a', a', b'];
  }

  lemma DuplicateEntriesOwedByB()
    ensures Tally([Contribution("A", 10.0), Contribution("A", 10.0), Contribution("B", -10.0), Contribution("B", -10.0)], Some("B"))
      == -20.0
  {
    var a', b' := Contribution("A", 10.0), Contribution("B", -10.0);
    var bs := [a', a', b', b'];
    assert bs[..3] == [a', a', b'] && [a', a', b'][..2] == [a', a'] && [a', a'][..1] == [a'] && [a'][..0] == [];
    assert Tally([a'], Some("B")) == 0.0;
    assert Tally([a', a'], Some("B")) == 0.0;
    assert Tally([a', a', b'], Some("B")) == -10.0;
  }

  lemma TokensOfPair(name: string, token: string)
    requires IsWord(name) && IsWord(token)
    ensures Tokens(name + " " + token) == [name, token]
  {
    TokensUnwords([name, token]);
    assert Unwords([name, token]) == name + " " + token;
  }

  /**
   * `A 10` then `B`, in general: a good line and then a line with one
   * token; reading stops at the second line with the first entry kept.
   */
  lemma IncompleteLineScenario(name: string, amount: nat, lone: string)
    requires IsWord(name) && IsWord(lone)
    ensures ParseInput(EntryLine(name, amount) + "\n" + lone) ==
      Failed([Contribution(name, amount as real)], 1, IncompleteData)
  {
    var first := EntryLine(name, amount);
    EntryLineReads(name, amount);
    TokensOfWord(lone);
    LinesOfTwo(first, lone);
    TwoLinesRead(first, lone);
  }

  /** Two lines, the first good and the second bad: the reading fails at the second. */
  lemma TwoLinesRead(first: string, second: string)
    requires ParseLine(first).Ok? && ParseLine(second).Err?
    ensures ParseLines([first, second]) == Failed([ParseLine(first).value], 1, ParseLine(second).error)
  {
    var lines := [first, second];
    assert ParseLines(lines[..0]) == Parsed([]);
    ParseLinesStep(lines, 0);
    assert lines[..1] == [first];
    ParseLinesStep(lines, 1);
    assert lines[..2] == lines;
  }

  /** A line, a line feed and a final unterminated line are those two lines. */
  lemma LinesOfTwo(first: string, second: string)
    requires IsLine(first) && IsWord(second)
    ensures Lines(first + "\n" + second) == [first, second]
  {
    var s := first + "\n" + second;
    FirstIndexInPrefix(s, |first|, {'\n'});
    assert s[..|first|] == first;
    assert s[|first| + 1..] == second;
    LinesAt(s, |first|);
    NoStopsFound(second, {'\n'});
  }

  /**
   * `A ten`, in general: a name and a token that is not a number; reading
   * stops at the first line with nothing kept.
   */
  lemma NotANumberScenario(name: string, token: string)
    requires IsWord(name) && IsWord(token) && ParseNumber(token) == None
    ensures ParseInput(name + " " + token) == Failed([], 0, NotANumber)
  {
    TokensOfPair(name, token);
    assert ParseLine(name + " " + token) == Err(NotANumber);
    PairHasNoLineFeed(name, token);
    OneLineRead(name + " " + token);
  }

  lemma PairHasNoLineFeed(name: string, token: string)
    requires IsWord(name) && IsWord(token)
    ensures '\n' !in name + " " + token
  {
    var line := name + " " + token;
    forall i | 0 <= i < |line| ensures line[i] != '\n' {
      if i < |name| {
        assert line[i] == name[i];
      } else if i > |name| {
        assert line[i] == token[i - |name| - 1];
      }
    }
  }

  /** A text without line feeds is one line; when that line is bad the reading fails at once. */
  lemma OneLineRead(line: string)
    requires line != [] && '\n' !in line && ParseLine(line).Err?
    ensures ParseInput(line) == Failed([], 0, ParseLine(line).error)
  {
    assert FirstIndexIn(line, {'\n'}) == |line|;
    var lines := [line];
    assert ParseLines(lines[..0]) == Parsed([]);
    ParseLinesStep(lines, 0);
    assert lines[..1] == lines;
  }

  /** The token `ten` of `A ten` is not a number. */
  lemma TenIsNotANumber()
    ensures ParseNumber("ten") == None
  {
    assert FirstIndexIn("ten", {'e', 'E'}) == 1;
    assert ("ten")[..1] == "t";
    assert FirstIndexIn("t", {'.'}) == 1;
    assert !AllDigits("t");
    assert ParseMantissa("t") == None;
  }
}

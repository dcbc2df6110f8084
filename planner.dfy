/**
 * The settlement planner of `find_contributions` (expense_calculator.rs
 * lines 112-204) on the two balance lists: the single-creditor shortcut,
 * the exact-match pass with its value-keyed "already matched" sets, the
 * filtering and sorting of what is left, and the two-cursor pass.
 * Every transfer is `Transaction(debtor, creditor, amount)`.
 */
module Planner {
  import opened Wrappers
  import opened Ledger

  // ---------------------------------------------------------------------
  // One surplus payer (lines 115-123)
  // ---------------------------------------------------------------------

  /** Every debtor, in order, pays the one creditor its whole debt. */
  function SingleCreditorPlan(c: Contribution, ds: seq<Contribution>): seq<Transaction>
    decreases |ds|
  {
    if ds == [] then []
    else SingleCreditorPlan(c, ds[..|ds| - 1]) + [Transaction(ds[|ds| - 1].name, c.name, -ds[|ds| - 1].amount)]
  }

  /** One transfer per debtor, in debtor order, from that debtor to the creditor, of minus its balance. */
  lemma {:induction false} SingleCreditorPlanAt(c: Contribution, ds: seq<Contribution>)
    ensures |SingleCreditorPlan(c, ds)| == |ds|
    ensures forall i :: 0 <= i < |ds| ==>
      SingleCreditorPlan(c, ds)[i] == Transaction(ds[i].name, c.name, -ds[i].amount)
    decreases |ds|
  {
    if ds != [] {
      SingleCreditorPlanAt(c, ds[..|ds| - 1]);
    }
  }

  /** What the single-creditor plan moves: each debtor pays its debt and the creditor receives them all. */
  lemma {:induction false} SingleCreditorNetOut(c: Contribution, ds: seq<Contribution>, who: Option<string>)
    ensures NetOut(SingleCreditorPlan(c, ds), who) ==
      -Tally(ds, who) + (if Covers(who, c.name) then Tally(ds, None) else 0.0)
    decreases |ds|
  {
    if ds != [] {
      var init := ds[..|ds| - 1];
      SingleCreditorNetOut(c, init, who);
      assert SingleCreditorPlan(c, ds)[..|SingleCreditorPlan(c, ds)| - 1] == SingleCreditorPlan(c, init);
    }
  }

  /** When the creditor's surplus is exactly the debtors' total debt, everybody ends at the fair share. */
  lemma SingleCreditorConserves(c: Contribution, ds: seq<Contribution>, who: Option<string>)
    requires c.amount + Tally(ds, None) == 0.0
    ensures NetOut(SingleCreditorPlan(c, ds), who) == -Tally([c] + ds, who)
  {
    SingleCreditorNetOut(c, ds, who);
    TallyCons(c, ds, who);
  }

  /** The single-creditor transfers run from a debtor to the creditor and are strictly positive. */
  lemma SingleCreditorTransfers(c: Contribution, ds: seq<Contribution>)
    requires AllNegative(ds)
    ensures forall tx :: tx in SingleCreditorPlan(c, ds) ==>
      tx.amount > 0.0 && tx.from in Names(ds) && tx.to == c.name
  {
    SingleCreditorPlanAt(c, ds);
    var plan := SingleCreditorPlan(c, ds);
    forall tx | tx in plan ensures tx.amount > 0.0 && tx.from in Names(ds) && tx.to == c.name {
      var i :| 0 <= i < |plan| && plan[i] == tx;
      assert ds[i] in ds;
    }
  }

  /** The single-creditor plan pays out exactly the debtors' total debt. */
  lemma {:induction false} SingleCreditorTotal(c: Contribution, ds: seq<Contribution>)
    ensures TotalAmount(SingleCreditorPlan(c, ds)) == -Tally(ds, None)
    decreases |ds|
  {
    if ds != [] {
      var init := ds[..|ds| - 1];
      SingleCreditorTotal(c, init);
      assert SingleCreditorPlan(c, ds)[..|SingleCreditorPlan(c, ds)| - 1] == SingleCreditorPlan(c, init);
    }
  }

  // ---------------------------------------------------------------------
  // Exact-match pass (lines 125-150)
  // ---------------------------------------------------------------------

  /**
   * The pass's state: the transfers so far and the `surplus_set` and
   * `debt_set` of matched entries. The sets hold values, so two entries
   * with the same name and balance are one member.
   */
  datatype MatchState = MatchState(txs: seq<Transaction>, surplusSet: set<Contribution>, debtSet: set<Contribution>)

  /** The guard of line 135-137: balances that cancel, neither already matched. */
  predicate Fits(c: Contribution, d: Contribution, st: MatchState) {
    c.amount == -d.amount && c !in st.surplusSet && d !in st.debtSet
  }

  /** One iteration of the inner loop. */
  function MatchStep(c: Contribution, d: Contribution, st: MatchState): MatchState {
    if Fits(c, d, st) then
      MatchState(st.txs + [Transaction(d.name, c.name, c.amount)], st.surplusSet + {c}, st.debtSet + {d})
    else st
  }

  /** The inner loop: the creditor `c` against every debtor in order. */
  function ScanDebts(c: Contribution, ds: seq<Contribution>, st: MatchState): MatchState
    decreases |ds|
  {
    if ds == [] then st else MatchStep(c, ds[|ds| - 1], ScanDebts(c, ds[..|ds| - 1], st))
  }

  /** The nested loops: every creditor in order against every debtor in order. */
  function MatchAll(cs: seq<Contribution>, ds: seq<Contribution>): MatchState
    decreases |cs|
  {
    if cs == [] then MatchState([], {}, {}) else ScanDebts(cs[|cs| - 1], ds, MatchAll(cs[..|cs| - 1], ds))
  }

  /** `tx` is the transfer of an exact pair: a debtor of `ds` pays a creditor of `cs` the creditor's whole surplus. */
  predicate ExactPair(tx: Transaction, cs: seq<Contribution>, ds: seq<Contribution>) {
    exists c, d :: c in cs && d in ds && c.amount == -d.amount && tx == Transaction(d.name, c.name, c.amount)
  }

  /**
   * What the pass keeps: the matched entries come from the lists, every
   * transfer pays off one exact pair, and each transfer marks one creditor
   * and one debtor.
   */
  predicate MatchSound(st: MatchState, cs: seq<Contribution>, ds: seq<Contribution>) {
    (forall x :: x in st.surplusSet ==> x in cs) &&
    (forall x :: x in st.debtSet ==> x in ds) &&
    (forall tx :: tx in st.txs ==> ExactPair(tx, cs, ds)) &&
    |st.txs| == |st.surplusSet| == |st.debtSet|
  }

  lemma MatchStepSound(c: Contribution, d: Contribution, st: MatchState, cs: seq<Contribution>, ds: seq<Contribution>)
    requires c in cs && d in ds && MatchSound(st, cs, ds)
    ensures MatchSound(MatchStep(c, d, st), cs, ds)
  {
    if Fits(c, d, st) {
      var tx := Transaction(d.name, c.name, c.amount);
      assert ExactPair(tx, cs, ds);
    }
  }

  lemma {:induction false} ScanDebtsSound(c: Contribution, part: seq<Contribution>, st: MatchState, cs: seq<Contribution>, ds: seq<Contribution>)
    requires c in cs && (forall e :: e in part ==> e in ds) && MatchSound(st, cs, ds)
    ensures MatchSound(ScanDebts(c, part, st), cs, ds)
    decreases |part|
  {
    if part != [] {
      var init := part[..|part| - 1];
      ScanDebtsSound(c, init, st, cs, ds);
      MatchStepSound(c, part[|part| - 1], ScanDebts(c, init, st), cs, ds);
    }
  }

  lemma {:induction false} MatchPrefixSound(part: seq<Contribution>, cs: seq<Contribution>, ds: seq<Contribution>)
    requires forall e :: e in part ==> e in cs
    ensures MatchSound(MatchAll(part, ds), cs, ds)
    decreases |part|
  {
    if part != [] {
      var init := part[..|part| - 1];
      MatchPrefixSound(init, cs, ds);
      ScanDebtsSound(part[|part| - 1], ds, MatchAll(init, ds), cs, ds);
    }
  }

  /**
   * Every transfer of the pass settles an exact pair of the two lists in
   * one payment, and each creditor and each debtor is matched at most once.
   */
  lemma MatchAllSound(cs: seq<Contribution>, ds: seq<Contribution>)
    ensures MatchSound(MatchAll(cs, ds), cs, ds)
  {
    MatchPrefixSound(cs, cs, ds);
  }

  /** Scanning only adds marks; afterwards `c` is matched or no unmatched debtor cancels it. */
  lemma {:induction false} ScanDebtsExhausts(c: Contribution, part: seq<Contribution>, st: MatchState)
    ensures st.surplusSet <= ScanDebts(c, part, st).surplusSet
    ensures st.debtSet <= ScanDebts(c, part, st).debtSet
    ensures c in ScanDebts(c, part, st).surplusSet ||
      forall d :: d in part ==> d in ScanDebts(c, part, st).debtSet || c.amount != -d.amount
    decreases |part|
  {
    if part != [] {
      var init := part[..|part| - 1];
      ScanDebtsExhausts(c, init, st);
    }
  }

  lemma {:induction false} MatchPrefixExhausts(part: seq<Contribution>, ds: seq<Contribution>)
    ensures forall c :: c in part ==>
      c in MatchAll(part, ds).surplusSet ||
      forall d :: d in ds ==> d in MatchAll(part, ds).debtSet || c.amount != -d.amount
    decreases |part|
  {
    if part != [] {
      var init := part[..|part| - 1];
      MatchPrefixExhausts(init, ds);
      ScanDebtsExhausts(part[|part| - 1], ds, MatchAll(init, ds));
    }
  }

  /**
   * First fit: the inner loop pairs the creditor `c` with the first debtor
   * that fits it, and with no other.
   */
  lemma {:induction false} ScanDebtsFirstFit(c: Contribution, ds: seq<Contribution>, st: MatchState, j: nat)
    requires j < |ds| && Fits(c, ds[j], st)
    requires forall k :: 0 <= k < j ==> !Fits(c, ds[k], st)
    ensures ScanDebts(c, ds, st) ==
      MatchState(st.txs + [Transaction(ds[j].name, c.name, c.amount)], st.surplusSet + {c}, st.debtSet + {ds[j]})
    decreases |ds|
  {
    var init := ds[..|ds| - 1];
    if j == |ds| - 1 {
      ScanDebtsNoFit(c, init, st);
    } else {
      ScanDebtsFirstFit(c, init, st, j);
    }
  }

  /** When no debtor fits `c`, for instance because `c` is already matched, the inner loop changes nothing. */
  lemma {:induction false} ScanDebtsNoFit(c: Contribution, ds: seq<Contribution>, st: MatchState)
    requires forall k :: 0 <= k < |ds| ==> !Fits(c, ds[k], st)
    ensures ScanDebts(c, ds, st) == st
    decreases |ds|
  {
    if ds != [] {
      ScanDebtsNoFit(c, ds[..|ds| - 1], st);
    }
  }

  // ---------------------------------------------------------------------
  // Dropping the matched entries (lines 152-165)
  // ---------------------------------------------------------------------

  /** The entries whose value is in `marks`, in order. */
  function Matched(es: seq<Contribution>, marks: set<Contribution>): seq<Contribution>
    decreases |es|
  {
    if es == [] then []
    else Matched(es[..|es| - 1], marks) + if es[|es| - 1] in marks then [es[|es| - 1]] else []
  }

  /** The entries whose value is not in `marks`, in order: the filtered lists. */
  function Unmatched(es: seq<Contribution>, marks: set<Contribution>): seq<Contribution>
    decreases |es|
  {
    if es == [] then []
    else Unmatched(es[..|es| - 1], marks) + if es[|es| - 1] !in marks then [es[|es| - 1]] else []
  }

  /** An entry survives the filter exactly when it is in the list and not marked. */
  lemma {:induction false} UnmatchedMembers(es: seq<Contribution>, marks: set<Contribution>, e: Contribution)
    ensures e in Unmatched(es, marks) <==> e in es && e !in marks
    decreases |es|
  {
    if es != [] {
      var init := es[..|es| - 1];
      assert es == init + [es[|es| - 1]];
      UnmatchedMembers(init, marks, e);
    }
  }

  /** Every entry is either matched or kept: the amounts and the count split between the two. */
  lemma {:induction false} MatchedSplit(es: seq<Contribution>, marks: set<Contribution>, who: Option<string>)
    ensures Tally(Matched(es, marks), who) + Tally(Unmatched(es, marks), who) == Tally(es, who)
    ensures |Matched(es, marks)| + |Unmatched(es, marks)| == |es|
    decreases |es|
  {
    if es != [] {
      var init, last := es[..|es| - 1], es[|es| - 1];
      MatchedSplit(init, marks, who);
      var m, u := Matched(init, marks), Unmatched(init, marks);
      TallyOne(last, who);
      if last in marks {
        TallyConcat(m, [last], who);
        assert Unmatched(es, marks) == u + [] == u;
      } else {
        TallyConcat(u, [last], who);
        assert Matched(es, marks) == m + [] == m;
      }
    }
  }

  lemma {:induction false} MatchedNone(es: seq<Contribution>)
    ensures Matched(es, {}) == []
    decreases |es|
  {
    if es != [] {
      MatchedNone(es[..|es| - 1]);
    }
  }

  lemma {:induction false} MatchedIgnores(es: seq<Contribution>, marks: set<Contribution>, x: Contribution)
    requires x !in es
    ensures Matched(es, marks + {x}) == Matched(es, marks)
    decreases |es|
  {
    if es != [] {
      var init := es[..|es| - 1];
      assert es == init + [es[|es| - 1]];
      MatchedIgnores(init, marks, x);
    }
  }

  /** `MatchedGrows` when the newly marked entry is the last one. */
  lemma MatchedGrowsAtEnd(es: seq<Contribution>, marks: set<Contribution>, who: Option<string>)
    requires NoDuplicates(es) && es != [] && es[|es| - 1] !in marks
    ensures var x := es[|es| - 1];
      Tally(Matched(es, marks + {x}), who) == Tally(Matched(es, marks), who) + Share(x, who) &&
      |Matched(es, marks + {x})| == |Matched(es, marks)| + 1
  {
    var init, x := es[..|es| - 1], es[|es| - 1];
    var m := Matched(init, marks);
    forall k | 0 <= k < |init| ensures init[k] != x {
      assert es[k] == init[k];
    }
    MatchedIgnores(init, marks, x);
    assert Matched(es, marks) == m;
    assert Matched(es, marks + {x}) == m + [x];
    TallyOne(x, who);
    TallyConcat(m, [x], who);
  }

  /** Marking one more entry of a list without duplicates moves exactly that entry. */
  lemma {:induction false} MatchedGrows(es: seq<Contribution>, marks: set<Contribution>, x: Contribution, who: Option<string>)
    requires NoDuplicates(es) && x in es && x !in marks
    ensures Tally(Matched(es, marks + {x}), who) == Tally(Matched(es, marks), who) + Share(x, who)
    ensures |Matched(es, marks + {x})| == |Matched(es, marks)| + 1
    decreases |es|
  {
    var init, last := es[..|es| - 1], es[|es| - 1];
    assert es == init + [last];
    var m, m' := Matched(init, marks), Matched(init, marks + {x});
    if last == x {
      MatchedGrowsAtEnd(es, marks, who);
    } else {
      assert Matched(es, marks) == m + if last in marks then [last] else [];
      assert Matched(es, marks + {x}) == m' + if last in marks + {x} then [last] else [];
      TallyOne(last, who);
      assert x in init;
      assert NoDuplicates(init) by {
        forall i, j | 0 <= i < j < |init| ensures init[i] != init[j] {
          assert init[i] == es[i] && init[j] == es[j];
        }
      }
      MatchedGrows(init, marks, x, who);
      if last in marks {
        TallyConcat(m, [last], who);
        TallyConcat(m', [last], who);
      } else {
        assert Matched(es, marks) == m;
        assert Matched(es, marks + {x}) == m';
      }
    }
  }


  /** More marks never match fewer entries. */
  lemma {:induction false} MatchedMonotone(es: seq<Contribution>, small: set<Contribution>, large: set<Contribution>)
    requires small <= large
    ensures |Matched(es, small)| <= |Matched(es, large)|
    decreases |es|
  {
    if es != [] {
      MatchedMonotone(es[..|es| - 1], small, large);
    }
  }

  /** Marks drawn from the list match at least as many entries as there are marks. */
  lemma {:induction false} MatchedCoversMarks(es: seq<Contribution>, marks: set<Contribution>)
    requires forall x :: x in marks ==> x in es
    ensures |Matched(es, marks)| >= |marks|
    decreases |es|
  {
    if es == [] {
      assert marks == {};
    } else {
      var init, last := es[..|es| - 1], es[|es| - 1];
      assert es == init + [last];
      if last in marks {
        var rest := marks - {last};
        forall x | x in rest ensures x in init {
          assert x in es && x != last;
        }
        MatchedCoversMarks(init, rest);
        MatchedMonotone(init, rest, marks);
        assert |rest| == |marks| - 1;
      } else {
        forall x | x in marks ensures x in init {
          assert x in es && x != last;
        }
        MatchedCoversMarks(init, marks);
      }
    }
  }

  lemma AllNonNegativeInit(es: seq<Contribution>)
    requires es != [] && AllNonNegative(es)
    ensures AllNonNegative(es[..|es| - 1])
  {
    var init := es[..|es| - 1];
    forall i | 0 <= i < |init| ensures init[i].amount >= 0.0 {
      assert init[i] == es[i];
    }
  }

  /** With amounts at least zero, more marks never match a smaller amount. */
  lemma {:induction false} MatchedTallyMonotone(es: seq<Contribution>, small: set<Contribution>, large: set<Contribution>)
    requires AllNonNegative(es) && small <= large
    ensures Tally(Matched(es, small), None) <= Tally(Matched(es, large), None)
    decreases |es|
  {
    if es != [] {
      var init, last := es[..|es| - 1], es[|es| - 1];
      AllNonNegativeInit(es);
      MatchedTallyMonotone(init, small, large);
      var ts: seq<Contribution> := if last in small then [last] else [];
      var tl: seq<Contribution> := if last in large then [last] else [];
      assert Matched(es, small) == Matched(init, small) + ts;
      assert Matched(es, large) == Matched(init, large) + tl;
      TallyConcat(Matched(init, small), ts, None);
      TallyConcat(Matched(init, large), tl, None);
      TallyOne(last, None);
      assert last in es;
    }
  }

  /** With amounts at least zero, marking one more entry adds at least its amount, once for each of its copies. */
  lemma {:induction false} MatchedGrowsAtLeast(es: seq<Contribution>, marks: set<Contribution>, x: Contribution)
    requires AllNonNegative(es) && x in es && x !in marks
    ensures Tally(Matched(es, marks + {x}), None) >= Tally(Matched(es, marks), None) + x.amount
    decreases |es|
  {
    var init, last := es[..|es| - 1], es[|es| - 1];
    assert es == init + [last];
    AllNonNegativeInit(es);
    TallyOne(last, None);
    var m, m' := Matched(init, marks), Matched(init, marks + {x});
    var t: seq<Contribution> := if last in marks then [last] else [];
    var t': seq<Contribution> := if last in marks + {x} then [last] else [];
    assert Matched(es, marks) == m + t;
    assert Matched(es, marks + {x}) == m' + t';
    TallyConcat(m, t, None);
    TallyConcat(m', t', None);
    if last == x {
      MatchedTallyMonotone(init, marks, marks + {x});
    } else {
      assert x in init;
      MatchedGrowsAtLeast(init, marks, x);
    }
  }

  /**
   * The conservation the pass keeps: its transfers move exactly what the
   * matched entries owe or are owed, and as many entries of each list are
   * matched as there are transfers.
   */
  predicate Accounts(st: MatchState, cs: seq<Contribution>, ds: seq<Contribution>, who: Option<string>) {
    NetOut(st.txs, who) == -(Tally(Matched(cs, st.surplusSet), who) + Tally(Matched(ds, st.debtSet), who)) &&
    |Matched(cs, st.surplusSet)| == |st.txs| == |Matched(ds, st.debtSet)|
  }

  lemma MatchStepConserves(c: Contribution, d: Contribution, st: MatchState, cs: seq<Contribution>, ds: seq<Contribution>, who: Option<string>)
    requires NoDuplicates(cs) && NoDuplicates(ds) && c in cs && d in ds
    requires Accounts(st, cs, ds, who)
    ensures Accounts(MatchStep(c, d, st), cs, ds, who)
  {
    if Fits(c, d, st) {
      var tx := Transaction(d.name, c.name, c.amount);
      var txs := st.txs + [tx];
      assert txs[..|txs| - 1] == st.txs;
      assert NetOut(txs, who) == NetOut(st.txs, who) + Outflow(tx, who);
      assert Outflow(tx, who) == -(Share(c, who) + Share(d, who));
      MatchedGrows(cs, st.surplusSet, c, who);
      MatchedGrows(ds, st.debtSet, d, who);
    }
  }

  lemma {:induction false} ScanDebtsConserves(c: Contribution, part: seq<Contribution>, st: MatchState, cs: seq<Contribution>, ds: seq<Contribution>, who: Option<string>)
    requires NoDuplicates(cs) && NoDuplicates(ds) && c in cs && (forall e :: e in part ==> e in ds)
    requires Accounts(st, cs, ds, who)
    ensures Accounts(ScanDebts(c, part, st), cs, ds, who)
    decreases |part|
  {
    if part != [] {
      var init := part[..|part| - 1];
      ScanDebtsConserves(c, init, st, cs, ds, who);
      MatchStepConserves(c, part[|part| - 1], ScanDebts(c, init, st), cs, ds, who);
    }
  }

  lemma {:induction false} MatchPrefixConserves(part: seq<Contribution>, cs: seq<Contribution>, ds: seq<Contribution>, who: Option<string>)
    requires NoDuplicates(cs) && NoDuplicates(ds) && (forall e :: e in part ==> e in cs)
    ensures Accounts(MatchAll(part, ds), cs, ds, who)
    decreases |part|
  {
    if part == [] {
      MatchedNone(cs);
      MatchedNone(ds);
    } else {
      var init := part[..|part| - 1];
      MatchPrefixConserves(init, cs, ds, who);
      ScanDebtsConserves(part[|part| - 1], ds, MatchAll(init, ds), cs, ds, who);
    }
  }

  /**
   * With no repeated entry in either list, the exact-match transfers take
   * the matched debtors and creditors to zero and leave as many entries of
   * each list as the pass did not pay.
   */
  lemma MatchAllConserves(cs: seq<Contribution>, ds: seq<Contribution>, who: Option<string>)
    requires NoDuplicates(cs) && NoDuplicates(ds)
    ensures NetOut(MatchAll(cs, ds).txs, who) ==
      -(Tally(Matched(cs, MatchAll(cs, ds).surplusSet), who) + Tally(Matched(ds, MatchAll(cs, ds).debtSet), who))
    ensures |Unmatched(cs, MatchAll(cs, ds).surplusSet)| == |cs| - |MatchAll(cs, ds).txs|
    ensures |Unmatched(ds, MatchAll(cs, ds).debtSet)| == |ds| - |MatchAll(cs, ds).txs|
  {
    var m := MatchAll(cs, ds);
    MatchPrefixConserves(cs, cs, ds, who);
    MatchedSplit(cs, m.surplusSet, who);
    MatchedSplit(ds, m.debtSet, who);
  }

  /** After the pass no creditor left over has an exact partner among the debtors left over. */
  lemma NoExactPairLeft(cs: seq<Contribution>, ds: seq<Contribution>, c: Contribution, d: Contribution)
    requires c in Unmatched(cs, MatchAll(cs, ds).surplusSet)
    requires d in Unmatched(ds, MatchAll(cs, ds).debtSet)
    ensures c.amount != -d.amount
  {
    var m := MatchAll(cs, ds);
    UnmatchedMembers(cs, m.surplusSet, c);
    UnmatchedMembers(ds, m.debtSet, d);
    MatchPrefixExhausts(cs, ds);
  }

  /**
   * What the matches pay out in total: never more than the entries of the
   * marked creditors hold, and exactly that when no creditor is repeated.
   */
  predicate PaysMarked(st: MatchState, cs: seq<Contribution>) {
    TotalAmount(st.txs) <= Tally(Matched(cs, st.surplusSet), None) &&
    (NoDuplicates(cs) ==> TotalAmount(st.txs) == Tally(Matched(cs, st.surplusSet), None))
  }

  lemma MatchStepPays(c: Contribution, d: Contribution, st: MatchState, cs: seq<Contribution>)
    requires AllNonNegative(cs) && c in cs && PaysMarked(st, cs)
    ensures PaysMarked(MatchStep(c, d, st), cs)
  {
    if Fits(c, d, st) {
      var tx := Transaction(d.name, c.name, c.amount);
      var txs' := st.txs + [tx];
      assert MatchStep(c, d, st) == MatchState(txs', st.surplusSet + {c}, st.debtSet + {d});
      assert txs'[..|st.txs|] == st.txs;
      assert TotalAmount(txs') == TotalAmount(st.txs) + c.amount;
      MatchedGrowsAtLeast(cs, st.surplusSet, c);
      if NoDuplicates(cs) {
        MatchedGrows(cs, st.surplusSet, c, None);
      }
    }
  }

  lemma {:induction false} ScanDebtsPays(c: Contribution, part: seq<Contribution>, st: MatchState, cs: seq<Contribution>)
    requires AllNonNegative(cs) && c in cs && PaysMarked(st, cs)
    ensures PaysMarked(ScanDebts(c, part, st), cs)
    decreases |part|
  {
    if part != [] {
      var init := part[..|part| - 1];
      ScanDebtsPays(c, init, st, cs);
      MatchStepPays(c, part[|part| - 1], ScanDebts(c, init, st), cs);
    }
  }

  lemma {:induction false} MatchPrefixPays(part: seq<Contribution>, cs: seq<Contribution>, ds: seq<Contribution>)
    requires AllNonNegative(cs) && forall e :: e in part ==> e in cs
    ensures PaysMarked(MatchAll(part, ds), cs)
    decreases |part|
  {
    if part == [] {
      MatchedNone(cs);
    } else {
      var init := part[..|part| - 1];
      MatchPrefixPays(init, cs, ds);
      ScanDebtsPays(part[|part| - 1], ds, MatchAll(init, ds), cs);
    }
  }

  /** The exact matches pay out at most what the matched creditor entries hold, and exactly that with no repeated creditor. */
  lemma MatchAllPays(cs: seq<Contribution>, ds: seq<Contribution>)
    requires AllNonNegative(cs)
    ensures TotalAmount(MatchAll(cs, ds).txs) <= Tally(Matched(cs, MatchAll(cs, ds).surplusSet), None)
    ensures NoDuplicates(cs) ==> TotalAmount(MatchAll(cs, ds).txs) == Tally(Matched(cs, MatchAll(cs, ds).surplusSet), None)
  {
    MatchPrefixPays(cs, cs, ds);
  }

  // ---------------------------------------------------------------------
  // Sorting what is left (lines 167-170): `sort_by` is a stable sort
  // ---------------------------------------------------------------------

  /** The sort key: descending balances for the creditors (line 168), ascending for the debtors (line 170). */
  function Key(e: Contribution, descending: bool): real {
    if descending then -e.amount else e.amount
  }

  predicate SortedBy(es: seq<Contribution>, descending: bool) {
    forall i, j :: 0 <= i < j < |es| ==> Key(es[i], descending) <= Key(es[j], descending)
  }

  /** Put `e` after every entry whose key is not greater than its own. */
  function InsertBy(sorted: seq<Contribution>, e: Contribution, descending: bool): seq<Contribution>
    decreases |sorted|
  {
    if sorted == [] || Key(sorted[|sorted| - 1], descending) <= Key(e, descending) then sorted + [e]
    else InsertBy(sorted[..|sorted| - 1], e, descending) + [sorted[|sorted| - 1]]
  }

  /** Stable insertion sort by balance; equal balances keep their input order. */
  function SortByBalance(es: seq<Contribution>, descending: bool): seq<Contribution>
    decreases |es|
  {
    if es == [] then [] else InsertBy(SortByBalance(es[..|es| - 1], descending), es[|es| - 1], descending)
  }

  lemma {:induction false} InsertByPermutes(sorted: seq<Contribution>, e: Contribution, descending: bool)
    ensures multiset(InsertBy(sorted, e, descending)) == multiset(sorted) + multiset{e}
    decreases |sorted|
  {
    if sorted != [] && Key(sorted[|sorted| - 1], descending) > Key(e, descending) {
      var init := sorted[..|sorted| - 1];
      InsertByPermutes(init, e, descending);
      assert sorted == init + [sorted[|sorted| - 1]];
    }
  }

  lemma {:induction false} InsertBySorted(sorted: seq<Contribution>, e: Contribution, descending: bool)
    requires SortedBy(sorted, descending)
    ensures SortedBy(InsertBy(sorted, e, descending), descending)
    decreases |sorted|
  {
    if sorted != [] && Key(sorted[|sorted| - 1], descending) > Key(e, descending) {
      var init, last := sorted[..|sorted| - 1], sorted[|sorted| - 1];
      InsertBySorted(init, e, descending);
      InsertByPermutes(init, e, descending);
      var r := InsertBy(init, e, descending);
      forall i | 0 <= i < |r| ensures Key(r[i], descending) <= Key(last, descending) {
        assert r[i] in multiset(r);
        if r[i] != e {
          assert r[i] in multiset(init);
          var k :| 0 <= k < |init| && init[k] == r[i];
          assert sorted[k] == init[k];
        }
      }
    }
  }

  lemma {:induction false} InsertByTally(sorted: seq<Contribution>, e: Contribution, descending: bool, who: Option<string>)
    ensures Tally(InsertBy(sorted, e, descending), who) == Tally(sorted, who) + Share(e, who)
    decreases |sorted|
  {
    if sorted != [] && Key(sorted[|sorted| - 1], descending) > Key(e, descending) {
      var init := sorted[..|sorted| - 1];
      InsertByTally(init, e, descending, who);
      var r := InsertBy(init, e, descending);
      assert (r + [sorted[|sorted| - 1]])[..|r|] == r;
    } else {
      assert (sorted + [e])[..|sorted|] == sorted;
    }
  }

  /** The sort orders the entries by key and only reorders them: same entries, same totals. */
  lemma SortByBalanceCorrect(es: seq<Contribution>, descending: bool, who: Option<string>)
    ensures SortedBy(SortByBalance(es, descending), descending)
    ensures multiset(SortByBalance(es, descending)) == multiset(es)
    ensures Tally(SortByBalance(es, descending), who) == Tally(es, who)
  {
    SortByBalanceSorted(es, descending);
    SortByBalancePermutes(es, descending);
    SortByBalanceTally(es, descending, who);
  }

  lemma {:induction false} SortByBalanceSorted(es: seq<Contribution>, descending: bool)
    ensures SortedBy(SortByBalance(es, descending), descending)
    decreases |es|
  {
    if es != [] {
      var init := es[..|es| - 1];
      SortByBalanceSorted(init, descending);
      InsertBySorted(SortByBalance(init, descending), es[|es| - 1], descending);
    }
  }

  lemma {:induction false} SortByBalancePermutes(es: seq<Contribution>, descending: bool)
    ensures multiset(SortByBalance(es, descending)) == multiset(es)
    decreases |es|
  {
    if es != [] {
      var init := es[..|es| - 1];
      var last := es[|es| - 1];
      SortByBalancePermutes(init, descending);
      InsertByPermutes(SortByBalance(init, descending), last, descending);
      assert es == init + [last];
      assert multiset(es) == multiset(init) + multiset{last};
    }
  }

  lemma {:induction false} SortByBalanceTally(es: seq<Contribution>, descending: bool, who: Option<string>)
    ensures Tally(SortByBalance(es, descending), who) == Tally(es, who)
    decreases |es|
  {
    if es != [] {
      var init := es[..|es| - 1];
      SortByBalanceTally(init, descending, who);
      InsertByTally(SortByBalance(init, descending), es[|es| - 1], descending, who);
    }
  }


  /** Every entry of the sorted list is an entry of the input, and the other way round. */
  lemma SortKeepsMembers(es: seq<Contribution>, descending: bool)
    ensures |SortByBalance(es, descending)| == |es|
    ensures forall e :: e in SortByBalance(es, descending) <==> e in es
  {
    var r := SortByBalance(es, descending);
    SortByBalanceCorrect(es, descending, None);
    assert |multiset(r)| == |multiset(es)|;
    forall e ensures e in r <==> e in es {
      assert e in r <==> e in multiset(r);
      assert e in es <==> e in multiset(es);
    }
  }

  /** Reordering keeps the signs of the balances and the names. */
  lemma SortKeepsEntries(es: seq<Contribution>, descending: bool)
    ensures AllPositive(es) ==> AllPositive(SortByBalance(es, descending))
    ensures AllNegative(es) ==> AllNegative(SortByBalance(es, descending))
    ensures Names(SortByBalance(es, descending)) == Names(es)
  {
    var r := SortByBalance(es, descending);
    SortKeepsMembers(es, descending);
    forall i | 0 <= i < |r| ensures exists k :: 0 <= k < |es| && es[k] == r[i] {
      assert r[i] in es;
    }
  }

  /** The entries whose key is `k`, in order. */
  function WithKey(es: seq<Contribution>, k: real, descending: bool): seq<Contribution>
    decreases |es|
  {
    if es == [] then []
    else WithKey(es[..|es| - 1], k, descending) + if Key(es[|es| - 1], descending) == k then [es[|es| - 1]] else []
  }

  lemma WithKeySnoc(es: seq<Contribution>, x: Contribution, k: real, descending: bool)
    ensures WithKey(es + [x], k, descending) == WithKey(es, k, descending) + if Key(x, descending) == k then [x] else []
  {
    assert (es + [x])[..|es|] == es;
  }

  /** Inserting puts `e` after every entry with its own key. */
  lemma {:induction false} InsertByStable(sorted: seq<Contribution>, e: Contribution, descending: bool, k: real)
    ensures WithKey(InsertBy(sorted, e, descending), k, descending) ==
      WithKey(sorted, k, descending) + if Key(e, descending) == k then [e] else []
    decreases |sorted|
  {
    if sorted == [] || Key(sorted[|sorted| - 1], descending) <= Key(e, descending) {
      WithKeySnoc(sorted, e, k, descending);
    } else {
      var init, last := sorted[..|sorted| - 1], sorted[|sorted| - 1];
      var ins := InsertBy(init, e, descending);
      assert sorted == init + [last];
      assert InsertBy(sorted, e, descending) == ins + [last];
      InsertByStable(init, e, descending, k);
      WithKeySnoc(ins, last, k, descending);
      WithKeySnoc(init, last, k, descending);
      // `last` sorts strictly after `e`, so at most one of the two has key `k`.
      if Key(e, descending) == k {
        assert WithKey(sorted, k, descending) == WithKey(init, k, descending);
      } else {
        assert WithKey(ins, k, descending) == WithKey(init, k, descending);
      }
    }
  }

  /** Stability, as `sort_by` promises: for every key, the entries with that key keep their input order. */
  lemma {:induction false} SortByBalanceStable(es: seq<Contribution>, descending: bool, k: real)
    ensures WithKey(SortByBalance(es, descending), k, descending) == WithKey(es, k, descending)
    decreases |es|
  {
    if es != [] {
      var init := es[..|es| - 1];
      SortByBalanceStable(init, descending, k);
      InsertByStable(SortByBalance(init, descending), es[|es| - 1], descending, k);
    }
  }

  // ---------------------------------------------------------------------
  // Two-cursor pass (lines 179-204)
  // ---------------------------------------------------------------------

  /**
   * The two-cursor loop on the sorted creditors `cs` and debtors `ds`: the
   * head debtor pays the head creditor; whichever runs out moves on, the
   * other keeps what is left of its balance (the `+=` on the carried
   * entry at lines 194 and 202).
   */
  function Settle(cs: seq<Contribution>, ds: seq<Contribution>): seq<Transaction>
    decreases |cs| + |ds|
  {
    if cs == [] || ds == [] then []
    else if cs[0].amount < -ds[0].amount then
      [Transaction(ds[0].name, cs[0].name, cs[0].amount)] + Settle(cs[1..], [ds[0].Update(cs[0].amount)] + ds[1..])
    else
      [Transaction(ds[0].name, cs[0].name, -ds[0].amount)] + Settle([cs[0].Update(ds[0].amount)] + cs[1..], ds[1..])
  }

  lemma NetOutCons(tx: Transaction, txs: seq<Transaction>, who: Option<string>)
    ensures NetOut([tx] + txs, who) == Outflow(tx, who) + NetOut(txs, who)
  {
    NetOutConcat([tx], txs, who);
    assert [tx][..0] == [];
  }

  /** A creditor pays off part of a debt: the debtor keeps a smaller debt. */
  lemma SettleCreditorStep(cs: seq<Contribution>, ds: seq<Contribution>, who: Option<string>)
    requires cs != [] && ds != [] && cs[0].amount < -ds[0].amount
    ensures var d := ds[0].Update(cs[0].amount);
      NetOut(Settle(cs, ds), who) ==
        Outflow(Transaction(ds[0].name, cs[0].name, cs[0].amount), who) + NetOut(Settle(cs[1..], [d] + ds[1..]), who)
  {
    NetOutCons(Transaction(ds[0].name, cs[0].name, cs[0].amount), Settle(cs[1..], [ds[0].Update(cs[0].amount)] + ds[1..]), who);
  }

  lemma SettleDebtorStep(cs: seq<Contribution>, ds: seq<Contribution>, who: Option<string>)
    requires cs != [] && ds != [] && cs[0].amount >= -ds[0].amount
    ensures var c := cs[0].Update(ds[0].amount);
      NetOut(Settle(cs, ds), who) ==
        Outflow(Transaction(ds[0].name, cs[0].name, -ds[0].amount), who) + NetOut(Settle([c] + cs[1..], ds[1..]), who)
  {
    NetOutCons(Transaction(ds[0].name, cs[0].name, -ds[0].amount), Settle([cs[0].Update(ds[0].amount)] + cs[1..], ds[1..]), who);
  }

  /**
   * What the two-cursor loop keeps from line 182 on: the creditors left are
   * at least zero, the debtors left are below zero, and the surpluses left
   * equal the debts left.
   */
  predicate Balanced(cs: seq<Contribution>, ds: seq<Contribution>) {
    AllNonNegative(cs) && AllNegative(ds) && Tally(cs, None) + Tally(ds, None) == 0.0
  }

  /** The creditor runs out first (lines 187-194): the debtor keeps a smaller, still negative, debt. */
  lemma CreditorStepBalanced(cs: seq<Contribution>, ds: seq<Contribution>)
    requires Balanced(cs, ds) && cs != [] && ds != [] && cs[0].amount < -ds[0].amount
    ensures Balanced(cs[1..], [ds[0].Update(cs[0].amount)] + ds[1..])
  {
    var c, d := cs[0], ds[0];
    assert cs == [c] + cs[1..];
    assert ds == [d] + ds[1..];
    TallyCons(c, cs[1..], None);
    TallyCons(d, ds[1..], None);
    TallyCons(d.Update(c.amount), ds[1..], None);
  }

  /** The debtor runs out first (lines 195-202): the creditor keeps a smaller, still non-negative, surplus. */
  lemma DebtorStepBalanced(cs: seq<Contribution>, ds: seq<Contribution>)
    requires Balanced(cs, ds) && cs != [] && ds != [] && cs[0].amount >= -ds[0].amount
    ensures Balanced([cs[0].Update(ds[0].amount)] + cs[1..], ds[1..])
  {
    var c, d := cs[0], ds[0];
    assert cs == [c] + cs[1..];
    assert ds == [d] + ds[1..];
    TallyCons(c, cs[1..], None);
    TallyCons(d, ds[1..], None);
    TallyCons(c.Update(d.amount), cs[1..], None);
  }

  /**
   * From a balanced start, the two-cursor transfers take every creditor
   * and every debtor to zero.
   */
  lemma {:induction false} SettleConserves(cs: seq<Contribution>, ds: seq<Contribution>, who: Option<string>)
    requires Balanced(cs, ds)
    ensures NetOut(Settle(cs, ds), who) == -(Tally(cs, who) + Tally(ds, who))
    decreases |cs| + |ds|
  {
    if cs == [] {
      ZeroSumOfNegative(ds);
    } else if ds == [] {
      ZeroSumOfNonNegative(cs, who);
    } else {
      var c, d := cs[0], ds[0];
      assert cs == [c] + cs[1..];
      assert ds == [d] + ds[1..];
      TallyCons(c, cs[1..], who);
      TallyCons(d, ds[1..], who);
      if c.amount < -d.amount {
        var d' := d.Update(c.amount);
        TallyCons(d', ds[1..], who);
        CreditorStepBalanced(cs, ds);
        SettleConserves(cs[1..], [d'] + ds[1..], who);
        SettleCreditorStep(cs, ds, who);
      } else {
        var c' := c.Update(d.amount);
        TallyCons(c', cs[1..], who);
        DebtorStepBalanced(cs, ds);
        SettleConserves([c'] + cs[1..], ds[1..], who);
        SettleDebtorStep(cs, ds, who);
      }
    }
  }

  /** Changing the head entry's amount keeps the set of names. */
  lemma NamesUpdateHead(es: seq<Contribution>, delta: real)
    requires es != []
    ensures Names([es[0].Update(delta)] + es[1..]) == Names(es)
  {
    var es' := [es[0].Update(delta)] + es[1..];
    forall n | n in Names(es') ensures n in Names(es) {
      var e :| e in es' && e.name == n;
      if e == es'[0] {
        assert es[0] in es;
      } else {
        var k :| 0 <= k < |es'| && es'[k] == e;
        assert es[k] == e;
      }
    }
    forall n | n in Names(es) ensures n in Names(es') {
      var e :| e in es && e.name == n;
      var k :| 0 <= k < |es| && es[k] == e;
      assert es'[k].name == n;
    }
  }

  /** Every two-cursor transfer runs from a debtor to a creditor and is never negative. */
  lemma {:induction false} SettleTransfers(cs: seq<Contribution>, ds: seq<Contribution>)
    requires AllNonNegative(cs) && AllNegative(ds)
    ensures forall tx :: tx in Settle(cs, ds) ==>
      tx.amount >= 0.0 && tx.from in Names(ds) && tx.to in Names(cs)
    decreases |cs| + |ds|
  {
    if cs != [] && ds != [] {
      var c, d := cs[0], ds[0];
      assert c in cs && d in ds;
      if c.amount < -d.amount {
        var ds' := [d.Update(c.amount)] + ds[1..];
        assert AllNegative(ds');
        SettleTransfers(cs[1..], ds');
        NamesUpdateHead(ds, c.amount);
        forall e | e in cs[1..] ensures e in cs { }
      } else {
        var cs' := [c.Update(d.amount)] + cs[1..];
        assert AllNonNegative(cs');
        SettleTransfers(cs', ds[1..]);
        NamesUpdateHead(cs, d.amount);
        forall e | e in ds[1..] ensures e in ds { }
      }
    }
  }

  /** Each transfer moves one cursor and the pass stops at the first exhausted list. */
  lemma {:induction false} SettleLength(cs: seq<Contribution>, ds: seq<Contribution>)
    ensures cs == [] || ds == [] ==> Settle(cs, ds) == []
    ensures cs != [] && ds != [] ==> |Settle(cs, ds)| <= |cs| + |ds| - 1
    decreases |cs| + |ds|
  {
    if cs != [] && ds != [] {
      if cs[0].amount < -ds[0].amount {
        SettleLength(cs[1..], [ds[0].Update(cs[0].amount)] + ds[1..]);
      } else {
        SettleLength([cs[0].Update(ds[0].amount)] + cs[1..], ds[1..]);
      }
    }
  }

  /**
   * A creditor used up exactly in the else-branch is still at the cursor,
   * at zero, and pays nothing on the next round: a transfer of 0.
   */
  lemma ZeroTransferExample()
    ensures Settle([Contribution("A", 6.0), Contribution("B", 4.0)],
                   [Contribution("C", -3.0), Contribution("D", -3.0), Contribution("E", -2.0), Contribution("F", -2.0)])
      == [Transaction("C", "A", 3.0), Transaction("D", "A", 3.0), Transaction("E", "A", 0.0),
          Transaction("E", "B", 2.0), Transaction("F", "B", 2.0)]
  {
    var a, b := Contribution("A", 6.0), Contribution("B", 4.0);
    var c, d, e, f := Contribution("C", -3.0), Contribution("D", -3.0), Contribution("E", -2.0), Contribution("F", -2.0);
    assert Settle([a, b], [c, d, e, f]) == [Transaction("C", "A", 3.0)] + Settle([a.(amount := 3.0), b], [d, e, f]);
    assert Settle([a.(amount := 3.0), b], [d, e, f]) == [Transaction("D", "A", 3.0)] + Settle([a.(amount := 0.0), b], [e, f]);
    assert Settle([a.(amount := 0.0), b], [e, f]) == [Transaction("E", "A", 0.0)] + Settle([b], [e, f]);
    assert [e, f][1..] == [f] && [b.(amount := 2.0)] + [b][1..] == [b.(amount := 2.0)];
    assert Settle([b], [e, f]) == [Transaction("E", "B", 2.0)] + Settle([b.(amount := 2.0)], [f]);
    assert Settle([b.(amount := 2.0)], [f]) == [Transaction("F", "B", 2.0)] + Settle([b.(amount := 0.0)], []);
  }

  /** Replacing the head of a non-negative list by a non-negative entry, or dropping it, keeps it non-negative. */
  lemma NonNegativeRest(cs: seq<Contribution>, c: Contribution)
    requires cs != [] && AllNonNegative(cs) && c.amount >= 0.0
    ensures AllNonNegative(cs[1..]) && AllNonNegative([c] + cs[1..])
  {
    forall i | 0 <= i < |cs| - 1 ensures cs[1..][i].amount >= 0.0 {
      assert cs[1..][i] == cs[i + 1];
    }
    forall i | 0 < i < |cs| ensures ([c] + cs[1..])[i].amount >= 0.0 {
      assert ([c] + cs[1..])[i] == cs[i];
    }
  }

  /** The creditor branch pays the creditor's whole remainder. */
  lemma SettleTotalCreditorStep(cs: seq<Contribution>, ds: seq<Contribution>)
    requires cs != [] && ds != [] && cs[0].amount < -ds[0].amount
    ensures TotalAmount(Settle(cs, ds)) ==
      cs[0].amount + TotalAmount(Settle(cs[1..], [ds[0].Update(cs[0].amount)] + ds[1..]))
  {
    TotalAmountCons(Transaction(ds[0].name, cs[0].name, cs[0].amount), Settle(cs[1..], [ds[0].Update(cs[0].amount)] + ds[1..]));
  }

  /** The debtor branch pays the debtor's whole remainder. */
  lemma SettleTotalDebtorStep(cs: seq<Contribution>, ds: seq<Contribution>)
    requires cs != [] && ds != [] && cs[0].amount >= -ds[0].amount
    ensures TotalAmount(Settle(cs, ds)) ==
      -ds[0].amount + TotalAmount(Settle([cs[0].Update(ds[0].amount)] + cs[1..], ds[1..]))
  {
    TotalAmountCons(Transaction(ds[0].name, cs[0].name, -ds[0].amount), Settle([cs[0].Update(ds[0].amount)] + cs[1..], ds[1..]));
  }

  /** What the creditors are owed, split at the head, before and after the head is updated. */
  lemma TallyAtHead(cs: seq<Contribution>, delta: real)
    requires cs != []
    ensures Tally(cs, None) == cs[0].amount + Tally(cs[1..], None)
    ensures Tally([cs[0].Update(delta)] + cs[1..], None) == cs[0].amount + delta + Tally(cs[1..], None)
  {
    assert cs == [cs[0]] + cs[1..];
    TallyCons(cs[0], cs[1..], None);
    TallyCons(cs[0].Update(delta), cs[1..], None);
  }

  /** The two-cursor pass never pays out more than the creditors are owed. */
  lemma {:induction false} SettleTotalBound(cs: seq<Contribution>, ds: seq<Contribution>)
    requires AllNonNegative(cs)
    ensures TotalAmount(Settle(cs, ds)) <= Tally(cs, None)
    decreases |cs| + |ds|
  {
    if cs == [] || ds == [] {
      TallyAtLeastZero(cs);
    } else {
      var c, d := cs[0], ds[0];
      TallyAtHead(cs, d.amount);
      if c.amount < -d.amount {
        NonNegativeRest(cs, c);
        SettleTotalBound(cs[1..], [d.Update(c.amount)] + ds[1..]);
        SettleTotalCreditorStep(cs, ds);
      } else {
        NonNegativeRest(cs, c.Update(d.amount));
        SettleTotalBound([c.Update(d.amount)] + cs[1..], ds[1..]);
        SettleTotalDebtorStep(cs, ds);
      }
    }
  }

  /** On balancing lists the two-cursor pass pays out exactly what the creditors are owed. */
  lemma {:induction false} SettleTotalExact(cs: seq<Contribution>, ds: seq<Contribution>)
    requires Balanced(cs, ds)
    ensures TotalAmount(Settle(cs, ds)) == Tally(cs, None)
    decreases |cs| + |ds|
  {
    if cs != [] && ds != [] {
      var c, d := cs[0], ds[0];
      TallyAtHead(cs, d.amount);
      if c.amount < -d.amount {
        CreditorStepBalanced(cs, ds);
        SettleTotalExact(cs[1..], [d.Update(c.amount)] + ds[1..]);
        SettleTotalCreditorStep(cs, ds);
      } else {
        DebtorStepBalanced(cs, ds);
        SettleTotalExact([c.Update(d.amount)] + cs[1..], ds[1..]);
        SettleTotalDebtorStep(cs, ds);
      }
    }
  }

  // ---------------------------------------------------------------------
  // The whole planner (lines 112-204)
  // ---------------------------------------------------------------------

  /** What is left for the two-cursor pass: the unmatched creditors and debtors, sorted. */
  function Residual(cs: seq<Contribution>, ds: seq<Contribution>): (seq<Contribution>, seq<Contribution>) {
    var m := MatchAll(cs, ds);
    (SortByBalance(Unmatched(cs, m.surplusSet), true), SortByBalance(Unmatched(ds, m.debtSet), false))
  }

  /**
   * The transfers for the creditors `cs` and debtors `ds`: the
   * single-creditor plan, or the exact matches followed by the two-cursor
   * transfers on what is left.
   */
  function SettlePlan(cs: seq<Contribution>, ds: seq<Contribution>): seq<Transaction> {
    if |cs| == 1 then SingleCreditorPlan(cs[0], ds)
    else MatchAll(cs, ds).txs + Settle(Residual(cs, ds).0, Residual(cs, ds).1)
  }

  /** The residual lists are signed as the inputs and, with no repeated entries, still balance each other. */
  lemma ResidualBalances(cs: seq<Contribution>, ds: seq<Contribution>)
    requires AllPositive(cs) && AllNegative(ds) && NoDuplicates(cs) && NoDuplicates(ds)
    requires Tally(cs, None) + Tally(ds, None) == 0.0
    ensures Balanced(Residual(cs, ds).0, Residual(cs, ds).1)
  {
    var m := MatchAll(cs, ds);
    var uc, ud := Unmatched(cs, m.surplusSet), Unmatched(ds, m.debtSet);
    forall e | e in uc ensures e in cs {
      UnmatchedMembers(cs, m.surplusSet, e);
    }
    forall e | e in ud ensures e in ds {
      UnmatchedMembers(ds, m.debtSet, e);
    }
    SignsOfMembers(uc, cs);
    SignsOfMembers(ud, ds);
    SortKeepsEntries(uc, true);
    SortKeepsEntries(ud, false);
    SortByBalanceCorrect(uc, true, None);
    SortByBalanceCorrect(ud, false, None);
    MatchAllConserves(cs, ds, None);
    NetOutOfEverybody(m.txs);
    MatchedSplit(cs, m.surplusSet, None);
    MatchedSplit(ds, m.debtSet, None);
  }

  /** The two-cursor transfers settle exactly the unmatched entries. */
  lemma ResidualConserves(cs: seq<Contribution>, ds: seq<Contribution>, who: Option<string>)
    requires AllPositive(cs) && AllNegative(ds) && NoDuplicates(cs) && NoDuplicates(ds)
    requires Tally(cs, None) + Tally(ds, None) == 0.0
    ensures NetOut(Settle(Residual(cs, ds).0, Residual(cs, ds).1), who) ==
      -(Tally(Unmatched(cs, MatchAll(cs, ds).surplusSet), who) + Tally(Unmatched(ds, MatchAll(cs, ds).debtSet), who))
  {
    var m := MatchAll(cs, ds);
    var uc, ud := Unmatched(cs, m.surplusSet), Unmatched(ds, m.debtSet);
    ResidualBalances(cs, ds);
    SettleConserves(Residual(cs, ds).0, Residual(cs, ds).1, who);
    SortByBalanceCorrect(uc, true, who);
    SortByBalanceCorrect(ud, false, who);
  }

  /**
   * With positive creditors, negative debtors, equal totals and no entry
   * repeated within a list, the plan takes every creditor and every debtor
   * to zero: each name pays out, less what it receives, exactly minus its
   * balances.
   */
  lemma SettlePlanConserves(cs: seq<Contribution>, ds: seq<Contribution>, who: Option<string>)
    requires AllPositive(cs) && AllNegative(ds) && NoDuplicates(cs) && NoDuplicates(ds)
    requires Tally(cs, None) + Tally(ds, None) == 0.0
    ensures NetOut(SettlePlan(cs, ds), who) == -(Tally(cs, who) + Tally(ds, who))
  {
    if |cs| == 1 {
      assert cs == [cs[0]];
      TallyOne(cs[0], None);
      TallyOne(cs[0], who);
      TallyCons(cs[0], ds, who);
      SingleCreditorConserves(cs[0], ds, who);
    } else {
      MatchThenSettleConserves(cs, ds, who);
    }
  }

  lemma MatchThenSettleConserves(cs: seq<Contribution>, ds: seq<Contribution>, who: Option<string>)
    requires AllPositive(cs) && AllNegative(ds) && NoDuplicates(cs) && NoDuplicates(ds)
    requires Tally(cs, None) + Tally(ds, None) == 0.0
    ensures NetOut(MatchAll(cs, ds).txs + Settle(Residual(cs, ds).0, Residual(cs, ds).1), who) ==
      -(Tally(cs, who) + Tally(ds, who))
  {
    var m := MatchAll(cs, ds);
    ResidualConserves(cs, ds, who);
    MatchAllConserves(cs, ds, who);
    MatchedSplit(cs, m.surplusSet, who);
    MatchedSplit(ds, m.debtSet, who);
    NetOutConcat(m.txs, Settle(Residual(cs, ds).0, Residual(cs, ds).1), who);
  }

  /** Every transfer of the plan runs from a debtor to a creditor and is never negative. */
  lemma SettlePlanTransfers(cs: seq<Contribution>, ds: seq<Contribution>)
    requires AllPositive(cs) && AllNegative(ds)
    ensures forall tx :: tx in SettlePlan(cs, ds) ==>
      tx.amount >= 0.0 && tx.from in Names(ds) && tx.to in Names(cs)
  {
    if |cs| == 1 {
      SingleCreditorTransfers(cs[0], ds);
      assert cs[0] in cs;
    } else {
      var m := MatchAll(cs, ds);
      var uc, ud := Unmatched(cs, m.surplusSet), Unmatched(ds, m.debtSet);
      var (rc, rd) := Residual(cs, ds);
      MatchAllSound(cs, ds);
      forall tx | tx in m.txs ensures tx.amount >= 0.0 && tx.from in Names(ds) && tx.to in Names(cs) {
        assert ExactPair(tx, cs, ds);
        var c, d :| c in cs && d in ds && c.amount == -d.amount && tx == Transaction(d.name, c.name, c.amount);
      }
      forall e ensures e in uc ==> e in cs {
        UnmatchedMembers(cs, m.surplusSet, e);
      }
      forall e ensures e in ud ==> e in ds {
        UnmatchedMembers(ds, m.debtSet, e);
      }
      SignsOfMembers(uc, cs);
      SignsOfMembers(ud, ds);
      SortKeepsEntries(uc, true);
      SortKeepsEntries(ud, false);
      SignsOfMembers(rc, rc);
      SettleTransfers(rc, rd);
      forall n | n in Names(uc) ensures n in Names(cs) {
        var e :| e in uc && e.name == n;
      }
      forall n | n in Names(ud) ensures n in Names(ds) {
        var e :| e in ud && e.name == n;
      }
    }
  }

  /** The plan has fewer transfers than there are entries, and none when either list is empty. */
  lemma SettlePlanLength(cs: seq<Contribution>, ds: seq<Contribution>)
    ensures cs == [] || ds == [] ==> SettlePlan(cs, ds) == []
    ensures cs != [] && ds != [] ==> |SettlePlan(cs, ds)| <= |cs| + |ds| - 1
  {
    if |cs| == 1 {
      SingleCreditorPlanAt(cs[0], ds);
    } else {
      var m := MatchAll(cs, ds);
      var uc, ud := Unmatched(cs, m.surplusSet), Unmatched(ds, m.debtSet);
      MatchAllSound(cs, ds);
      MatchedCoversMarks(cs, m.surplusSet);
      MatchedCoversMarks(ds, m.debtSet);
      MatchedSplit(cs, m.surplusSet, None);
      MatchedSplit(ds, m.debtSet, None);
      SortKeepsMembers(uc, true);
      SortKeepsMembers(ud, false);
      SettleLength(Residual(cs, ds).0, Residual(cs, ds).1);
    }
  }

  /** The plan pays out at most what the creditors are owed in total. */
  lemma SettlePlanTotalBound(cs: seq<Contribution>, ds: seq<Contribution>)
    requires AllPositive(cs) && AllNegative(ds) && Tally(cs, None) + Tally(ds, None) == 0.0
    ensures TotalAmount(SettlePlan(cs, ds)) <= Tally(cs, None)
  {
    if |cs| == 1 {
      assert cs == [cs[0]];
      TallyOne(cs[0], None);
      SingleCreditorTotal(cs[0], ds);
    } else {
      var m := MatchAll(cs, ds);
      var uc := Unmatched(cs, m.surplusSet);
      var (rc, rd) := Residual(cs, ds);
      MatchAllPays(cs, ds);
      forall e | e in uc ensures e in cs {
        UnmatchedMembers(cs, m.surplusSet, e);
      }
      SignsOfMembers(uc, cs);
      SortKeepsEntries(uc, true);
      SortByBalanceCorrect(uc, true, None);
      SettleTotalBound(rc, rd);
      MatchedSplit(cs, m.surplusSet, None);
      TotalAmountConcat(m.txs, Settle(rc, rd));
    }
  }

  /** With no repeated entry, the plan pays out exactly what the creditors are owed. */
  lemma SettlePlanTotalExact(cs: seq<Contribution>, ds: seq<Contribution>)
    requires AllPositive(cs) && AllNegative(ds) && NoDuplicates(cs) && NoDuplicates(ds)
    requires Tally(cs, None) + Tally(ds, None) == 0.0
    ensures TotalAmount(SettlePlan(cs, ds)) == Tally(cs, None)
  {
    if |cs| == 1 {
      assert cs == [cs[0]];
      TallyOne(cs[0], None);
      SingleCreditorTotal(cs[0], ds);
    } else {
      var m := MatchAll(cs, ds);
      var uc := Unmatched(cs, m.surplusSet);
      var (rc, rd) := Residual(cs, ds);
      MatchAllPays(cs, ds);
      ResidualBalances(cs, ds);
      SettleTotalExact(rc, rd);
      SortByBalanceCorrect(uc, true, None);
      MatchedSplit(cs, m.surplusSet, None);
      TotalAmountConcat(m.txs, Settle(rc, rd));
    }
  }

  /**
   * Two creditors with the same name and balance share one mark: the
   * first is matched, the second is dropped unmatched along with it, and
   * its debtor twin is never paid.
   */
  lemma DuplicateShortfall()
    ensures SettlePlan([Contribution("A", 10.0), Contribution("A", 10.0)],
                       [Contribution("B", -10.0), Contribution("B", -10.0)])
      == [Transaction("B", "A", 10.0)]
    ensures NetOut([Transaction("B", "A", 10.0)], Some("B")) == 10.0
    ensures Tally([Contribution("B", -10.0), Contribution("B", -10.0)], Some("B")) == -20.0
  {
    var a, b := Contribution("A", 10.0), Contribution("B", -10.0);
    var m1 := MatchState([Transaction("B", "A", 10.0)], {a}, {b});
    assert ScanDebts(a, [b], MatchState([], {}, {})) == m1;
    assert ScanDebts(a, [b, b], MatchState([], {}, {})) == m1;
    assert MatchAll([a], [b, b]) == m1;
    assert ScanDebts(a, [b], m1) == m1;
    assert ScanDebts(a, [b, b], m1) == m1;
    assert [a, a][..1] == [a];
    assert MatchAll([a, a], [b, b]) == m1;
    assert Unmatched([a], {a}) == [];
    assert Unmatched([a, a], {a}) == [];
    assert Unmatched([b], {b}) == [];
    assert Unmatched([b, b], {b}) == [];
    assert [Transaction("B", "A", 10.0)][..0] == [];
    assert [b, b][..1] == [b];
  }
}

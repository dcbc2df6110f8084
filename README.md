# Expense calculator: who pays whom

This project is a Dafny model of the expense splitter in a personal portfolio web app. It proves properties of that model.

A group types one line per person: a name, whitespace, and the amount that person paid. The calculator works out the fair share, which is the mean amount. It then plans a list of transfers, each of the form (debtor, creditor, amount). Once those transfers are made, everybody has paid the same, provided no two lines carry both the same name and the same amount.

The planner has four stages:

1. Everybody who paid exactly the fair share is dropped.
2. Each person's balance (amount paid minus the share) is put in one of two lists: creditors (positive) or debtors (negative).
3. If there is exactly one creditor, every debtor pays that creditor what they owe. Otherwise the planner:
   - first pairs each creditor with the first unmatched debtor whose debt is exactly the creditor's surplus;
   - sorts what is left (creditors by largest surplus, debtors by largest debt);
   - runs a two-cursor pass that pays off whichever of the current creditor or debtor is smaller.
4. A diagnostic trace of every intermediate list is kept alongside.

The model has these files:

- `wrappers.dfy`: `Option` and `Result`.
- `text.dfy` (module `Text`): the text primitives the reader uses.
  - Splitting into lines, which drops one carriage return before each line feed.
  - Splitting into whitespace-separated words, using Unicode's White_Space set.
  - The decimal number grammar, read as an exact rational.
- `ledger.dfy` (module `Ledger`): the data and the first stages.
  - Contributions and transfers.
  - Tallies per name (`who: Option<string>`, where `None` means everybody).
  - The fair share, `retain`, and the split into creditors and debtors.
- `input.dfy` (module `Input`): the line-by-line reader, which stops at the first bad line.
- `planner.dfy` (module `Planner`): the three ways to plan the transfers, as pure functions, with their properties.
  - The single-creditor plan.
  - The exact-pair matching pass, with its two hash sets modelled as value sets.
  - The sort and the two-cursor pass.
- `expense_calculator.dfy` (module `ExpenseCalculator`): the object itself.
  - A class with the four fields of `ExpenseCalculatorApp`.
  - One loop method per loop of `find_contributions`, each proved equal to the function that defines it.
  - The end-to-end properties of the transfers it records.
- `scenarios.dfy` (module `Scenarios`): worked inputs, proved outright.

Amounts are exact reals and a transfer is `Transaction(from, to, amount)`, with `from` the payer.

The main result is that after the transfers, everybody's position is the fair share whenever no balance is repeated. `SettlementReachesFairShare` proves this for every name, and for everybody together: each person's contribution, plus what they pay out in transfers, minus what they receive, equals `Owed`, their count of entries times the fair share. The proof assumes `DistinctBalances`: among the lines above the fair share, and among those below it, no two carry both the same name and the same amount. Identical lines at exactly the fair share are harmless, since they are dropped before any balance is formed (`RepeatedSettledLinesScenario`); `NoDuplicates`, no repeated line at all, implies it (`ClassesHaveNoDuplicates`). The exact-pair pass marks entries in a hash set keyed by name and amount. Two identical lines are therefore one key, and one payment can settle both; `DuplicateShortfall` and `DuplicateEntriesScenario` show the debt that then goes unpaid. A repeat does not always break conservation: the loss comes from the exact-pair pass. In `RepeatedBalanceScenario` (`A 30, A 30, B 0`) no debtor matches the repeated balance, the two-cursor pass pays both A lines, and conservation holds.

`find_contributions` is a single method in the source. Here it is split into `ReadContributions` (lines 45-63), `PlanTransfers` (lines 65-110) and `RecordPlan` (lines 112-206). `FindContributions` calls them in order. The loop of `RecordPlan` is split further: each round of the two-cursor loop is `SettleRound`, called by `SettleResidual`.

## Model

| member | source | states |
|---|---|---|
| Ledger.Contribution.Update | src/app/expense_calculator.rs:28-30 | updating keeps the name and adds exactly `delta` to the amount |
| Input.ParsedExactly | src/app/expense_calculator.rs:45-63 | reading succeeds if and only if every line reads as a contribution; it then gives one contribution per line, in order |
| Input.FailedAtFirstBadLine | src/app/expense_calculator.rs:45-63 | a failed read names the first bad line and its error; every line before it read, and the kept contributions are exactly those lines |
| Input.ParseLinesStep | src/app/expense_calculator.rs:46-62 | one more line either appends its contribution or fails at that line with the contributions so far |
| Input.ParseLinesStopsAt | src/app/expense_calculator.rs:50-59 | once a prefix of the lines fails, no later line changes the outcome (the early `return`) |
| Input.BlankLineIsIncomplete | src/app/expense_calculator.rs:47-51 | an empty or all-whitespace line is reported as incomplete data |
| Input.ParseLineRoundTrip | src/app/expense_calculator.rs:47-62 | a name, a space and a numeral reads back as that name with that number |
| Input.ParseInputRoundTrip | src/app/expense_calculator.rs:45-63 | printing whole-number entries one per line and reading the text gives back exactly those entries |
| Input.EntryLineReads | src/app/expense_calculator.rs:47-62 | one printed entry is a single line and reads back as that entry |
| Text.LinesUnlines | src/app/expense_calculator.rs:46 | splitting joined lines into lines gives the lines back, for lines without a line feed or trailing carriage return |
| Text.LinesHaveNoLineFeed | src/app/expense_calculator.rs:46 | no line produced by the split contains a line feed |
| Text.TokensUnwords | src/app/expense_calculator.rs:47 | splitting space-joined words at whitespace gives the words back |
| Text.TokensAreWords | src/app/expense_calculator.rs:47 | every token is non-empty and free of whitespace |
| Text.NumeralParses | src/app/expense_calculator.rs:55 | a decimal numeral, with or without a minus sign, reads as its value |
| Text.DecimalValue | src/app/expense_calculator.rs:55 | `whole.fraction` reads as the whole part plus the fraction digits over a power of ten |
| Ledger.FairShareTimesCount | src/app/expense_calculator.rs:67-77 | the fair share times the number of entries is the total paid |
| Ledger.FairShareOfOne | src/app/expense_calculator.rs:67-77 | a lone contributor's fair share is what they paid |
| Ledger.EqualAmountsFairShare | src/app/expense_calculator.rs:67-77 | when everyone paid the same, the fair share is that amount |
| Ledger.RetainKeepsClasses | src/app/expense_calculator.rs:82-105 | dropping the entries at the fair share changes neither list of balances, and what remains is exactly the creditors plus the debtors |
| Ledger.RetainAllAtTarget | src/app/expense_calculator.rs:82-83 | if every entry is at the target, no entry remains |
| Ledger.RetainShrinks | src/app/expense_calculator.rs:82-83 | retaining never adds entries |
| Ledger.SurplusMembers | src/app/expense_calculator.rs:88-96 | a balance is in the creditor list if and only if it is positive and comes from an entry with that name paying share plus balance |
| Ledger.DebtsMembers | src/app/expense_calculator.rs:97-105 | a balance is in the debtor list if and only if it is negative and comes from an entry with that name paying share plus balance |
| Ledger.SurplusIsPositive | src/app/expense_calculator.rs:88-96 | every creditor balance is strictly positive |
| Ledger.DebtsAreNegative | src/app/expense_calculator.rs:97-105 | every debtor balance is strictly negative |
| Ledger.ClassesTally | src/app/expense_calculator.rs:88-105 | per name, creditor balances plus debtor balances add up to all balances |
| Ledger.BalancesTally | src/app/expense_calculator.rs:88-105 | per name, the balances add up to what was paid less what is owed |
| Ledger.BalancesCancel | src/app/expense_calculator.rs:67-105 | at the fair share the balances, and so creditors plus debtors, add up to zero |
| Ledger.ClassesHaveNoDuplicates | src/app/expense_calculator.rs:88-105 | with no repeated entries in the input, neither list of balances repeats an entry, so `DistinctBalances` holds at every target |
| ExpenseCalculator.ClassifyEntries | src/app/expense_calculator.rs:88-105 | the two loops build exactly the creditor and debtor lists |
| Planner.SingleCreditorPlanAt | src/app/expense_calculator.rs:115-123 | with one creditor, the i-th transfer is the i-th debtor paying the creditor their whole debt |
| Planner.SingleCreditorTotal | src/app/expense_calculator.rs:115-123 | the single-creditor transfers add up to exactly the debtors' total debt |
| Planner.SingleCreditorConserves | src/app/expense_calculator.rs:115-123 | when the creditor's surplus equals the total debt, every name's net payout cancels its balance |
| Planner.SingleCreditorTransfers | src/app/expense_calculator.rs:115-123 | single-creditor transfers are positive, go from a debtor and go to the creditor |
| ExpenseCalculator.PaySingleCreditor | src/app/expense_calculator.rs:116-122 | the loop records exactly the single-creditor plan |
| ExpenseCalculator.SingleCreditorSettlement | src/app/expense_calculator.rs:115-123 | when one person paid above the fair share, the recorded transfers are each debtor paying that person, in input order |
| Planner.MatchAllSound | src/app/expense_calculator.rs:133-150 | every matched entry comes from its list; every match pays off a creditor and debtor of equal size, debtor to creditor; there are as many marks on each side as matches |
| Planner.ScanDebtsFirstFit | src/app/expense_calculator.rs:134-149 | an unmatched creditor is paired with the first unmatched debtor of exactly its size, and with no other: one transfer of its surplus, both marked |
| Planner.ScanDebtsNoFit | src/app/expense_calculator.rs:134-149 | when no debtor fits, for instance because the creditor is already matched, the inner loop records nothing and marks nothing |
| Planner.MatchAllPays | src/app/expense_calculator.rs:133-150 | the exact matches add up to at most the amounts of the matched creditor entries, and with no repeated creditor to exactly that |
| Planner.MatchPrefixExhausts | src/app/expense_calculator.rs:133-150 | after the pass, each creditor is matched or no unmatched debtor has exactly its size |
| Planner.MatchAllConserves | src/app/expense_calculator.rs:133-165 | with no repeated entries, the matches pay per name exactly what the matched balances cancel, and each side loses one entry per match |
| Planner.NoExactPairLeft | src/app/expense_calculator.rs:133-165 | no creditor and debtor left after matching are of equal size |
| ExpenseCalculator.MatchExactPairs | src/app/expense_calculator.rs:125-150 | the nested loops compute the first-fit matching: its transfers and both hash sets |
| Planner.UnmatchedMembers | src/app/expense_calculator.rs:152-165 | an entry survives the filter if and only if it was in the list and is not in the set |
| Planner.MatchedSplit | src/app/expense_calculator.rs:152-165 | matched and unmatched parts add up to the list, both per name and in length |
| ExpenseCalculator.DropMatched | src/app/expense_calculator.rs:152-165 | the filtering loop keeps exactly the unmatched entries, in order |
| Planner.SortByBalanceCorrect | src/app/expense_calculator.rs:167-170 | sorting orders creditors largest first and debtors most negative first, is a permutation, and keeps every name's total |
| Planner.SortByBalanceStable | src/app/expense_calculator.rs:167-170 | for every balance, the entries with that balance keep their input order |
| Planner.SortKeepsMembers | src/app/expense_calculator.rs:167-170 | sorting keeps the length and exactly the same entries |
| Planner.SortKeepsEntries | src/app/expense_calculator.rs:167-170 | sorting keeps the signs of the entries and their set of names |
| Planner.SettleConserves | src/app/expense_calculator.rs:179-204 | on balancing lists, the two-cursor transfers make every name's net payout cancel its balances |
| Planner.SettleTransfers | src/app/expense_calculator.rs:179-204 | two-cursor transfers are never negative and always go from a debtor to a creditor |
| Planner.SettleTotalBound | src/app/expense_calculator.rs:179-204 | with non-negative creditors, the two-cursor transfers add up to at most what the creditors are owed |
| Planner.SettleTotalExact | src/app/expense_calculator.rs:179-204 | on balancing lists, the two-cursor transfers add up to exactly what the creditors are owed |
| Planner.SettleLength | src/app/expense_calculator.rs:179-204 | the pass makes no transfers if either list is empty, and otherwise at most creditors plus debtors minus one |
| Planner.ZeroTransferExample | src/app/expense_calculator.rs:187-202 | a debtor exactly covering the current creditor's remainder produces a transfer of 0 before moving on |
| Planner.CreditorStepBalanced | src/app/expense_calculator.rs:187-194 | when the creditor runs out first, the lists still balance and the debtor stays negative |
| Planner.DebtorStepBalanced | src/app/expense_calculator.rs:195-203 | when the debtor runs out first, the lists still balance and the creditor stays non-negative |
| ExpenseCalculator.SettleResidual | src/app/expense_calculator.rs:179-204 | the loop records the two-cursor transfers with one side exhausted; on balancing lists nobody is left owing and every creditor left is at 0 |
| ExpenseCalculator.SettleRound | src/app/expense_calculator.rs:185-203 | one round records the next two-cursor transfer, moves exactly one cursor forward and keeps the lists balanced |
| ExpenseCalculator.CreditorRound | src/app/expense_calculator.rs:187-194 | in place, the creditor branch pays the surplus, reduces the debt by it and keeps the remainders balanced |
| ExpenseCalculator.DebtorRound | src/app/expense_calculator.rs:195-203 | in place, the debtor branch pays the debt, reduces the surplus by it and keeps the remainders balanced |
| ExpenseCalculator.SettledLeftovers | src/app/expense_calculator.rs:182-204 | when the loop stops on balancing lists, no debtor is left and any creditors left are at 0 |
| Planner.ResidualBalances | src/app/expense_calculator.rs:152-170 | with no repeated entries, the sorted leftovers of matching still balance each other |
| Planner.SettlePlanConserves | src/app/expense_calculator.rs:112-204 | with no repeated entries, the whole plan makes every name's net payout cancel its balances |
| Planner.SettlePlanTransfers | src/app/expense_calculator.rs:112-204 | every planned transfer is non-negative and goes from a debtor to a creditor |
| Planner.SettlePlanLength | src/app/expense_calculator.rs:112-204 | for any lists, repeated entries included, the plan is empty when a side is empty and otherwise has at most creditors plus debtors minus one transfers |
| Planner.SettlePlanTotalBound | src/app/expense_calculator.rs:112-204 | on balancing lists, the plan's transfers add up to at most what the creditors are owed |
| Planner.SettlePlanTotalExact | src/app/expense_calculator.rs:112-204 | with no repeated entries, the plan's transfers add up to exactly what the creditors are owed |
| Planner.DuplicateShortfall | src/app/expense_calculator.rs:13-25 | two identical creditor lines and two identical debtor lines collapse to one hash-set key, so only one of the two debts is paid |
| ExpenseCalculator.ExpenseCalculatorApp.constructor | src/app/expense_calculator.rs:33-39 | a new calculator has empty input, contributions, output and history |
| ExpenseCalculator.ExpenseCalculatorApp.FindContributions | src/app/expense_calculator.rs:42-207 | on a bad line: output empty, contributions the lines before it, history unchanged; otherwise: contributions the retained entries, history the planned transfers, output the full trace |
| ExpenseCalculator.ExpenseCalculatorApp.ReadContributions | src/app/expense_calculator.rs:45-63 | reports completion if and only if the text reads; contributions are then the entries, and otherwise the entries before the bad line |
| ExpenseCalculator.ExpenseCalculatorApp.PlanTransfers | src/app/expense_calculator.rs:65-110 | contributions become the retained entries, history the planned transfers, and the trace is extended by the entries, share and both lists |
| ExpenseCalculator.ExpenseCalculatorApp.RecordPlan | src/app/expense_calculator.rs:112-206 | history becomes the plan for the given creditors and debtors, and the trace is extended with the leftovers and the history |
| ExpenseCalculator.SettlementReachesFairShare | src/app/expense_calculator.rs:42-207 | when neither list of balances repeats an entry, for any name or everybody: what was contributed, plus what is paid out in transfers, minus what is received, equals the fair share times the number of entries |
| ExpenseCalculator.SettlementConserves | src/app/expense_calculator.rs:42-207 | when neither list of balances repeats an entry, every name's net payout over the recorded transfers is minus its total balance |
| ExpenseCalculator.PlanConservesAt | src/app/expense_calculator.rs:82-206 | for any target at which the two lists balance and neither list of balances repeats an entry, the plan cancels every name's balances at that target |
| ExpenseCalculator.SettlementTransfers | src/app/expense_calculator.rs:88-204 | every recorded transfer is non-negative, from someone who paid below the fair share, to someone who paid above it |
| ExpenseCalculator.NoSelfPayment | src/app/expense_calculator.rs:88-204 | when names are unique, nobody pays themself |
| ExpenseCalculator.SettlementLength | src/app/expense_calculator.rs:42-207 | for every input, repeated lines included, there are fewer transfers than entries, unless there are no entries |
| ExpenseCalculator.SettlementTotal | src/app/expense_calculator.rs:42-207 | the recorded transfers add up to at most the total surplus above the fair share, and to exactly that when neither list of balances repeats an entry |
| ExpenseCalculator.BalancedInputNeedsNoTransfers | src/app/expense_calculator.rs:67-83 | when everyone paid the same, no entry is retained and no transfer is recorded |
| Scenarios.OneCreditorScenario | src/app/expense_calculator.rs:115-123 | `A 100, B 0, C 0` gives B and C each paying A one third of 100 |
| Scenarios.RepeatedBalanceScenario | src/app/expense_calculator.rs:112-204 | `A 30, A 30, B 0` repeats a balance, yet B pays each A line 10 in the two-cursor pass and every name's net payout cancels its balance |
| Scenarios.RepeatedSettledLinesScenario | src/app/expense_calculator.rs:82-123 | `A 10, A 10, B 0, C 20` repeats a line, yet no balance repeats: both A lines are dropped and B pays C 10 |
| Scenarios.SettledEntriesDroppedScenario | src/app/expense_calculator.rs:82-123 | `A 50, B 50, C 0, D 100`: A and B are dropped, and C pays D 50 |
| Scenarios.ExactMatchScenario | src/app/expense_calculator.rs:125-150 | `A 90, B 60, C 30, D 0` gives D pays A 45, then C pays B 15, with nothing left for the two-cursor pass |
| Scenarios.DuplicateEntriesScenario | src/app/expense_calculator.rs:126-165 | `A 20, A 20, B 0, B 0` records one payment of 10 from B to A, although B's lines owe 20 |
| Scenarios.IncompleteLineScenario | src/app/expense_calculator.rs:46-51 | a good line followed by a one-word line fails at line 1 with incomplete data, keeping the first entry |
| Scenarios.NotANumberScenario | src/app/expense_calculator.rs:55-60 | a single line whose second word is not a number fails at line 0 as not a number, with nothing kept |
| Scenarios.TenIsNotANumber | src/app/expense_calculator.rs:55 | the word `ten` is not a number |

## Left out

- Floating point: amounts are `f32` in the source and exact reals here.
  - Rounding in the sum, the mean and the subtractions is not modelled.
  - Overflow to infinity is not modelled.
  - The `partial_cmp(...).unwrap()` panic on NaN (lines 168 and 170) cannot arise without NaN.
- Text.ParseNumber: this is the decimal grammar of Rust's `f32` parser, read exactly.
  - The words `inf`, `infinity` and `nan` are rejected here; the source accepts them.
  - A literal too large for `f32` reads as its exact value, where the source reads infinity.
- Output: `self.output` is the `Debug` rendering of the intermediate lists. Here it is a sequence of `TraceEntry` values holding those same lists. The text formatting itself is not modelled.
- `eprintln!` diagnostics (lines 49 and 58) are not modelled. The error kind is kept in the parse outcome instead.
- `serde` serialisation is not modelled, and `Default` is modelled as the constructor.
- `Hash` for `Contribution` (lines 21-25) formats name and amount into one string. The model keys the hash sets by the value itself, which is exactly `PartialEq`.
  - Two different entries whose formatted strings coincide (name `A1` paying 0 against name `A` paying 10) only share a bucket. They are still told apart by `Eq`, so nothing is lost.
- `index_to_remove` (lines 125 and 147) is written but never read, so it is not modelled. The clones at lines 129-130 are implicit in value semantics.
- Planner.SortByBalance is an insertion sort, not Rust's merge sort. Both are stable: `Planner.SortByBalanceStable` proves that entries with equal balances keep their input order, as `sort_by` documents. The model does not prove that a sorted, stable permutation is unique, so that the two sorts give the same list is argued here, not proved.
- In-place vector updates in the two-cursor loop are updates of `seq` values held in local variables. The model does not capture aliasing, because the source has none.
- The user-interface files `src/app.rs`, `src/app/graphing_calculator.rs`, `src/app/http_app.rs` and `src/app/projects.rs` are not part of this model.
- ExpenseCalculator.SettlementConserves: requires `DistinctBalances` at the fair share, that is, no two lines above it and no two lines below it carry the same name and amount. With such a repeat the property can fail. If the exact-pair pass matches the repeated balance, the value-keyed hash sets of lines 133-165 mark both identical entries with one key, so the twin is dropped unpaid (Planner.DuplicateShortfall, Scenarios.DuplicateEntriesScenario). A repeat that the exact-pair pass does not match still conserves (Scenarios.RepeatedBalanceScenario), but the model states no weaker precondition that tells the two cases apart. Repeats exactly at the fair share are allowed.
- ExpenseCalculator.SettlementReachesFairShare: same precondition as SettlementConserves, for the same reason.
- ExpenseCalculator.PlanConservesAt: requires `DistinctBalances` at its target, for the same reason.
- ExpenseCalculator.NoSelfPayment: requires unique names. With a repeated name at different amounts, a person can be both a creditor and a debtor.
- Scenarios.IncompleteLineScenario: stated for any two words rather than one literal text.
- Scenarios.NotANumberScenario: stated for any word that is not a number; Scenarios.TenIsNotANumber gives one such word.
- The reader is a function of the text, so reading the same input twice trivially gives the same entries. No separate idempotence lemma is stated.

## Behaviour worth knowing

- On a bad line the method returns early. Contributions keep the lines read so far, the output is empty, and the transaction history is left as it was.
- An empty or all-whitespace line counts as incomplete data; it is not skipped.
- Comparisons with the fair share, and between balances, are exact equalities, with no tolerance.
- Transfers can be 0. The two-cursor pass records a transfer of 0 when a debtor exactly covers what the current creditor still has to receive, because the creditor stays at the cursor with nothing left (`Planner.ZeroTransferExample`).
- A person can pay themself only when their name is on two lines with different amounts. With unique names nobody does (`ExpenseCalculator.NoSelfPayment`).
- With four people paying 90, 60, 30 and 0, the transfers come out in the order "D pays A 45, then C pays B 15" (`Scenarios.ExactMatchScenario`).
- When one person paid 100 and two paid nothing, there is one creditor, so both debtors pay that person directly and exact matching is never tried (`Scenarios.OneCreditorScenario`).
- Conservation: contributed + paid out − received = fair share × entries, for each name, provided no two lines above the fair share and no two lines below it carry both the same name and the same amount (`ExpenseCalculator.SettlementReachesFairShare`). Equivalently, each name's net payout cancels its balance.
- The transfers add up to at most the total surplus above the fair share, and to exactly that under the same proviso (`ExpenseCalculator.SettlementTotal`).

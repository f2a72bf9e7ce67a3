# A verified model of the zkMIPS prover's lookup, SHA-extend and recursion bookkeeping

This project models four parts of the zkMIPS STARK prover in Dafny and proves properties about them.

1. **The log-derivative cross-table lookup engine**, `prover/src/cross_table_lookup.rs`.
   - A `Column` is a linear combination of cells of a row and the next, plus a constant. A `Filter` is a sum of column products plus a sum of columns. `GrandProductChallenge::combine` computes `Σ βⁱ·vᵢ + γ`.
   - `get_helper_cols` groups (columns, filter) pairs into chunks of `constraint_degree − 1`. It inverts the combined value of every selected row and sums the inverses of each chunk into a helper column.
   - `partial_sums` builds the reverse-cumulative Z column from the helpers.
   - The native checker (`eval_helper_columns`, `eval_cross_table_lookup_checks`) restates these relations without division. The model proves the round trip: the prover's helpers and Z make every constraint the checker emits vanish.
   - Also modelled:
     - `cross_table_lookup_data`, with its per-table pushes;
     - `num_ctl_helper_columns_by_table` and `num_ctl_helpers_zs_all`;
     - `verify_cross_table_lookups`, with its per-table opening iterators;
     - the multiset oracle `check_ctl`.
2. **The older grand-product engine**, `src/cross_table_lookup.rs`. It is kept as a separate set of modules.
   - `partial_products` is a reverse running product.
   - The checker works with `select = f·combine + 1 − f`, and the model proves that its constraints hold exactly on the column `partial_products` computes.
   - `verify_cross_table_lookups` multiplies the looking Z values and an extra factor.
   - `num_ctl_zs`, `cross_table_lookup_data` and `check_ctl` are modelled too.
3. **The SHA-256 message-schedule extension table**, `prover/src/sha_extend_sponge/sha_extend_sponge_stark.rs`.
   - `compute_w_i` is modelled on `bv32` words. It is the schedule recurrence of section 6.2.2 of FIPS 180-4, with σ0 and σ1 as in section 4.1.2.
   - `generate_rows_for_op` and `generate_trace_rows` build the trace.
   - `eval_packed_generic` is modelled as a predicate on a row and the next row.
   - The model proves that the trace of a full 48-step schedule satisfies every constraint, and that each row holds the right schedule word.
4. **Recursive-circuit bookkeeping**, `prover/src/fixed_recursive_verifier.rs`. The model covers:
   - the shrinking loop down to `THRESHOLD_DEGREE_BITS`;
   - `final_circuits`, the verifier-key padding and the size-to-index lookup of `prove_root`;
   - the public values, claims and assumption merge of `prove_aggregation` and `prove_block`;
   - the aggregation and root wiring predicates;
   - the length-prefixed `to_buffer`/`from_buffer` layouts.

All arithmetic is in the Goldilocks field, integers modulo `2^64 − 2^32 + 1` (module `Goldilocks`). Challenges are inputs. Field inversion is a parameter `inv` whose contract is that it inverts every nonzero element. Panics named by the source (a non-binary filter, a column-count mismatch, a shrinking assertion, an unsupported chunk size) are error results. Panics from plain indexing or `unwrap` become preconditions. Circuits, proofs and verifier data are type parameters, and the operations on them that this model does not see are function parameters.

Files:

| file | modules |
|---|---|
| `field.dfy` | `Goldilocks` |
| `wrappers.dfy` | `Wrappers` (`Option`, `Result`) |
| `math.dfy` | `MathUtil` |
| `columns.dfy`, `columns_facts.dfy` | `Columns`, `ColumnFacts`: `Column`, `Filter`, `combine` |
| `per_table.dfy` | `PerTable`: per-table push bookkeeping |
| `logup.dfy`, `logup_checker.dfy`, `logup_proofs.dfy` | `LogUp`, `LogUpChecker`, `LogUpProofs` |
| `logup_data.dfy`, `logup_tables.dfy`, `logup_verify.dfy` | `LogUpData`, `LogUpTables`, `LogUpVerify` |
| `ctl_oracle.dfy` | `CtlOracle`: `check_ctl` |
| `grand_product*.dfy` | `GrandProduct`, `GrandProductData`, `GrandProductOracle`, `GrandProductVerify` |
| `sha_words.dfy`, `sha_extend_sponge.dfy`, `sha_extend_sponge_tests.dfy` | `ShaWords`, `ShaExtendSponge`, `ShaExtendSpongeTests` |
| `ordered_map.dfy`, `serialization.dfy`, `recursive_circuits.dfy` | `OrderedMap`, `Serialization`, `RecursiveCircuits` |

## Model

| member | source | states |
|---|---|---|
| ColumnFacts.EvalTableIsOpening | prover/src/cross_table_lookup.rs:266-285 | `Column::eval_table` on row `row` is `eval_with_next` on that row and the next, the next row read as zeros past the last row; on the last row it is the current-row terms plus the constant alone |
| ColumnFacts.CurrentRowOnlyIgnoresNext | prover/src/cross_table_lookup.rs:248-264 | a column without next-row terms evaluates the same whatever next row it is given |
| ColumnFacts.FilterCurrentRowOnlyIgnoresNext | prover/src/cross_table_lookup.rs:56-72 | the same for a filter built only from such columns |
| ColumnFacts.WrappedNextRowBeforeLast | prover/src/cross_table_lookup.rs:266-285 | before the last row, the next row of the STARK opening is the next row `eval_table` reads |
| ColumnFacts.FilterEvalTableIsOpening | prover/src/cross_table_lookup.rs:105-115 | `Filter::eval_table` is `eval_filter` on the opening of the row and the next row: the sum of the column products plus the sum of the single columns |
| ColumnFacts.NewSimpleFilterEvaluates | prover/src/cross_table_lookup.rs:48-70 | a filter built by `new_simple(col)` evaluates to `col` |
| ColumnFacts.ConstructorsEvaluate | prover/src/cross_table_lookup.rs:127-169 | `single(c)` reads cell `c`, `single_next_row(c)` reads next-row cell `c`, `constant(x)` is `x`, `zero()` is 0 and `one()` is 1 |
| ColumnFacts.LinearCombinationEvaluates | prover/src/cross_table_lookup.rs:171-218 | `linear_combination(lc)` evaluates to `Σ v[c]·f` over its pairs |
| ColumnFacts.LeBitsEvaluates | prover/src/cross_table_lookup.rs:220-222 | `le_bits(cs)` evaluates to `Σ v[cs[i]]·2^i` |
| ColumnFacts.LeBytesEvaluates | prover/src/cross_table_lookup.rs:224-230 | `le_bytes(cs)` evaluates to `Σ v[cs[i]]·256^i` |
| ColumnFacts.SumOfEvaluates | prover/src/cross_table_lookup.rs:232-234 | `sum(cs)` evaluates to the sum of the selected cells |
| Columns.EvalAllRows | prover/src/cross_table_lookup.rs:287-292 | one value per row, value `row` being `eval_table` at `row` |
| ColumnFacts.ReduceIsPowerSum | prover/src/cross_table_lookup.rs:493-504 | Horner evaluation of the reversed terms (`reduce_with_powers`) equals `Σ terms[i]·β^i` |
| ColumnFacts.CombineIsPowerSum | prover/src/cross_table_lookup.rs:493-504 | `combine(v) = Σ β^i·v[i] + γ` |
| CtlOracle.FileRows | prover/src/cross_table_lookup.rs:1545-1562 | the loop over rows succeeds exactly when every filter value is 0 or 1, and then files each selected row under its vector, in row order; otherwise it returns the index of a non-binary filter |
| CtlOracle.ProcessTable | prover/src/cross_table_lookup.rs:1538-1563 | Ok exactly when the table's filter is binary on every row; then the map files exactly the table's selected rows on top of the given map; otherwise the error names the table and a row with a non-binary filter |
| CtlOracle.ProcessLooking | prover/src/cross_table_lookup.rs:1519-1521 | Ok exactly when every looking table's filter is binary; then the map files the selected rows of all looking tables, table after table |
| CtlOracle.FindMismatch | prover/src/cross_table_lookup.rs:1524-1533 | no vector is reported exactly when every key of the first map has as many locations in the second; a reported vector is a key whose counts differ |
| CtlOracle.OccurrencesCount | prover/src/cross_table_lookup.rs:1514-1515 | the number of locations filed under a vector is its multiplicity in the multiset of selected vectors |
| CtlOracle.SameCountsIffSameMultiset | prover/src/cross_table_lookup.rs:1514-1515 | equal counts for every vector is equality of the looking and looked multisets of selected vectors |
| CtlOracle.CtlHoldsIffSameMultiset | prover/src/cross_table_lookup.rs:1505-1535 | the lookup holds exactly when all filters are binary and both sides select the same multiset of row vectors |
| CtlOracle.CheckCtl | prover/src/cross_table_lookup.rs:1505-1535 | passes exactly when the lookup holds; a count mismatch reports a vector with its two differing counts; a filter error means some filter is not binary |
| CtlOracle.CheckCtls | prover/src/cross_table_lookup.rs:1496-1503 | passes exactly when every lookup holds; otherwise the reported index names a lookup that does not hold |
| LogUp.NewCrossTableLookup | prover/src/cross_table_lookup.rs:371-386 | a lookup is built exactly when every looking table has as many columns as the looked table, and it keeps both sides unchanged |
| LogUp.HelperColumns | prover/src/cross_table_lookup.rs:709-717 | the reference helper columns: `ceil(k / size)` of them, each with one entry per row |
| LogUp.HelperColumnEntry | prover/src/cross_table_lookup.rs:720-796 | entry `d` of helper column `j` is the sum over the pairs `size·j ..` of the `j`-th chunk of `1/combine` on selected rows and 0 on the others |
| LogUp.UnselectedRowIsZero | prover/src/cross_table_lookup.rs:748-753 | a row on which no pair of the chunk is selected holds 0 in the chunk's helper column |
| LogUp.BatchInverse | prover/src/cross_table_lookup.rs:748 | `batch_multiplicative_inverse` as an element-wise inverse, given by contract |
| LogUp.BatchAdd | prover/src/cross_table_lookup.rs:788 | `batch_add_inplace` as an element-wise sum |
| LogUp.FilterAndCombine | prover/src/cross_table_lookup.rs:723-746 | stops exactly when some filter value among the first `degree` rows is neither 0 nor 1; otherwise the filter column and, per row, `combine` of the evaluated columns on selected rows and the dummy 1 elsewhere |
| LogUp.ZeroUnselected | prover/src/cross_table_lookup.rs:749-753 | each entry whose filter is 0 becomes 0 and every other entry is kept |
| LogUp.InvertedColumn | prover/src/cross_table_lookup.rs:723-753 | Ok exactly when the pair's filter is binary on every row; then entry `d` is `1/combine` of row `d` when selected and 0 otherwise |
| LogUp.ChunkHelperColumn | prover/src/cross_table_lookup.rs:720-791 | Ok exactly when every filter of the chunk is binary; then the result is the chunk's reference helper column |
| LogUp.GetHelperCols | prover/src/cross_table_lookup.rs:709-799 | Ok exactly when every filter is binary (the "Non-binary filter?" assertion otherwise); then exactly the reference helper columns, `ceil(k/(deg-1))` of them |
| LogUp.ZFromHelpers | prover/src/cross_table_lookup.rs:850-864 | the reverse loop and the final reversal produce the reference Z: `Z[n-1]` is the last row sum and `Z[i] = Z[i+1] + Σ_h h[i]` |
| LogUp.PartialSums | prover/src/cross_table_lookup.rs:841-872 | Ok exactly when every filter is binary; then the helper columns followed by Z when there is more than one pair, and `[Z]` alone otherwise |
| LogUp.SuffixSumIsSum | prover/src/cross_table_lookup.rs:855-864 | Z at row `i` is the sum of the row sums from `i` to the last row |
| LogUp.ZFirstIsTotal | prover/src/cross_table_lookup.rs:855-864 | `Z[0]` is the sum of all helper values over all rows |
| LogUpData.ColumnsFiltersWith | prover/src/cross_table_lookup.rs:669-683 | the loop collects exactly the columns and filters of the looking entries naming the table, in order |
| LogUpData.RunPartialSums | prover/src/cross_table_lookup.rs:814-829 | `partial_sums` of one group of looking entries: Ok exactly when the group's filters are binary, and then its reference value |
| LogUpData.GroupsSums | prover/src/cross_table_lookup.rs:810-834 | Ok exactly when every group's filters are binary; then one `partial_sums` result per group, in order |
| LogUpData.CtlHelperZsCols | prover/src/cross_table_lookup.rs:801-835 | Ok exactly when every looking entry's filter is binary; then one result per consecutive group of looking entries (`group_by` on the table), tagged with the group's table |
| LogUpData.PushChallenge | prover/src/cross_table_lookup.rs:648-699 | Ok exactly when every filter of the lookup is binary; then each group's entry (helpers, Z, challenge, columns, filters) and then the looked table's entry is appended to the data of the table it names |
| LogUpData.PushLookup | prover/src/cross_table_lookup.rs:647-700 | the challenge loop appends the pushes of every challenge in order |
| LogUpData.CrossTableLookupData | prover/src/cross_table_lookup.rs:634-703 | Ok exactly when there are no challenges or every lookup's filters are binary; then each table's data is exactly the entries pushed to it, lookup by lookup and challenge by challenge, in push order |
| LogUpData.ChallengePushesCount | prover/src/cross_table_lookup.rs:648-699 | with looking entries grouped by table, one challenge sends each table one entry if it is looking and one if it is looked |
| LogUpData.LookupPushesCount | prover/src/cross_table_lookup.rs:647-700 | `c` challenges send a table `c` times that many entries |
| LogUpData.DataMatchesVerifier | prover/src/cross_table_lookup.rs:634-703 | with looking entries grouped by table in every lookup, each table receives exactly as many entries as `verify_cross_table_lookups` reads from it |
| LogUpData.GroupBinaryIff | prover/src/cross_table_lookup.rs:736-741 | a group's filters are binary exactly when each of its entries' filters is |
| LogUpTables.CountOfIsMultiplicity | prover/src/cross_table_lookup.rs:398-399 | the count of entries naming a table is its multiplicity among the entries' tables |
| LogUpTables.CountHelpersZs | prover/src/cross_table_lookup.rs:394-410 | the loop gives each lookup `ceil(appearances/(deg-1))` helpers when the table appears more than once (looked entry included) and 0 otherwise; the helper total is their sum and the Z total is the number of lookups the table appears in |
| LogUpTables.NumCtlHelpersZsAll | prover/src/cross_table_lookup.rs:388-415 | as above, with both totals multiplied by the number of challenges |
| LogUpTables.Runs | prover/src/cross_table_lookup.rs:620 | `group_by` on the table: non-empty runs of one table each, adjacent runs of different tables, which concatenated give back the entries |
| LogUpTables.CountRuns | prover/src/cross_table_lookup.rs:620-627 | the loop over the runs sets each table's count from its last run, `ceil(len/(deg-1))` for a run of two or more |
| LogUpTables.NumCtlHelperColumnsByTable | prover/src/cross_table_lookup.rs:607-632 | one per-table count vector per lookup, each the result of that loop over the lookup's runs |
| LogUpTables.RunCountIsCount | prover/src/cross_table_lookup.rs:620-627 | counting the entries of a table over the runs counts them over the entries |
| LogUpTables.ByTableAgrees | prover/src/cross_table_lookup.rs:388-415 | when each table's looking entries are consecutive and the looked table is not among them, both counting functions give every table the same helper count |
| LogUpVerify.FirstAppearances | prover/src/cross_table_lookup.rs:1429-1434 | the distinct tables, each once: a table occurs in the result exactly when it occurs among the looking entries |
| LogUpVerify.DistinctTables | prover/src/cross_table_lookup.rs:1429-1434 | the loop builds exactly those tables in first-appearance order |
| LogUpVerify.SumLooking | prover/src/cross_table_lookup.rs:1436-1439 | the sum of the openings at the tables' iterator positions; each distinct looking table's iterator advances by one and every other stays put |
| LogUpVerify.VerifyChallenge | prover/src/cross_table_lookup.rs:1435-1447 | Ok exactly when the looking sum equals the looked opening for that challenge; an error carries the lookup's index; the iterators move to where the next challenge starts |
| LogUpVerify.VerifyLookup | prover/src/cross_table_lookup.rs:1435-1448 | Ok exactly when every challenge of the lookup balances; the error carries the lookup's index |
| LogUpVerify.VerifyCrossTableLookups | prover/src/cross_table_lookup.rs:1415-1452 | Ok exactly when every lookup balances on every challenge; an error names the first lookup that does not; on success every iterator is consumed exactly `num_challenges · uses` times |
| LogUpVerify.ScaledUsesBeforeIsProduct | prover/src/cross_table_lookup.rs:1420-1450 | the openings consumed per table are the number of challenges times the table's uses over all lookups |
| LogUpVerify.OffsetBound | prover/src/cross_table_lookup.rs:1436-1441 | every opening read during a challenge lies below the final iterator position |
| LogUpChecker.ChunkConstraint | prover/src/cross_table_lookup.rs:1026-1053 | a constraint exists exactly for chunks of one or two column sets (`todo!` otherwise), and it applies to every row |
| LogUpChecker.EvalColumns | prover/src/cross_table_lookup.rs:1088-1095 | every column of every column set evaluated on the opening, one value per column |
| LogUpProofs.CombineTimesTerm | prover/src/cross_table_lookup.rs:733-753 | a pair's combined row times its helper contribution is its filter value, when the filter is binary and a selected row combines to a nonzero value |
| LogUpProofs.ChunkConstraintVanishes | prover/src/cross_table_lookup.rs:1026-1053 | `c0·c1·h − f0·c1 − f1·c0` and `c·h − f0` vanish when `h` is the sum of terms with `c·term = f` |
| LogUpProofs.HelperChunksVanish | prover/src/cross_table_lookup.rs:1020-1057 | every chunk constraint vanishes at a row on the helper values `get_helper_cols` computed |
| LogUpProofs.ZConstraintsVanish | prover/src/cross_table_lookup.rs:1109-1114 | on the reference Z, `Z − Σh` vanishes on the last row and `Z − Z_next − Σh` on every other row |
| LogUpProofs.ManyPairsPass | prover/src/cross_table_lookup.rs:1097-1114 | for a side with several pairs, the checker accepts the helpers and Z of `partial_sums` on every row |
| LogUpProofs.SinglePairPasses | prover/src/cross_table_lookup.rs:1137-1147 | for a single pair, `c·Z − f` vanishes on the last row and `c·(Z − Z_next) − f` on the others |
| LogUpProofs.TwoPairsWithoutHelpersPass | prover/src/cross_table_lookup.rs:1115-1136 | the branch for two column sets without helpers accepts the Z that sums both pairs' contributions row by row; no `partial_sums` output reaches this branch, since for more than one pair it returns helper columns before Z |
| LogUpProofs.PartialSumsPassChecker | prover/src/cross_table_lookup.rs:1067-1150 | round trip: with binary filters, nonzero combined selected rows and chunk sizes 1 or 2, the helpers and Z of `partial_sums` make every constraint the checker emits vanish on every row |
| LogUpProofs.PartialSumsPassCheckerOnTrace | prover/src/cross_table_lookup.rs:1067-1150 | the same on the opening `eval_table` computes: each row and the next, with zeros past the last row |
| LogUpProofs.PartialSumsPassCheckerOnStarkRows | prover/src/cross_table_lookup.rs:1067-1150 | the same on the STARK opening, where the first row follows the last; at the last row it requires that this opening shows the checker the values the prover computed there |
| LogUpProofs.OpensAtStarkRows | prover/src/cross_table_lookup.rs:1079 | every row but the last opens the pairs on the STARK opening as `eval_table` computes them; the last row does so under the condition above |
| LogUpProofs.CurrentRowOnlyOpensWrapped | prover/src/cross_table_lookup.rs:56-72 | when no column or filter reads the next row, the last row meets that condition |
| GrandProduct.LeBytesEvaluates | src/cross_table_lookup.rs:135-141 | `le_bytes` of this engine weighs the selected cells by the powers of 32 and evaluates to their little-endian base-32 value |
| GrandProduct.NewCrossTableLookup | src/cross_table_lookup.rs:275-290 | a lookup is built exactly when every looking table has as many columns as the looked table, and it holds the given sides |
| GrandProduct.PartialProducts | src/cross_table_lookup.rs:506-534 | succeeds exactly when the filter is 0 or 1 on every row; the column it returns is the reference running product from each row to the last |
| GrandProduct.MultiplyRow | src/cross_table_lookup.rs:516-530 | one loop step fails exactly on a non-binary filter and otherwise multiplies the running product by the row's factor |
| GrandProduct.ProductColumnAt | src/cross_table_lookup.rs:506-534 | entry `k` of the reference column is the product over rows `k` to the last |
| GrandProduct.ProductFromIsProduct | src/cross_table_lookup.rs:506-534 | with binary filters, the running product from row `i` is the product of the combined values of exactly the selected rows from `i` on |
| GrandProduct.UnselectedKeepsProduct | src/cross_table_lookup.rs:516-530 | a row whose filter is 0 leaves the running product unchanged |
| GrandProduct.SelectOfBinary | src/cross_table_lookup.rs:633-639 | on a binary filter `select` is the combined value on a selected row and 1 on an unselected one |
| GrandProduct.EvalCrossTableLookupChecks | src/cross_table_lookup.rs:606-644 | two constraints per side, in side order: the last-row check followed by the transition check |
| GrandProduct.SelectIsFactor | src/cross_table_lookup.rs:628-639 | on the opening of a row and the next, `select` equals the factor `partial_products` multiplies in at that row |
| GrandProduct.RowChecksIff | src/cross_table_lookup.rs:641-644 | at one row the two constraints hold exactly when Z is the factor (last row) or `next_z` times the factor (other rows) |
| GrandProduct.ChecksHoldIffRecurrence | src/cross_table_lookup.rs:606-644 | with binary filters, the constraints hold on every row exactly when Z satisfies the running-product recurrence |
| GrandProduct.ProductColumnRecurs | src/cross_table_lookup.rs:506-534 | the reference column satisfies that recurrence |
| GrandProduct.RecurrenceFixesColumn | src/cross_table_lookup.rs:506-534 | a column satisfying the recurrence agrees with the reference column from any row to the last |
| GrandProduct.ChecksHoldIffPartialProducts | src/cross_table_lookup.rs:606-644 | round trip, both directions, on the opening `eval_table` computes (zeros past the last row): with binary filters, a column passes every constraint on every row exactly when it is the column `partial_products` computes |
| GrandProduct.RecurrenceIffPartialProducts | src/cross_table_lookup.rs:606-644 | exactly one column satisfies the running-product recurrence, the one `partial_products` computes |
| GrandProduct.StarkChecksHoldIffPartialProducts | src/cross_table_lookup.rs:606-644 | the same round trip, both directions, on the STARK opening, where the first row follows the last; it requires that the last row opens there as the prover computed it |
| GrandProduct.OpensAtStarkRows | src/cross_table_lookup.rs:617 | every row but the last opens the side on the STARK opening as `eval_table` computes it; the last row does so under the condition above |
| GrandProduct.CurrentRowOnlyOpensWrapped | src/cross_table_lookup.rs:159-175 | when neither the columns nor the filter read the next row, the last row meets that condition |
| GrandProductData.CrossTableLookupData | src/cross_table_lookup.rs:456-504 | succeeds exactly when there are no challenges or every filter of every lookup is binary, and then each table receives exactly the Z data of its sides, in lookup, challenge and side order |
| GrandProductData.PushAll | src/cross_table_lookup.rs:461-501 | the two loops: the same outcome and per-table data over the lookups processed |
| GrandProductData.PushLookup | src/cross_table_lookup.rs:467-500 | one lookup's challenge loop appends its pushes for every challenge, and each table grows by the number of challenges times its mentions in the lookup |
| GrandProductData.PushChallenge | src/cross_table_lookup.rs:468-499 | one challenge appends the Z data of the looking sides and then the looked side, and fails exactly on a non-binary filter in the lookup |
| GrandProductData.PushLooking | src/cross_table_lookup.rs:485-493 | the zip over the looking sides appends their Z data in order and fails at the first non-binary filter |
| GrandProductData.LookingPushesCount | src/cross_table_lookup.rs:485-493 | the looking pushes of the first `k` sides reach a table as often as it occurs among those sides |
| GrandProductData.ChallengePushesCount | src/cross_table_lookup.rs:468-499 | one challenge sends each table one entry per mention of it in the lookup |
| GrandProductData.LookupPushesCount | src/cross_table_lookup.rs:467-500 | `c` challenges send each table `c` times its mentions |
| GrandProductData.LookupEntriesCount | src/cross_table_lookup.rs:467-500 | one lookup gives each table the number of challenges times its mentions as entries |
| GrandProductData.AllPushesStep | src/cross_table_lookup.rs:465-501 | one more lookup adds its entries to each table's count |
| GrandProductData.AllPushesCount | src/cross_table_lookup.rs:465-501 | the first `i` lookups give each table the number of challenges times its mentions in them |
| GrandProductData.TableMatchesVerifier | src/cross_table_lookup.rs:292-299 | each table's entries over all lookups number exactly `num_ctl_zs` for it |
| GrandProductData.DataMatchesVerifier | src/cross_table_lookup.rs:456-504 | every table's data from `cross_table_lookup_data` is exactly as long as `num_ctl_zs` for it |
| GrandProductOracle.AsFiltered | src/cross_table_lookup.rs:259-271 | a side of this engine read as a side with a one-column filter: same table and columns, a filter exactly when this side has one |
| GrandProductOracle.SimpleFilterEvalTable | src/cross_table_lookup.rs:177-195 | the one-column filter evaluates to that column on every row |
| GrandProductOracle.SideAgrees | src/cross_table_lookup.rs:888-912 | the carried-over side has the same filter value and the same row vector on every row |
| GrandProductOracle.CtlHoldsIffSameMultiset | src/cross_table_lookup.rs:855-929 | a lookup holds exactly when the filters are binary and the selected row vectors of the looking sides and of the looked side form the same multiset |
| GrandProductOracle.CtlHoldsAgrees | src/cross_table_lookup.rs:855-929 | the old engine's lookup holds exactly when its carried-over lookup does, and both select the same rows |
| GrandProductOracle.CheckCtl | src/cross_table_lookup.rs:855-929 | passes exactly when the lookup holds; a count mismatch names a row vector counted differently; a filter error means some filter is not binary |
| GrandProductOracle.CheckCtls | src/cross_table_lookup.rs:846-853 | passes exactly when every lookup holds; a failure names the index of a lookup that does not hold |
| GrandProductVerify.CountIsMultiplicity | src/cross_table_lookup.rs:292-299 | the `filter(..).count()` of a table is its multiplicity among the ids |
| GrandProductVerify.MentionsIsMultiplicity | src/cross_table_lookup.rs:294-297 | a table's mentions in a lookup are its multiplicity among the looked and looking tables |
| GrandProductVerify.CountMentions | src/cross_table_lookup.rs:294-297 | the count over the looked table and then the looking tables is the table's mentions |
| GrandProductVerify.ScaledMentionsBeforeIsProduct | src/cross_table_lookup.rs:292-299 | adding the challenges' share lookup by lookup gives the number of challenges times the mentions over all lookups |
| GrandProductVerify.NumCtlZs | src/cross_table_lookup.rs:292-299 | `num_ctl_zs` is the number of challenges times the table's mentions over all lookups |
| GrandProductVerify.OffsetBound | src/cross_table_lookup.rs:766-800 | every opening read for challenge `c` of lookup `i` lies below the table's total of Z columns, so `next().unwrap()` never fails |
| GrandProductVerify.VerifyCrossTableLookups | src/cross_table_lookup.rs:766-800 | succeeds exactly when, for every lookup and challenge, the product of the looking openings times the extra product equals the looked opening; the first failure names its lookup; on success each table's iterator has consumed exactly `num_ctl_zs` openings |
| GrandProductVerify.VerifyLookup | src/cross_table_lookup.rs:781-796 | one lookup balances for every challenge exactly when it succeeds, and leaves each iterator where the next lookup starts |
| GrandProductVerify.VerifyChallenge | src/cross_table_lookup.rs:782-795 | one challenge succeeds exactly when it balances, and advances each iterator by the table's mentions |
| Serialization.ReadUsizeWritten | prover/src/cross_table_lookup.rs:547 | `read_usize` at the position where `write_usize` wrote `x` gives back `x` and the position eight bytes on, whatever surrounds it |
| Serialization.ReadUsize | prover/src/cross_table_lookup.rs:547 | `read_usize` fails exactly when fewer than eight bytes remain, and otherwise advances by eight |
| Serialization.ReadListWritten | prover/src/cross_table_lookup.rs:537-558 | reading a count-prefixed list where one was written gives the list back and the position just after it, for any item codec that round-trips |
| Serialization.ChallengeSetToBuffer | prover/src/cross_table_lookup.rs:537-544 | appends the count and then the `beta` and `gamma` of every challenge, in order, to the buffer |
| Serialization.ChallengeSetFromBuffer | prover/src/cross_table_lookup.rs:546-557 | reads the count and then that many `beta`, `gamma` pairs, pushed in order; the first read error is returned |
| Serialization.ChallengeSetRoundTrip | prover/src/cross_table_lookup.rs:537-557 | `from_buffer` after `to_buffer` gives back the same challenge set |
| Serialization.TableToBuffer | prover/src/fixed_recursive_verifier.rs:1113-1125 | appends the entry count, then key and chain of every entry in ascending key order |
| Serialization.TableFromBuffer | prover/src/fixed_recursive_verifier.rs:1127-1143 | reads the count, then reads and inserts that many key-chain entries; the first read error is returned |
| Serialization.TableRoundTrip | prover/src/fixed_recursive_verifier.rs:1113-1143 | a `by_stark_size` map read back where it was written is the same map |
| OrderedMap.Get | prover/src/fixed_recursive_verifier.rs:783-786 | `get(k)` finds a value exactly when some entry has key `k` |
| OrderedMap.Position | prover/src/fixed_recursive_verifier.rs:797-801 | `keys().position` is the first index whose key is `k`, or none when no key is `k` |
| OrderedMap.GetAtPosition | prover/src/fixed_recursive_verifier.rs:783-801 | `get(k)` succeeds exactly when `position(k)` does, and gives the value at that position |
| OrderedMap.Insert | prover/src/fixed_recursive_verifier.rs:1139 | `insert` keeps the keys ascending and adds no key but `k` |
| OrderedMap.GetInsert | prover/src/fixed_recursive_verifier.rs:1139 | after `insert(k, v)`, `get(k)` is `v` and every other key keeps its value |
| OrderedMap.InsertAllAscending | prover/src/fixed_recursive_verifier.rs:1133-1140 | inserting entries whose keys ascend past every key already present appends them in order |
| RecursiveCircuits.ShrinkingWrappers | prover/src/fixed_recursive_verifier.rs:1283-1315 | the shrinking loop computes the reference chain of wrappers, or the panic that stops it |
| RecursiveCircuits.ShrunkChainEnds | prover/src/fixed_recursive_verifier.rs:1287-1295 | a chain the loop accepts ends exactly at `THRESHOLD_DEGREE_BITS` = 13 |
| RecursiveCircuits.ShrunkChainSteps | prover/src/fixed_recursive_verifier.rs:1287-1315 | in an accepted chain every wrapper verifies the circuit before it, is strictly smaller, and follows a circuit above the threshold |
| RecursiveCircuits.ShrinkSucceeds | prover/src/fixed_recursive_verifier.rs:1292-1311 | the loop ends without a panic when the first circuit is at or above the threshold and every wrapper of a circuit above it is smaller but not below it |
| RecursiveCircuits.NewTable | prover/src/fixed_recursive_verifier.rs:1146-1168 | builds exactly when every size of `lo..hi` builds its chain; the map then has one entry per size, keyed by the size, in ascending order |
| RecursiveCircuits.FinalCircuits | prover/src/fixed_recursive_verifier.rs:1172-1183 | one final circuit per entry of the map |
| RecursiveCircuits.FinalCircuitsAt | prover/src/fixed_recursive_verifier.rs:1172-1183 | entry `i`'s final circuit is its last shrinking wrapper, or the initial wrapper when there is none |
| RecursiveCircuits.FinalCircuitsAtThreshold | prover/src/fixed_recursive_verifier.rs:1171-1183 | every final circuit of a table built without a panic has degree `THRESHOLD_DEGREE_BITS` |
| RecursiveCircuits.PadVerifierKeys | prover/src/fixed_recursive_verifier.rs:576-584 | the padded list has the next power of two of entries, starts with the given keys, and repeats the first key after them |
| RecursiveCircuits.RootIndex | prover/src/fixed_recursive_verifier.rs:780-805 | succeeds exactly when some entry has the proof's size, and then names such an entry; the error carries the table, the size and the range to set |
| RecursiveCircuits.RootIndexSelectsChain | prover/src/fixed_recursive_verifier.rs:783-801 | with ascending keys the index is the only entry for the size, and the padded verifier keys hold that chain's final circuit at it |
| RecursiveCircuits.ProveRootIndices | prover/src/fixed_recursive_verifier.rs:779-805 | succeeds exactly when every table has a chain for its size, giving each table's index; otherwise the error of some table without one |
| RecursiveCircuits.RootSameChallenges | prover/src/fixed_recursive_verifier.rs:531-544 | in a connected root circuit every two tables drew the same lookup challenges as the root |
| RecursiveCircuits.AggregateConnected | prover/src/fixed_recursive_verifier.rs:625-659 | the values `prove_aggregation` sets meet the aggregation circuit's wiring exactly when the left child ends where the right one starts and both carry the same user data |
| RecursiveCircuits.AggregateAllSpans | prover/src/fixed_recursive_verifier.rs:929-933 | aggregating adjacent segments left to right spans from the first segment's start to the last one's end |
| RecursiveCircuits.AggregateAllConnected | prover/src/fixed_recursive_verifier.rs:625-659 | each step of that left-to-right aggregation meets the circuit's wiring |
| RecursiveCircuits.MergeAssumptions | prover/src/fixed_recursive_verifier.rs:967-970 | the merged list is the right receipt's assumptions reversed, followed by the left receipt's |
| RecursiveCircuits.MergedContents | prover/src/fixed_recursive_verifier.rs:967-970 | the merge loses and duplicates no assumption |
| RecursiveCircuits.ProveAggregation | prover/src/fixed_recursive_verifier.rs:929-979 | the aggregate receipt carries the new proof, the aggregate values and claim, the merged assumptions, and is `Segments` exactly when there are no assumptions |
| RecursiveCircuits.BasePublicInputs | prover/src/fixed_recursive_verifier.rs:1008-1027 | keys 0-7 and 8-15 both hold the state root before, keys from 16 hold the user data, and no other key is set |
| RecursiveCircuits.BlockReceipt | prover/src/fixed_recursive_verifier.rs:1055-1066 | the block receipt carries the block proof and the aggregate's values, claim and assumptions, and is composite exactly when the aggregate is |
| ShaWords.ValueOfBitsOf | prover/src/sha_extend_sponge/sha_extend_sponge_stark.rs:106-118 | reading back the bit cells of a number below 2^n gives the number |
| ShaWords.BitsOfValueOf | prover/src/sha_extend_sponge/sha_extend_sponge_stark.rs:106-118 | writing out the number that bit cells spell gives the cells back |
| ShaWords.ToWordFromWord | prover/src/sha_extend_sponge/sha_extend_sponge_stark.rs:106-117 | `from_be_bits_to_u32` after `from_u32_to_be_bits` gives the word back |
| ShaWords.BitsOfIsShift | prover/src/sha_extend_sponge/sha_extend_sponge_stark.rs:386-392 | cell `i` of a word's bits is `(v >> i) & 1` |
| ShaWords.ComputeWordIsScheduleWord | prover/src/sha_extend_sponge/sha_extend_sponge_stark.rs:110-115 | the word `compute_w_i` forms is the SHA-256 schedule word σ1(W[t-2]) + W[t-7] + σ0(W[t-15]) + W[t-16] mod 2^32 of section 6.2.2 of FIPS 180-4 |
| ShaWords.ScheduleRecurrence | prover/src/sha_extend_sponge/sha_extend_sponge_stark.rs:466-520 | the message schedule starts with the block and then follows that recurrence |
| ShaWords.ComputeWordExample | prover/src/sha_extend_sponge/sha_extend_sponge_stark.rs:394-440 | the schedule word of the inputs 0, 1, 2, 3 is 40965 |
| ShaExtendSponge.ComputeWi | prover/src/sha_extend_sponge/sha_extend_sponge_stark.rs:105-119 | the result is 32 bit cells spelling the schedule word of the four input words |
| ShaExtendSponge.RowForOpRound | prover/src/sha_extend_sponge/sha_extend_sponge_stark.rs:79-80 | the row of an operation is one-hot in its round |
| ShaExtendSponge.RowForOpAddresses | prover/src/sha_extend_sponge/sha_extend_sponge_stark.rs:78-91 | the row holds the operation's timestamp, the context of its first input address, the segment of its code address, and its input and output addresses |
| ShaExtendSponge.RowForOpWords | prover/src/sha_extend_sponge/sha_extend_sponge_stark.rs:93-102 | the row holds the four input words as bits, and the bits of their schedule word |
| ShaExtendSponge.GenerateRowsForOp | prover/src/sha_extend_sponge/sha_extend_sponge_stark.rs:77-102 | the field-by-field construction builds the row of the operation |
| ShaExtendSponge.TraceRowsIndex | prover/src/sha_extend_sponge/sha_extend_sponge_stark.rs:58-75 | row `k` of a trace is the row of operation `k`, or the default row past the operations |
| ShaExtendSponge.GenerateTraceRows | prover/src/sha_extend_sponge/sha_extend_sponge_stark.rs:58-75 | the trace has `max(len, min_rows).next_power_of_two()` rows: one per operation, in order, then default rows |
| ShaExtendSponge.ConstraintDegree | prover/src/sha_extend_sponge/sha_extend_sponge_stark.rs:136-218 | every constraint is a product of two or three factors, within the declared degree 3 |
| ShaExtendSponge.HoldsIsConstraints | prover/src/sha_extend_sponge/sha_extend_sponge_stark.rs:136-218 | the grouped checks hold exactly when every emitted constraint vanishes |
| ShaExtendSponge.BitsVanish | prover/src/sha_extend_sponge/sha_extend_sponge_stark.rs:148-163 | a row whose bit columns and round flags are bits passes the bit and round constraints |
| ShaExtendSponge.PaddingRowHolds | prover/src/sha_extend_sponge/sha_extend_sponge_stark.rs:136-218 | the default row passes every constraint, whatever row follows it |
| ShaExtendSponge.FinalRowTransitions | prover/src/sha_extend_sponge/sha_extend_sponge_stark.rs:162-200 | on the row of the final round `not_final` is zero and switches the transitions off |
| ShaExtendSponge.OpRowLocal | prover/src/sha_extend_sponge/sha_extend_sponge_stark.rs:148-218 | the row of an operation with laid-out addresses passes the bit, round and address constraints |
| ShaExtendSponge.TransitionsIff | prover/src/sha_extend_sponge/sha_extend_sponge_stark.rs:166-200 | on a row of round `i` < 47, the transitions hold exactly when the next row keeps the timestamp, is in round `i + 1`, and has every address 4 further on |
| ShaExtendSponge.AddressesIff | prover/src/sha_extend_sponge/sha_extend_sponge_stark.rs:202-218 | on a row of a step, the address constraints hold exactly when `W[i-15]`, `W[i-2]`, `W[i-7]` and `W[i]` sit 4, 56, 36 and 64 past `W[i-16]` |
| ShaExtendSponge.FinalOpHolds | prover/src/sha_extend_sponge/sha_extend_sponge_stark.rs:136-218 | the row of a final-round step passes every constraint whatever follows it |
| ShaExtendSponge.MidOpHolds | prover/src/sha_extend_sponge/sha_extend_sponge_stark.rs:136-218 | the row of an earlier step followed by its successor's row passes every constraint |
| ShaExtendSponge.TraceHolds | prover/src/sha_extend_sponge/sha_extend_sponge_stark.rs:136-218 | the trace of a chain of steps ending at the final round passes every constraint on every pair of adjacent rows, the last row wrapping to the first |
| ShaExtendSpongeTests.InputCellsWord | prover/src/sha_extend_sponge/sha_extend_sponge_stark.rs:386-392 | input word `n` of an operation built from `to_be_bits` cells is the bits of word `n` |
| ShaExtendSpongeTests.InputCellsRow | prover/src/sha_extend_sponge/sha_extend_sponge_stark.rs:77-119 | the row of an operation reading four words holds `compute_w_i` of those words |
| ShaExtendSpongeTests.ScheduleOps | prover/src/sha_extend_sponge/sha_extend_sponge_stark.rs:466-520 | one operation for each of the schedule words 16 to 63, operation `k` reading the words `k+1`, `k+14`, `k`, `k+9` and writing word `k+16` |
| ShaExtendSpongeTests.ScheduleRowWord | prover/src/sha_extend_sponge/sha_extend_sponge_stark.rs:466-520 | the row of the operation for word `t` holds word `t` of the schedule |
| ShaExtendSpongeTests.ScheduleOpsChain | prover/src/sha_extend_sponge/sha_extend_sponge_stark.rs:466-520 | the operations of a schedule form one chain of steps that ends at the final round |
| ShaExtendSpongeTests.ScheduleTraceHolds | prover/src/sha_extend_sponge/sha_extend_sponge_stark.rs:466-520 | the trace of a whole schedule, over any number of rows that holds it, passes every constraint on every pair of adjacent rows |
| ShaExtendSpongeTests.ScheduleTraceWords | prover/src/sha_extend_sponge/sha_extend_sponge_stark.rs:466-520 | row `k` of that trace holds word `k + 16` of the schedule |
| ShaExtendSpongeTests.TestCorrection | prover/src/sha_extend_sponge/sha_extend_sponge_stark.rs:394-440 | `test_correction`: the row of the operation reading 0, 1, 2, 3 at addresses 4, 56, 0, 36 holds the bits of 40965 |
| MathUtil.NextPowerOfTwo | prover/src/sha_extend_sponge/sha_extend_sponge_stark.rs:69 | the smallest power of two at least `n`, 1 for 0 |
| MathUtil.CeilDivIsQuotient | prover/src/cross_table_lookup.rs:716 | the number of chunks of `b` in `a` items is `(a + b - 1) / b` |
| Goldilocks.PairIdentity | prover/src/cross_table_lookup.rs:1027-1043 | if `c0·t0 = f0` and `c1·t1 = f1` then `c1·c0·(t0 + t1) − f0·c1 − f1·c0 = 0`, the identity the two-lookup chunk constraint rests on |
| Serialization.LeValueOfLeBytes | prover/src/cross_table_lookup.rs:538 | the little-endian bytes of a number below 256^n read back as that number |
| Serialization.WriteList | prover/src/fixed_recursive_verifier.rs:1119-1123 | appends the count and then every item's bytes to the buffer |
| ShaExtendSponge.OpRowAddresses | prover/src/sha_extend_sponge/sha_extend_sponge_stark.rs:202-218 | the row of an operation whose addresses are laid out passes the address constraints |
| ShaExtendSponge.SuccessorTransitions | prover/src/sha_extend_sponge/sha_extend_sponge_stark.rs:166-200 | a step's row followed by the row of the next step passes the transition constraints |

## Left out

- The `*_circuit` functions (`eval_filter_circuit`, `eval_with_next_circuit`, `combine_circuit`, `eval_helper_columns_circuit`, `eval_cross_table_lookup_checks_circuit`, `verify_cross_table_lookups_circuit`, `eval_ext_circuit`) are not modelled. They emit plonky2 wires through `CircuitBuilder`, which this model does not see.
- The old engine's circuit checker evaluates the filter with `eval_circuit` on the local row only (src/cross_table_lookup.rs:735). The native checker uses `eval_with_next` (src/cross_table_lookup.rs:633-634). The two disagree for a filter that reads the next row. Only the native side is modelled.
- Fiat–Shamir challenge derivation (`get_grand_product_challenge*`, the challenger and `observe_*`) is not modelled, because it is hash-based. Challenges are inputs.
- `batch_multiplicative_inverse` is not modelled: inversion is a parameter whose contract is to invert every nonzero element. `batch_add_inplace` is modelled as element-wise addition.
- Packed fields (`PackedField`) and extension fields are not modelled. Everything is a scalar of the base field.
- The allocation of `ctl_vars` openings to tables in `CtlCheckVars::from_proofs` (prover/src/cross_table_lookup.rs:920-999) is not modelled. The checker takes its variables as inputs.
- PartialSumsPassCheckerOnTrace: opens the row after the last as zeros, which is what `eval_table` computes, not the first row the STARK opening wraps to (prover/src/cross_table_lookup.rs:1079). `PartialSumsPassCheckerOnStarkRows` states the round trip on the wrapped opening, but only when the last row opens there as the prover computed it. This always holds when no column or filter reads the next row (`CurrentRowOnlyOpensWrapped`). The condition covers every pair, even pairs not selected on the last row, which the source does not need.
- ChecksHoldIffPartialProducts: the same gap for the old engine (src/cross_table_lookup.rs:617). `StarkChecksHoldIffPartialProducts` states the round trip on the wrapped opening under the same last-row condition.
- InvertedColumn, GetHelperCols, PartialSums, ChunkHelperColumn, RunPartialSums, GroupsSums, CtlHelperZsCols, PushChallenge, PushLookup, CrossTableLookupData (log-derivative engine): a selected row whose combined value is zero makes `batch_multiplicative_inverse` panic in the source (prover/src/cross_table_lookup.rs:742). The model does not treat it as an error: it returns `Ok` with `inv(0)`, which the inversion parameter leaves unconstrained. The same holds for the log-derivative `CrossTableLookupData`, whose `Ok` condition mentions only the filters. Every round-trip lemma requires `SelectedCombinesNonzero`, so none depends on that value.
- VerifyCrossTableLookups, VerifyLookup, VerifyChallenge (both engines), OpFits, BasePublicInputs: where the source panics on plain indexing, `unwrap` or `zip_eq`, the model requires instead that the panic cannot happen, and does not model the panic. For the verifiers, `TablesFit` and the opening counts (`EnoughOpenings` in the grand-product engine) rule out a short `next().unwrap()` and an out-of-range `extra_product_vec[c]`. For `OpFits`, it is the length of the input. For `BasePublicInputs`, it is `|root| == 8`, which rules out a `zip_eq` length mismatch.
- DataMatchesVerifier (log-derivative engine): `verify_cross_table_lookups` counts each looking table once per lookup with a `contains` check (prover/src/cross_table_lookup.rs:1429-1434). `cross_table_lookup_data` pushes one entry per consecutive `group_by` run (prover/src/cross_table_lookup.rs:801-835). So a lookup that lists one table at non-adjacent positions pushes more entries than the verifier reads. The lemma's `WellGrouped` hypothesis excludes exactly that case, and the model does not say which of the two behaviours is intended.
- LeBytesEvaluates (grand-product engine): the old engine's `le_bytes` weighs its columns by powers of 32 (src/cross_table_lookup.rs:134-140), while the new engine's weighs by powers of 256 (prover/src/cross_table_lookup.rs:224-230). The model follows each engine as written and does not decide whether the 32 is intended.
- OpFits: requires the cells holding the input words' bits to be 0 or 1. The source copies any `u32` into them, so the model does not cover a step whose bit cells are not binary.
- Chunk sizes other than 1 and 2 end in `todo!()` in the checker and are modelled as the error `UnsupportedChunkSize`. The round-trip lemmas therefore assume constraint degree 2 or 3.
- The converse of the bit checks is not proved: it is not shown that `b·(b − 1) = 0` forces `b ∈ {0, 1}`, which needs the modulus to be prime. The forward direction is proved.
- `from_be_bits_to_u32`, `from_u32_to_be_bits` and `get_input_range` are in `sha_extend::logic`, which is not part of this model. The bit cells are taken least significant first, as the table's own `to_be_bits` test helper lays them out, so that bit `i` is `(v >> i) & 1`. `get_input_range(k)` is taken as `32k..32(k+1)`, and `Segment::Code` as 0.
- Circuit building, proving and verification (`recursive_stark_circuit`, `builder.build`, `verify_proof`, `prove`, cyclic proofs) are not modelled, because they belong to plonky2. They are function parameters (`wrap`, `degreeBits`, `initialFor`) or given values (the proofs), and `shrink()` is the same.
- The payloads of plonky2's `Buffer` and its gate, generator and target serialisers are not modelled. They appear only through a codec contract: an item read back where it was written is the same item. `write_usize` is modelled as eight little-endian bytes, and writes to a `Vec` never fail.
- `set_public_value_targets` and its conversion error are not modelled.
- `Receipt::assumptions()` is not modelled for `Segments` receipts; it is taken to be the empty list. The sharing through `Rc<RefCell<…>>` is not modelled: the merge is stated on values.
- The `MaybeUninit`/`transmute` step of `AllRecursiveCircuits::from_bytes` is not modelled. It only fills a fixed-length array by index.
- PadVerifierKeys: requires a non-empty list, because `possible_vks[0]` panics otherwise.
- ShrinkingWrappers: the two assertions of the shrinking loop are modelled as error results rather than panics.
- Logging, `println!`, timing and the benchmark test are left out, because they are I/O.

# Coverage workflow trigger, modelled in Dafny

The repository holds one Azure Functions trigger. It fires when a partner (Facebook or ITU)
drops a school-coverage CSV file into its blob container.

- For a file in the `unprocessed` folder, it sends one Slack notification.
- For a file in the `processed` folder, it collects the two partners' latest files and the
  country's master table. When all three are there, it does four things:
  - It reconciles the two partner tables into one coverage table (2G/3G/4G flags, coverage
    type, availability).
  - It left-joins the coverage table onto the master table and projects the result onto a
    fixed column list.
  - It stores the four resulting files.
  - It deletes the consumed partner files.

  Then it sends one notification.

This project models that trigger:

- A table is a list of column labels with positional rows of `Value`s (`Null`, `Bool`,
  `Num` over reals, `Str`). Positional rows let the model represent what pandas does with
  duplicate and suffixed labels.
- The blob store is a map from container name to a name-sorted list of blobs.
- Slack is a log of the texts sent.
- `coco.convert`, the environment and the timestamp are parameters.

Where the source changes things in place, the model is imperative:

- `Tables.Frame` is a data frame whose table a method replaces.
- `BlobStore.BlobService` is the storage client.
- `BlobStore.Notifier` is the Slack log.
- `Pipeline.HandleEvent` is `main`.

Each method is proved equal to a pure function that defines it. The properties of the
trigger are proved about those functions:

- OR semantics of the flags.
- Strict 4G > 3G > 2G precedence.
- Every output row explained by its source rows, and no school lost.
- The master row count, and the fixed schema.
- Routing and naming.
- The notifications.
- The test fixtures.

Modules, leaves first:

- `Strings`: prefix/suffix tests, ASCII case mapping, `str.title`, `str.replace`,
  `str.split`, and the leading letters of a name.
- `Tables`: tables, column assignment, selection, null-key row filtering, and pandas
  `merge`. `Merge` covers left joins and outer joins with suffixes. Outer-join row order is
  the one pandas used before version 2.2 with `sort=False`.
- `Coverage`: `process_coverage_data` as stage functions and as in-place methods.
- `CoverageFacts`, `CombineFacts`: the properties of the reconciliation.
- `MasterMerge`, `MasterFacts`: `merge_coverage_and_master` and its properties.
- `CoverageFixture`: the tables of `tests.py` and the outputs the tests expect.
- `Routing`: URL and path handling, partner and country naming, search targets, storage
  paths, and the notification texts.
- `BlobStore`: the store, and the storage and Slack clients.
- `Pipeline`: `get_blob_storage_data`, `get_partner_data`, `store_files`,
  `delete_processed_partner_data` and `main`, each as a function and as a method, with
  what each of the helpers reads, writes and deletes in the account, and exactly when it
  fails.
- `PipelineFacts`: what one event does, and the three trigger tests of `tests.py`.

## Model

| member | source | states |
|---|---|---|
| Strings.TitleAt | SAUNIGIGA-EventGridTrigger1/__init__.py:37 | `str.title`: a letter after a letter is lower-cased, any other letter upper-cased, non-letters kept; the length is unchanged |
| Strings.UpperIsUpper | SAUNIGIGA-EventGridTrigger1/__init__.py:162 | `.upper()` keeps the length and which characters are letters, leaves no lower-case letter, and is idempotent |
| Strings.LowerIsLower | SAUNIGIGA-EventGridTrigger1/__init__.py:166 | `.lower()` keeps the length and which characters are letters, leaves no upper-case letter, and is idempotent |
| Strings.StripPrefix | SAUNIGIGA-EventGridTrigger1/__init__.py:32 | replacing a pattern by nothing in pattern + s gives back s when s does not contain the pattern |
| Strings.ReplaceAbsent | SAUNIGIGA-EventGridTrigger1/__init__.py:32 | `replace` leaves a string without the pattern unchanged |
| Strings.Split | SAUNIGIGA-EventGridTrigger1/__init__.py:31 | `str.split` on a one-character separator gives at least one part; `Strings.SplitJoin` and `JoinSplit` make it the inverse of joining |
| Strings.SplitJoin | SAUNIGIGA-EventGridTrigger1/__init__.py:31 | joining the parts of `split(sep)` with sep gives the string back, and no part holds sep |
| Strings.JoinSplit | SAUNIGIGA-EventGridTrigger1/__init__.py:31 | splitting a join of sep-free parts gives the parts back |
| Strings.LeadingLetters | SAUNIGIGA-EventGridTrigger1/__init__.py:33 | the result is the longest all-letter prefix: a prefix, all letters, followed by the end or by a non-letter |
| Strings.LeadingLettersOf | SAUNIGIGA-EventGridTrigger1/__init__.py:33 | letters followed by a non-letter (or nothing) are exactly the leading letters |
| Tables.IndexOf | SAUNIGIGA-EventGridTrigger1/__init__.py:191 | a label's column is its first occurrence, as pandas reads a label |
| Tables.SetColumn | SAUNIGIGA-EventGridTrigger1/__init__.py:191-198 | `df[c] = vals`: overwrites every column labelled c, or appends c; every other cell unchanged, row count kept |
| Tables.Frame.Assign | SAUNIGIGA-EventGridTrigger1/__init__.py:191-198 | the in-place column assignment replaces the frame's table by `SetColumn` of the old one |
| Tables.GetSetColumn | SAUNIGIGA-EventGridTrigger1/__init__.py:191-198 | after assigning c, reading c gives the new value and reading any other label gives the old one |
| Tables.Select | SAUNIGIGA-EventGridTrigger1/__init__.py:212-213 | `df[names]` fails with a KeyError exactly when some name is missing; otherwise the columns are the names, in that order, with every cell read from the input |
| Tables.GetSelect | SAUNIGIGA-EventGridTrigger1/__init__.py:269 | a selected label reads what it read before the selection |
| Tables.DropMissing | SAUNIGIGA-EventGridTrigger1/__init__.py:212-213 | `df.loc[df[c].notna()]`: fails exactly when c is absent; otherwise the columns are kept, every kept row is an input row whose c is not null, and every input row whose c is not null is kept (order and multiplicity: `DropMissingKeeps`) |
| Tables.NotNullRows | SAUNIGIGA-EventGridTrigger1/__init__.py:212 | the rows of `.loc[df[key].notna()]`: no more rows than the input, every kept row is an input row with a key, and every input row with a key is kept; order and multiplicity are stated by `Tables.NotNullRowsKeeps` |
| Tables.NotNullRowsKeeps | SAUNIGIGA-EventGridTrigger1/__init__.py:212-213 | the filtered rows are the input rows in their order (a subsequence), each row with a non-null key kept exactly as often as it occurs and each row with a null key dropped |
| Tables.DropMissingKeeps | SAUNIGIGA-EventGridTrigger1/__init__.py:212-213 | the same for the table: the kept rows are a subsequence of the input rows, with the multiplicity of each row whose c is not null and none of the others |
| Tables.DropMissingAll | SAUNIGIGA-EventGridTrigger1/__init__.py:212-213 | with no null key, the filter keeps the table as it is |
| Tables.Merge | SAUNIGIGA-EventGridTrigger1/__init__.py:217 | `merge(on=key)` fails exactly when the key is missing on either side; the result is well formed |
| Tables.MergeRows | SAUNIGIGA-EventGridTrigger1/__init__.py:217 | the merge has one row per pair of matching rows, each pair valid |
| Tables.MergeKeepsMatches | SAUNIGIGA-EventGridTrigger1/__init__.py:217 | every pair of rows with equal keys appears in the join |
| Tables.MergeKeepsLoneLeft | SAUNIGIGA-EventGridTrigger1/__init__.py:250 | a left row with no partner appears on its own, in left and outer joins |
| Tables.OuterKeepsLoneRight | SAUNIGIGA-EventGridTrigger1/__init__.py:217 | a right row with no partner appears on its own in an outer join |
| Tables.MergePairsValid | SAUNIGIGA-EventGridTrigger1/__init__.py:217 | every pair matches keys or stands alone; a left join has a left row in every pair |
| Tables.LeftPairsOnePerRow | SAUNIGIGA-EventGridTrigger1/__init__.py:250 | with unique right keys a left join has exactly one pair per left row, in left order |
| Tables.PairsOfUnique | SAUNIGIGA-EventGridTrigger1/__init__.py:250 | with unique right keys, each left row has exactly one pair, and that pair is its own |
| Tables.AlignedPairsOf | SAUNIGIGA-EventGridTrigger1/__init__.py:217 | when both tables list the same keys in the same order, row a pairs exactly with row a |
| Tables.LeftPairsAtLeast | SAUNIGIGA-EventGridTrigger1/__init__.py:250 | a left join has at least one pair per left row, and more for a row with several matches |
| Tables.OuterLeftOrder | SAUNIGIGA-EventGridTrigger1/__init__.py:217 | with unique left keys, the outer join's left part is in the plain left-row order |
| Tables.MergeAligned | SAUNIGIGA-EventGridTrigger1/__init__.py:217 | tables listing the same unique keys in the same order outer-join row by row |
| Tables.GetMergedLeft | SAUNIGIGA-EventGridTrigger1/__init__.py:217 | an unsuffixed left label reads the left row's cell |
| Tables.GetMergedRight | SAUNIGIGA-EventGridTrigger1/__init__.py:217 | a right-only label reads the right row's cell, or null when the row has no right partner |
| Tables.MergedGone | SAUNIGIGA-EventGridTrigger1/__init__.py:250 | a non-key label on both sides is suffixed, so the plain label is absent from the result |
| Coverage.Compare | SAUNIGIGA-EventGridTrigger1/__init__.py:191-198 | `>` and `>=` on a string raise a TypeError, `==` does not; null compares false |
| Coverage.FlagCells | SAUNIGIGA-EventGridTrigger1/__init__.py:191-198 | a column comparison succeeds exactly when every cell compares, and gives the Boolean of each cell |
| Coverage.DeriveFlag | SAUNIGIGA-EventGridTrigger1/__init__.py:191-198 | one comparison assignment such as `facebook_df['2G_coverage'] = (facebook_df['percent_2G'] > 0)` as a function on tables: on success the table stays well-formed with its row count; when it fails and which column it writes are stated by `Coverage.DeriveFlagSpec` |
| Coverage.DeriveFlagSpec | SAUNIGIGA-EventGridTrigger1/__init__.py:191-198 | one flag rule fails exactly when the source column is missing or some cell cannot be compared; otherwise it writes the target column and nothing else |
| Coverage.AssignFlag | SAUNIGIGA-EventGridTrigger1/__init__.py:191-198 | the in-place flag assignment leaves the frame as `DeriveFlag` says, or unchanged on error |
| Coverage.ApplyFlags | SAUNIGIGA-EventGridTrigger1/__init__.py:191-198 | the three assignments of one partner in sequence: the table stays well-formed with its row count; the order and the first failure are stated by `Coverage.ApplyFlagsStep`, and what is written where by `CoverageFacts.ApplyFlagsKeeps`, `ApplyFlagsWrites`, `ApplyFlagsSucceeds` and `ApplyFlagsColumns` |
| Coverage.ApplyFlagsStep | SAUNIGIGA-EventGridTrigger1/__init__.py:191-198 | the rules run in order and the first failure stops the rest, keeping what was written |
| Coverage.AddFacebookFlags | SAUNIGIGA-EventGridTrigger1/__init__.py:191-193 | the loop over the Facebook rules leaves the caller's frame as `ApplyFlags` says and returns its failure |
| Coverage.AddItuFlags | SAUNIGIGA-EventGridTrigger1/__init__.py:196-198 | the same for the ITU rules |
| Coverage.LowerItuColumns | SAUNIGIGA-EventGridTrigger1/__init__.py:200-201 | the rename keeps the rows and every label outside the four renamed ones |
| Coverage.Present | SAUNIGIGA-EventGridTrigger1/__init__.py:213 | `[c for c in cols_to_keep if c in df.columns]`: a name is in the result exactly when it is listed and the table has it (order and multiplicity: `PresentKeeps`) |
| Coverage.PresentKeeps | SAUNIGIGA-EventGridTrigger1/__init__.py:213 | the result keeps the order of the list and each present name as often as it is listed (a name listed twice is selected twice); an absent name is dropped |
| Coverage.FacebookSelection | SAUNIGIGA-EventGridTrigger1/__init__.py:212 | the Facebook selection has exactly the four kept columns |
| Coverage.ItuSelection | SAUNIGIGA-EventGridTrigger1/__init__.py:213 | the ITU selection has exactly the allow-listed columns the table has |
| Coverage.RowHasPrefix | SAUNIGIGA-EventGridTrigger1/__init__.py:221-222 | a row's `any` over the columns starting with p is true exactly when one of them holds a truthy cell |
| Coverage.HarmonizeAll | SAUNIGIGA-EventGridTrigger1/__init__.py:220-222 | the harmonizing loop keeps the rows and adds no label but the flags |
| Coverage.HarmonizeFlags | SAUNIGIGA-EventGridTrigger1/__init__.py:220-222 | the in-place loop leaves the frame as `HarmonizeAll` says |
| Coverage.EncodeAll | SAUNIGIGA-EventGridTrigger1/__init__.py:230-231 | the re-encoding keeps the columns and the row count |
| Coverage.EncodeFlags | SAUNIGIGA-EventGridTrigger1/__init__.py:230-231 | the in-place loop leaves the frame as `EncodeAll` says |
| Coverage.KeptPositions | SAUNIGIGA-EventGridTrigger1/__init__.py:236 | exactly the positions of the labels not ending in the suffix, in order |
| Coverage.Classified | SAUNIGIGA-EventGridTrigger1/__init__.py:224-228 | adds `coverage_type` and no other label |
| Coverage.WithAvailability | SAUNIGIGA-EventGridTrigger1/__init__.py:233 | adds `coverage_availability` and no other label |
| Coverage.AnyWithPrefix | SAUNIGIGA-EventGridTrigger1/__init__.py:221-222 | `.any(axis='columns')` over the columns with a prefix: one cell per row; what each holds is stated by `CoverageFacts.HarmonizedCell` and `GetHarmonized` |
| Coverage.TypeColumn | SAUNIGIGA-EventGridTrigger1/__init__.py:224-228 | the `np.select` column: one cell per row; its values are stated by `CoverageFacts.GetClassified` and `FinishType` |
| Coverage.YesNoColumn | SAUNIGIGA-EventGridTrigger1/__init__.py:230-231 | the `map({True: 'YES', False: 'NO'})` column: one cell per row; its values are stated by `CoverageFacts.GetEncoded` |
| Coverage.AvailabilityColumn | SAUNIGIGA-EventGridTrigger1/__init__.py:233 | the `np.where` column: one cell per row; its values are stated by `CoverageFacts.GetWithAvailability` |
| Coverage.DropItu | SAUNIGIGA-EventGridTrigger1/__init__.py:236 | the projection that drops the `_itu` columns: the table stays well-formed with its row count; which columns survive with which cells is stated by `Coverage.KeptPositions` and `CoverageFacts.GetDropItu` |
| Coverage.Finish | SAUNIGIGA-EventGridTrigger1/__init__.py:220-236 | the steps after the join (harmonize, classify, encode, availability, drop `_itu`): the table stays well-formed and keeps its row count; its columns and cells are stated by `CoverageFacts.FinishColumns`, `FinishFlag`, `FinishType`, `FinishAvailability` and `FinishKeeps` |
| Coverage.FinishCoverage | SAUNIGIGA-EventGridTrigger1/__init__.py:220-238 | the steps after the join, run in place on a frame, give `Finish` |
| Coverage.Combine | SAUNIGIGA-EventGridTrigger1/__init__.py:212-217 | the two selections and the outer join on `giga_id_school`: a result is well-formed; when it fails and which rows it holds are stated by `CombineFacts.CombineFails`, `CombineView`, `CombineRows`, `CombineKeepsMatches`, `CombineKeepsFacebookOnly` and `CombineKeepsItuOnly` |
| Coverage.Reconcile | SAUNIGIGA-EventGridTrigger1/__init__.py:188-238 | `process_coverage_data` as a function: a result is well-formed; when it fails is stated by `CombineFacts.ReconcileFails` and every output row is explained by the flagged partner rows in `CombineFacts.ReconcileRows`; `Coverage.ProcessCoverageData` is the in-place method equal to it |
| Coverage.ProcessCoverageData | SAUNIGIGA-EventGridTrigger1/__init__.py:188-238 | returns `Reconcile` of the input tables, and leaves the caller's frames with their flag columns added (ITU's untouched when Facebook's flags fail) |
| CoverageFacts.GenerationPrefixesDisjoint | SAUNIGIGA-EventGridTrigger1/__init__.py:220-222 | no label starts with two different flag names, so harmonizing one flag does not touch another |
| CoverageFacts.HarmonizeStep | SAUNIGIGA-EventGridTrigger1/__init__.py:220-222 | harmonizing one flag leaves each other flag's `any` unchanged |
| CoverageFacts.HarmonizedCell | SAUNIGIGA-EventGridTrigger1/__init__.py:220-222 | after the loop every flag column holds the OR over its prefix columns in the joined row, and every other cell is unchanged |
| CoverageFacts.GetHarmonized | SAUNIGIGA-EventGridTrigger1/__init__.py:220-222 | the same, read through labels |
| CoverageFacts.TypeOfHarmonized | SAUNIGIGA-EventGridTrigger1/__init__.py:224-228 | the type of a harmonized row is the best generation its prefix columns flag |
| CoverageFacts.GetEncoded | SAUNIGIGA-EventGridTrigger1/__init__.py:230-231 | an encoded flag reads YES/NO of its old value; other labels are unchanged |
| CoverageFacts.GetDropItu | SAUNIGIGA-EventGridTrigger1/__init__.py:236 | a label not ending in `_itu` survives the drop with its cells |
| CoverageFacts.GetClassified | SAUNIGIGA-EventGridTrigger1/__init__.py:224-228 | `coverage_type` reads the row's type; other labels are unchanged |
| CoverageFacts.GetWithAvailability | SAUNIGIGA-EventGridTrigger1/__init__.py:233 | availability is NO exactly where the type is "no coverage", else YES |
| CoverageFacts.FinishColumns | SAUNIGIGA-EventGridTrigger1/__init__.py:236 | the output labels are the joined labels plus type and availability, minus every label ending in `_itu` |
| CoverageFacts.FinishFlag | SAUNIGIGA-EventGridTrigger1/__init__.py:220-231 | each output flag is YES exactly when some joined column starting with its name is truthy |
| CoverageFacts.ClassifiedType | SAUNIGIGA-EventGridTrigger1/__init__.py:224-228 | before the re-encoding, the type is the best generation among the harmonized flags |
| CoverageFacts.FinishType | SAUNIGIGA-EventGridTrigger1/__init__.py:224-228 | `coverage_type` is 4G if 4G is flagged, else 3G, else 2G, else "no coverage" |
| CoverageFacts.FinishAvailability | SAUNIGIGA-EventGridTrigger1/__init__.py:233 | availability is YES exactly when some generation is flagged, and NO exactly when the type is "no coverage" |
| CoverageFacts.FinishKeeps | SAUNIGIGA-EventGridTrigger1/__init__.py:236 | any other kept column passes through unchanged |
| CoverageFacts.RuleFor | SAUNIGIGA-EventGridTrigger1/__init__.py:191-198 | the rule that writes a label, if any |
| CoverageFacts.ApplyFlagsKeeps | SAUNIGIGA-EventGridTrigger1/__init__.py:191-198 | a column no rule writes is unchanged by the flag rules |
| CoverageFacts.ApplyFlagsWrites | SAUNIGIGA-EventGridTrigger1/__init__.py:191-198 | a written column holds its rule's comparison on the original source cell |
| CoverageFacts.ApplyFlagsSucceeds | SAUNIGIGA-EventGridTrigger1/__init__.py:191-198 | independent rules all succeed exactly when each one applies to the input |
| CoverageFacts.ApplyFlagsColumns | SAUNIGIGA-EventGridTrigger1/__init__.py:191-198 | the flagged labels are the old ones plus the rule targets |
| CoverageFacts.FlaggedTargets | SAUNIGIGA-EventGridTrigger1/__init__.py:191-198 | every rule's target holds its comparison, row by row |
| CoverageFacts.PartnerRulesIndependent | SAUNIGIGA-EventGridTrigger1/__init__.py:191-198 | no partner rule reads a column another rule writes |
| CoverageFacts.FacebookFlagsFail | SAUNIGIGA-EventGridTrigger1/__init__.py:191-193 | the Facebook flags succeed exactly when the three percentage columns exist and hold no string |
| CoverageFacts.FacebookFlagged | SAUNIGIGA-EventGridTrigger1/__init__.py:191-193 | each Facebook flag is `percent_nG > 0` of its row; the school id is unchanged |
| CoverageFacts.ItuFlagsFail | SAUNIGIGA-EventGridTrigger1/__init__.py:196-198 | the ITU flags succeed exactly when the three tier columns exist and `2G` holds no string (`==` never fails) |
| CoverageFacts.ItuFlagged | SAUNIGIGA-EventGridTrigger1/__init__.py:196-198 | ITU 2G is `2G >= 1`, 3G and 4G are `== 1`; the school id is unchanged |
| CombineFacts.FacebookLabelPrefix | SAUNIGIGA-EventGridTrigger1/__init__.py:212-221 | among the Facebook columns, only the flag itself starts with a flag's name |
| CombineFacts.ItuLabelPrefix | SAUNIGIGA-EventGridTrigger1/__init__.py:205-221 | among the suffixed ITU columns, only that flag's own `_itu` copy starts with its name |
| CombineFacts.LabelPrefix | SAUNIGIGA-EventGridTrigger1/__init__.py:205-221 | for a generation flag `g` and a label that is a generation flag or starts with another character, the `_itu` copy of the label starts with `g` exactly when the label is `g` |
| CombineFacts.MergedCoverageColumns | SAUNIGIGA-EventGridTrigger1/__init__.py:217 | the joined labels are the Facebook ones followed by the ITU ones with `_itu` |
| CombineFacts.ItuSelectionColumns | SAUNIGIGA-EventGridTrigger1/__init__.py:213 | the ITU selection starts with the school id, held once, and has a flag exactly when the input has it |
| CombineFacts.MergeView | SAUNIGIGA-EventGridTrigger1/__init__.py:217 | the join of the selections, row by row, as merge pairs |
| CombineFacts.RowAnyOnlyIf | SAUNIGIGA-EventGridTrigger1/__init__.py:221-222 | the OR over a joined row is true only if Facebook's or ITU's flag is |
| CombineFacts.RowAnyIf | SAUNIGIGA-EventGridTrigger1/__init__.py:221-222 | and it is true if either partner's flag is |
| CombineFacts.MergedAny | SAUNIGIGA-EventGridTrigger1/__init__.py:217-222 | a joined row's OR for a generation equals the OR of the flags of the rows it comes from |
| CombineFacts.MergedKey | SAUNIGIGA-EventGridTrigger1/__init__.py:217 | a joined row's school id is the Facebook row's, else the ITU row's |
| CombineFacts.FacebookRow | SAUNIGIGA-EventGridTrigger1/__init__.py:212 | every selected Facebook row is an input row with a non-null school id |
| CombineFacts.ItuRow | SAUNIGIGA-EventGridTrigger1/__init__.py:213 | every selected ITU row is an input row with a non-null school id |
| CombineFacts.FacebookRowKept | SAUNIGIGA-EventGridTrigger1/__init__.py:212 | every Facebook row with a school id is selected |
| CombineFacts.ItuRowKept | SAUNIGIGA-EventGridTrigger1/__init__.py:213 | every ITU row with a school id is selected |
| CombineFacts.CombineView | SAUNIGIGA-EventGridTrigger1/__init__.py:212-238 | the coverage table is the finishing stages applied to the join of the two selections |
| CombineFacts.CombineRows | SAUNIGIGA-EventGridTrigger1/__init__.py:212-238 | every output row is explained by a Facebook row, an ITU row or both (same school id; a lone row has no match on the other side): its flags are YES/NO of the OR of theirs, its type the best generation, its availability YES exactly when some flag is |
| CombineFacts.CombineKeepsMatches | SAUNIGIGA-EventGridTrigger1/__init__.py:217 | every pair of partner rows sharing a school id gives an output row it explains |
| CombineFacts.CombineKeepsFacebookOnly | SAUNIGIGA-EventGridTrigger1/__init__.py:217 | a Facebook-only school gives an output row, with ITU read as false |
| CombineFacts.CombineKeepsItuOnly | SAUNIGIGA-EventGridTrigger1/__init__.py:217 | an ITU-only school gives an output row, with Facebook read as false |
| CombineFacts.CombineAligned | SAUNIGIGA-EventGridTrigger1/__init__.py:212-238 | partners listing the same schools in the same order give one output row per school, in that order |
| CombineFacts.FlagsKeepSchools | SAUNIGIGA-EventGridTrigger1/__init__.py:191-198 | adding the flags keeps both partners' school lists |
| CombineFacts.FacebookFlag2G | SAUNIGIGA-EventGridTrigger1/__init__.py:191 | the Facebook 2G flag of a row is `percent_2G > 0` |
| CombineFacts.FacebookFlag3G | SAUNIGIGA-EventGridTrigger1/__init__.py:192 | the Facebook 3G flag of a row is `percent_3G > 0` |
| CombineFacts.FacebookFlag4G | SAUNIGIGA-EventGridTrigger1/__init__.py:193 | the Facebook 4G flag of a row is `percent_4G > 0` |
| CombineFacts.ItuFlag2G | SAUNIGIGA-EventGridTrigger1/__init__.py:196 | the ITU 2G flag of a row is `2G >= 1` |
| CombineFacts.ItuFlag3G | SAUNIGIGA-EventGridTrigger1/__init__.py:197 | the ITU 3G flag of a row is `3G == 1` |
| CombineFacts.ItuFlag4G | SAUNIGIGA-EventGridTrigger1/__init__.py:198 | the ITU 4G flag of a row is `4G == 1` |
| CombineFacts.FacebookSelectionFails | SAUNIGIGA-EventGridTrigger1/__init__.py:212 | the Facebook selection fails exactly when a kept column is missing |
| CombineFacts.ItuSelectionFails | SAUNIGIGA-EventGridTrigger1/__init__.py:213 | the ITU selection fails exactly when the school id is missing |
| CombineFacts.CombineFails | SAUNIGIGA-EventGridTrigger1/__init__.py:212-217 | combining fails exactly when Facebook lacks a kept column or ITU lacks the school id |
| CombineFacts.ReconcileFails | SAUNIGIGA-EventGridTrigger1/__init__.py:188-238 | `process_coverage_data` fails exactly when a flag rule fails or either table lacks the school id |
| CombineFacts.KeptAfterRules | SAUNIGIGA-EventGridTrigger1/__init__.py:190-212 | after flag rules that succeed and leave the school id alone, a kept list of the school id and the rule targets misses a column exactly when the table lacks the school id |
| CombineFacts.RulesKeepKeyColumn | SAUNIGIGA-EventGridTrigger1/__init__.py:190-196 | flag rules that succeed and do not target the school id keep it exactly when the table has it |
| CombineFacts.ReconcileRows | SAUNIGIGA-EventGridTrigger1/__init__.py:188-238 | every output row is explained by rows of the flagged partner tables |
| MasterMerge.AddMissing | SAUNIGIGA-EventGridTrigger1/__init__.py:265-267 | afterwards every listed label is present; the row count is kept |
| MasterMerge.AddMissingColumns | SAUNIGIGA-EventGridTrigger1/__init__.py:265-267 | the in-place loop leaves the frame as `AddMissing` says |
| MasterMerge.MergeWithMaster | SAUNIGIGA-EventGridTrigger1/__init__.py:241-271 | a successful merge has exactly the columns of `main_cols`, in order |
| MasterMerge.MergeCoverageAndMaster | SAUNIGIGA-EventGridTrigger1/__init__.py:241-271 | the imperative version (merge, then add the missing columns in place, then project) computes `MergeWithMaster` |
| MasterFacts.MainColsPlain | SAUNIGIGA-EventGridTrigger1/__init__.py:252-263 | no `main_cols` label ends in `_x` or `_y`, and the school id is among them |
| MasterFacts.MatchRow | SAUNIGIGA-EventGridTrigger1/__init__.py:250 | the first coverage row from b with a given school id, or none when no row has it |
| MasterFacts.AddMissingLabel | SAUNIGIGA-EventGridTrigger1/__init__.py:265-267 | after adding, a label is present exactly when it was there or is listed |
| MasterFacts.GetAddMissing | SAUNIGIGA-EventGridTrigger1/__init__.py:265-267 | an existing label keeps its cells; an added one reads null |
| MasterFacts.MasterFails | SAUNIGIGA-EventGridTrigger1/__init__.py:250 | the merge fails exactly when either table lacks the school id |
| MasterFacts.MasterPairs | SAUNIGIGA-EventGridTrigger1/__init__.py:250 | with unique coverage school ids, the left join pairs each master row once, in order |
| MasterFacts.MasterRows | SAUNIGIGA-EventGridTrigger1/__init__.py:250-271 | with unique coverage school ids, the output has exactly the master's row count |
| MasterFacts.MasterRowsGrow | SAUNIGIGA-EventGridTrigger1/__init__.py:250 | a master school that matches two coverage rows makes the output longer than the master |
| MasterFacts.MatchRowFound | SAUNIGIGA-EventGridTrigger1/__init__.py:250 | with unique school ids, the match of a coverage row's id is that row |
| MasterFacts.MatchRowMissing | SAUNIGIGA-EventGridTrigger1/__init__.py:250 | an id no coverage row has finds no match |
| MasterFacts.MergedMasterCell | SAUNIGIGA-EventGridTrigger1/__init__.py:250 | a master-only label (or the school id) reads the master row's cell after the join |
| MasterFacts.MergedCoverageCell | SAUNIGIGA-EventGridTrigger1/__init__.py:250 | a coverage-only label reads the matching coverage row's cell, or null |
| MasterFacts.MergedNoCell | SAUNIGIGA-EventGridTrigger1/__init__.py:250 | a label in both tables is suffixed `_x`/`_y`, so the plain label is gone and reads null |
| MasterFacts.MasterMergeCells | SAUNIGIGA-EventGridTrigger1/__init__.py:241-271 | with unique coverage ids: the output has the master's rows and exactly `main_cols`; each cell is the master's for a master-only label, the matched coverage row's for a coverage-only one, and null otherwise |
| CoverageFixture.FacebookFixtureCells | SAUNIGIGA-EventGridTrigger1/tests.py:68-75 | for every indentation of the literal (the test's own four spaces included), the Facebook fixture has the school id and the three flag columns with the listed `True`/`False` cells |
| CoverageFixture.ItuFixtureCells | SAUNIGIGA-EventGridTrigger1/tests.py:79-86 | for every indentation, the ITU fixture has the school id and the 2G/3G/4G columns with the listed cells |
| CoverageFixture.FacebookCellFlags | SAUNIGIGA-EventGridTrigger1/tests.py:68-75 | a table with the Facebook fixture's cells passes the Facebook flag conversion without a failure |
| CoverageFixture.ItuCellFlags | SAUNIGIGA-EventGridTrigger1/tests.py:79-86 | a table with the ITU fixture's cells passes the ITU flag conversion without a failure |
| CoverageFixture.FixtureSchools | SAUNIGIGA-EventGridTrigger1/tests.py:68-86 | both fixtures list the same three schools in the same order |
| CoverageFixture.FacebookCellRow | SAUNIGIGA-EventGridTrigger1/tests.py:68-75 | the Facebook flags of the three schools: 2G always; 3G except the third; 4G except the second |
| CoverageFixture.ItuCellRow | SAUNIGIGA-EventGridTrigger1/tests.py:79-86 | the ITU flags of the three schools: 2G except the second; 3G always; 4G only the first |
| CoverageFixture.CellRows | SAUNIGIGA-EventGridTrigger1/tests.py:173-174 | the coverage table of the two fixtures has three rows, each explained by the same row of both partners |
| CoverageFixture.CellRow | SAUNIGIGA-EventGridTrigger1/tests.py:173-179 | row x has type `['4G','3G','4G'][x]` and availability YES |
| CoverageFixture.CellCoverage | SAUNIGIGA-EventGridTrigger1/tests.py:173-179 | for any tables with the fixtures' cells, the coverage types are 4G, 3G, 4G and the availabilities YES, YES, YES |
| CoverageFixture.CellSchools | SAUNIGIGA-EventGridTrigger1/tests.py:182-184 | for any tables with the fixtures' cells, the coverage table has one row per school |
| CoverageFixture.FixtureCoverage | SAUNIGIGA-EventGridTrigger1/tests.py:173-179 | `test_coverage_data_creation`: the types are 4G, 3G, 4G and the availabilities YES, YES, YES |
| CoverageFixture.AlignedUnique | SAUNIGIGA-EventGridTrigger1/__init__.py:217 | rows explained by aligned rows of partners with unique school ids carry unique school ids |
| CoverageFixture.FixtureCoverageSchools | SAUNIGIGA-EventGridTrigger1/tests.py:182-184 | the fixtures' coverage table has one row per school |
| CoverageFixture.MasterFixtureKey | SAUNIGIGA-EventGridTrigger1/tests.py:105-113 | the master fixture has four rows, the last two with the same school |
| CoverageFixture.MasterFixtureRows | SAUNIGIGA-EventGridTrigger1/tests.py:182-186 | `test_master_coverage_merge`: merged with a coverage table with one row per school (as `FixtureCoverageSchools` gives), the master fixture keeps its four rows |
| Routing.SearchFrom | SAUNIGIGA-EventGridTrigger1/__init__.py:25 | the first position the look-behind `blob.core.windows.net/` matches at, or none |
| Routing.LineEnd | SAUNIGIGA-EventGridTrigger1/__init__.py:25 | `.*` stops at the first newline |
| Routing.BlobFilePath | SAUNIGIGA-EventGridTrigger1/__init__.py:25 | the path search fails (Python: subscripting None) exactly when the look-behind matches nowhere |
| Routing.BlobFilePathOfUrl | SAUNIGIGA-EventGridTrigger1/__init__.py:24-25 | the path of `https://{account}.blob.core.windows.net/{path}` is path |
| Routing.IsCsvPath | SAUNIGIGA-EventGridTrigger1/__init__.py:27 | the guard of `main`: a path passes exactly when it ends in `.csv`, so the test for an empty path adds nothing |
| Routing.ParsePath | SAUNIGIGA-EventGridTrigger1/__init__.py:31 | the three-way unpacking succeeds exactly when the path has three parts; otherwise ValueError |
| Routing.ParseThenJoin | SAUNIGIGA-EventGridTrigger1/__init__.py:31 | a parsed path joins back to itself, with slash-free parts |
| Routing.JoinThenParse | SAUNIGIGA-EventGridTrigger1/__init__.py:31 | three slash-free parts, joined, parse back to themselves |
| Routing.PartnerName | SAUNIGIGA-EventGridTrigger1/__init__.py:32 | `replace('coverage-data-', '')`: a name without the prefix is returned unchanged, and `coverage-data-` followed by a rest that does not contain it gives that rest |
| Routing.PartnerOfContainer | SAUNIGIGA-EventGridTrigger1/__init__.py:32 | the partner named by `coverage-data-{partner}` is that partner, so the container that `delete_processed_partner_data` builds (line 154) is the one the event came from |
| Routing.CountryCode | SAUNIGIGA-EventGridTrigger1/__init__.py:33 | the country code is all letters, a prefix of the file name, and followed by a non-letter or the end |
| Routing.SearchTarget | SAUNIGIGA-EventGridTrigger1/__init__.py:160-174 | fails exactly for a name other than facebook, itu and giga, with UnboundLocalError, because the exception is built but not raised |
| Routing.PartnerTargets | SAUNIGIGA-EventGridTrigger1/__init__.py:160-167 | a partner is searched for under `processed/` in the container its files arrive in, which is the one `delete_processed_partner_data` deletes from (line 154) |
| Routing.SearchPrefixes | SAUNIGIGA-EventGridTrigger1/__init__.py:160-170 | Facebook's prefix holds the ISO2 code in capitals and ITU's the ISO3 code in lower case, under `processed/`; giga's is the ISO3 code in capitals under `gold/school_data/`, in the container "giga" |
| Routing.RawPath | SAUNIGIGA-EventGridTrigger1/__init__.py:136-137 | a raw snapshot path lies under `{folder}/{partner}/` and passes the trigger's `.csv` guard |
| Routing.MasterPath | SAUNIGIGA-EventGridTrigger1/__init__.py:138-139 | a coverage or master path lies under `{folder}/` and passes the trigger's `.csv` guard |
| Routing.StoredNames | SAUNIGIGA-EventGridTrigger1/__init__.py:136-139 | the two raw snapshot paths differ (`RawPathsDiffer`, which `Pipeline.SavedFiles` uses for the distinct first two uploads); both stored file names give their ISO3 code back as their country code |
| Routing.RawPathsDiffer | SAUNIGIGA-EventGridTrigger1/__init__.py:136-137 | the Facebook and ITU raw snapshot paths of one country and timestamp are never the same path |
| Routing.MasterPathFolder | SAUNIGIGA-EventGridTrigger1/__init__.py:138-139 | two master paths of one country coincide only when their folders do |
| BlobStore.BelowTotal | SAUNIGIGA-EventGridTrigger1/__init__.py:174-178 | the listing order is a strict total order on names (with BelowIrreflexive and BelowTransitive) |
| BlobStore.Find | SAUNIGIGA-EventGridTrigger1/__init__.py:183 | finds the blob with a name, or none when there is none |
| BlobStore.Put | SAUNIGIGA-EventGridTrigger1/__init__.py:318 | an upload keeps the container sorted and replaces the blob of that name |
| BlobStore.Remove | SAUNIGIGA-EventGridTrigger1/__init__.py:323 | a delete keeps the container sorted and removes exactly that name |
| BlobStore.Listing | SAUNIGIGA-EventGridTrigger1/__init__.py:327-330 | lists exactly the names with the prefix, in increasing order |
| BlobStore.ListingFirstIsLeast | SAUNIGIGA-EventGridTrigger1/__init__.py:177-178 | the first listed name is the least name with the prefix |
| BlobStore.Read | SAUNIGIGA-EventGridTrigger1/__init__.py:294-298 | a download succeeds exactly when the blob exists, and gives its table |
| BlobStore.Write | SAUNIGIGA-EventGridTrigger1/__init__.py:313-319 | an upload fails exactly when the container is missing or, without overwrite, the blob exists |
| BlobStore.Erase | SAUNIGIGA-EventGridTrigger1/__init__.py:321-324 | a delete fails exactly when the blob is missing |
| BlobStore.ListNames | SAUNIGIGA-EventGridTrigger1/__init__.py:327-330 | listing fails exactly for a missing container; every listed name has the prefix and can be read |
| BlobStore.WriteThenRead | SAUNIGIGA-EventGridTrigger1/__init__.py:313-319 | after an upload, its path reads the uploaded table and every other path reads as before |
| BlobStore.EraseThenRead | SAUNIGIGA-EventGridTrigger1/__init__.py:321-324 | after a delete, its path is not found and every other path reads as before |
| BlobStore.Notifier.Send | SAUNIGIGA-EventGridTrigger1/__init__.py:274-285 | sending appends the text to the log |
| BlobStore.BlobService.List | SAUNIGIGA-EventGridTrigger1/__init__.py:327-330 | the client's listing is `ListNames` of its store |
| BlobStore.BlobService.Download | SAUNIGIGA-EventGridTrigger1/__init__.py:294-302 | returns `Read` of the store, and sends the fetch-error text exactly when it fails |
| BlobStore.BlobService.Upload | SAUNIGIGA-EventGridTrigger1/__init__.py:313-319 | changes the store as `Write` says, or not at all on error |
| BlobStore.BlobService.Delete | SAUNIGIGA-EventGridTrigger1/__init__.py:321-324 | changes the store as `Erase` says, or not at all on error |
| Pipeline.EnvGet | SAUNIGIGA-EventGridTrigger1/__init__.py:122-132 | `os.environ[name]` gives the setting, or KeyError(name) exactly when it is absent |
| Pipeline.Fetch | SAUNIGIGA-EventGridTrigger1/__init__.py:159-185 | `get_blob_storage_data` as a function: a blob it finds holds a well-formed table; which blob it finds, and when it finds none, is stated by `FetchFirst` and `FetchNone` |
| Pipeline.FetchFirst | SAUNIGIGA-EventGridTrigger1/__init__.py:174-185 | a fetched blob is in the target container, its name has the prefix and is below every other prefixed name there (the first of the sorted listing), and its table is what downloading that name reads |
| Pipeline.FetchNone | SAUNIGIGA-EventGridTrigger1/__init__.py:159-181 | fetching fails exactly when the name has no search target or its container is missing, and finds nothing exactly when no blob of the container has the prefix |
| Pipeline.Gather | SAUNIGIGA-EventGridTrigger1/__init__.py:113-119 | the loop of `get_partner_data`: when it gives files, one well-formed entry per partner with that partner's name, in order; their contents and the all-or-nothing outcome are stated by `GatherContents`, `GatherNothing` and `GatherNothingAt` |
| Pipeline.GatherContents | SAUNIGIGA-EventGridTrigger1/__init__.py:113-119 | the loop gives files exactly when every partner's fetch finds one, and entry k is then partner k with the blob fetched for it |
| Pipeline.GatherNothing | SAUNIGIGA-EventGridTrigger1/__init__.py:112-116 | the loop gives (None, None) when some partner's fetch finds no file and every partner before it has one |
| Pipeline.GatherNothingAt | SAUNIGIGA-EventGridTrigger1/__init__.py:112-116 | and only then: when the loop gives (None, None), it returns the first partner without a file, all partners before it having one |
| Pipeline.PartnerDataOf | SAUNIGIGA-EventGridTrigger1/__init__.py:109-125 | `get_partner_data`: found files are one well-formed entry per partner, in order, and a master table is well formed; what is collected is stated by `PartnerDataParts` |
| Pipeline.PartnerDataParts | SAUNIGIGA-EventGridTrigger1/__init__.py:109-125 | it returns (None, None) exactly when the loop finds no files; otherwise the gathered files, and as master the table fetched from the container named by `DATA_CONTAINER_NAME`, or none |
| Pipeline.GetBlobStorageData | SAUNIGIGA-EventGridTrigger1/__init__.py:159-185 | the imperative lookup returns `Fetch` and sends nothing; a found blob is the least-named blob under the target and holds the table stored under its name; it finds nothing exactly when no blob of the existing container has the prefix |
| Pipeline.GatherStep | SAUNIGIGA-EventGridTrigger1/__init__.py:114-120 | one loop step: a failure stops the loop, a missing file gives (None, None), a found file is added |
| Pipeline.GatherPartners | SAUNIGIGA-EventGridTrigger1/__init__.py:113-119 | the loop with its early return computes `Gather`: it gives files exactly when every partner's fetch finds one, entry k being partner k with its fetched blob |
| Pipeline.GetPartnerData | SAUNIGIGA-EventGridTrigger1/__init__.py:109-125 | computes `PartnerDataOf` and sends nothing: (None, None) exactly when the loop finds no files; otherwise entry k is partner k with its fetched blob, `DATA_CONTAINER_NAME` is set, and the master is the table fetched from that container, or none |
| Pipeline.WriteAll | SAUNIGIGA-EventGridTrigger1/__init__.py:142-149 | the uploads in order, stopping at the first failure: the store stays valid; the stopping rule is `Pipeline.WriteAllStep`, and what a successful sequence leaves is stated by `Pipeline.LastWrite`, `WriteAllReads` and `WriteAllKeeps` |
| Pipeline.WriteAllStep | SAUNIGIGA-EventGridTrigger1/__init__.py:142-149 | the first failing upload stops the rest and keeps what was written |
| Pipeline.StoreUploads | SAUNIGIGA-EventGridTrigger1/__init__.py:136-149 | the four uploads of `store_files`: exactly four, the two raw snapshot paths differ, and every path passes the trigger's `.csv` guard |
| Pipeline.Saved | SAUNIGIGA-EventGridTrigger1/__init__.py:128-149 | `store_files` as a function: the stores it leaves are valid; when it succeeds (`SavedSucceeds`) and what it writes where (`SavedFiles`, `SavedElsewhere`) are stated by the lemmas after it |
| Pipeline.StoreFiles | SAUNIGIGA-EventGridTrigger1/__init__.py:128-149 | the four uploads leave the store, and return the error, that `Saved` gives; they succeed exactly when `CanStore` holds; then the master path reads the master table, the processed path the coverage table (unless the two folders are one), each raw snapshot path its partner table (unless a later upload overwrote it), and every other blob reads as before |
| Pipeline.DeleteProcessedPartnerData | SAUNIGIGA-EventGridTrigger1/__init__.py:152-156 | the deletes leave the store, and return the error, that `EraseAll` gives; they succeed exactly when `CanErase` holds, and then each partner file is not found and every other blob reads as before |
| Pipeline.LastWrite | SAUNIGIGA-EventGridTrigger1/__init__.py:142-149 | the table of the last upload to a path: none exactly when no upload goes there, otherwise the data of an upload to that path |
| Pipeline.WriteAllReads | SAUNIGIGA-EventGridTrigger1/__init__.py:142-149 | after uploads that all succeed, a path of the container reads what the last upload to it wrote, and every other blob of every container reads as before |
| Pipeline.WriteAllKeeps | SAUNIGIGA-EventGridTrigger1/__init__.py:142-149 | uploads that all succeed keep every container and every readable blob |
| Pipeline.SavedSucceeds | SAUNIGIGA-EventGridTrigger1/__init__.py:128-149 | `store_files` succeeds exactly when `CanStore` holds: the four settings are present, the data container exists, and neither raw snapshot exists yet (they are uploaded without overwrite) |
| Pipeline.OverwritesSucceed | SAUNIGIGA-EventGridTrigger1/__init__.py:146-149 | uploads with overwrite into an existing container all succeed |
| Pipeline.LastOfFour | SAUNIGIGA-EventGridTrigger1/__init__.py:142-149 | which of the four uploads wrote a path last |
| Pipeline.SavedFiles | SAUNIGIGA-EventGridTrigger1/__init__.py:136-149 | after `store_files` succeeds the master path reads the master table; the processed path reads the coverage table unless the processed and master folders are one; each raw snapshot path reads its partner table unless a later path equals it; the two raw paths differ |
| Pipeline.SavedElsewhere | SAUNIGIGA-EventGridTrigger1/__init__.py:142-149 | `store_files` changes no blob but the four it writes |
| Pipeline.SavedKeeps | SAUNIGIGA-EventGridTrigger1/__init__.py:142-149 | `store_files` keeps every blob that was readable |
| Pipeline.SavedKeepsErasable | SAUNIGIGA-EventGridTrigger1/__init__.py:142-156 | after `store_files` every partner file found is still there to delete |
| Pipeline.EraseAll | SAUNIGIGA-EventGridTrigger1/__init__.py:152-156 | `delete_processed_partner_data` as a function: the store stays valid; when it succeeds and what it removes are stated by `Pipeline.EraseAllSucceeds`, `EraseAllReads` and `EraseAllLeaves` |
| Pipeline.EraseAllReads | SAUNIGIGA-EventGridTrigger1/__init__.py:152-156 | after the deletes succeed, each partner file reads ResourceNotFound and every other blob reads as before |
| Pipeline.EraseAllSucceeds | SAUNIGIGA-EventGridTrigger1/__init__.py:152-156 | the deletes succeed exactly when every partner file is in its partner's container and no two of them are the same blob |
| Pipeline.EraseAllLeaves | SAUNIGIGA-EventGridTrigger1/__init__.py:152-156 | both together: success exactly when `CanErase` holds, then the partner files gone and everything else unchanged |
| Pipeline.Stages | SAUNIGIGA-EventGridTrigger1/__init__.py:67-100 | processing, merge, store and delete once both partner files are found: the store stays valid; completion exactly when every stage succeeds, with one error message otherwise, is `PipelineFacts.StagesCompleted` |
| Pipeline.SaveStage | SAUNIGIGA-EventGridTrigger1/__init__.py:83-100 | the store and delete stages with their error messages: the store stays valid; `Pipeline.SaveAndDelete` is the method equal to it and `PipelineFacts.StagesCompleted` states its outcomes |
| Pipeline.Processed | SAUNIGIGA-EventGridTrigger1/__init__.py:48-100 | the `processed` branch of `main`: the store stays valid; its runs are stated by `PipelineFacts.NotEnoughDataRun`, `MissingPartnerRun`, `ProcessedRun` and `ProcessedRunCompletes` |
| Pipeline.Dispatch | SAUNIGIGA-EventGridTrigger1/__init__.py:36-103 | the folder dispatch of `main`: the store stays valid; its messages and store changes are stated by `PipelineFacts.DispatchNotify`, `DispatchChanges` and `DispatchProcessed`, and its three folders by `UnprocessedRun`, `OtherFolderRun` and `ProcessedRun` |
| Pipeline.Trigger | SAUNIGIGA-EventGridTrigger1/__init__.py:20-106 | `main` as a function: the store stays valid; at most one message, sent exactly when it completes, is `PipelineFacts.TriggerNotifiesOnce`, the ignored events are `PipelineFacts.IgnoredExactly`, and its store and outcome come from the dispatch by `PipelineFacts.TriggerDispatch` and `TriggerStore`; `Pipeline.HandleEvent` is the method equal to it |
| Pipeline.RunStages | SAUNIGIGA-EventGridTrigger1/__init__.py:67-100 | the processing, merge, save and delete stages change the store and send what `Stages` says |
| Pipeline.SaveAndDelete | SAUNIGIGA-EventGridTrigger1/__init__.py:82-100 | storing and deleting change the store and send what `SaveStage` says: one error message at the first failing stage, otherwise nothing |
| Pipeline.RunDispatch | SAUNIGIGA-EventGridTrigger1/__init__.py:36-100 | the folder dispatch changes the store, sends and returns the text that `Dispatch` says |
| Pipeline.RunProcessed | SAUNIGIGA-EventGridTrigger1/__init__.py:48-100 | the processed branch changes the store and sends what `Processed` says |
| Pipeline.HandleEvent | SAUNIGIGA-EventGridTrigger1/__init__.py:20-106 | `main` ends, changes the store and sends exactly what `Trigger` says |
| PipelineFacts.DispatchNotify | SAUNIGIGA-EventGridTrigger1/__init__.py:36-100 | a branch that completes sends nothing before the final message; at most one message on the way; outside `processed` the store is untouched |
| PipelineFacts.TriggerNotifiesOnce | SAUNIGIGA-EventGridTrigger1/__init__.py:20-106 | an event sends at most one message; it completes exactly when it sends one and its branch succeeds; an ignored event sends nothing and changes nothing |
| PipelineFacts.IgnoredExactly | SAUNIGIGA-EventGridTrigger1/__init__.py:27-29 | an event is ignored exactly when its path is found and is empty or does not end in `.csv` |
| PipelineFacts.UnprocessedRun | SAUNIGIGA-EventGridTrigger1/__init__.py:36-103 | an `unprocessed` file sends only the "has been sent to" text and changes nothing |
| PipelineFacts.OtherFolderRun | SAUNIGIGA-EventGridTrigger1/__init__.py:36-103 | a file in any other folder raises UnboundLocalError, sends nothing and changes nothing |
| PipelineFacts.NotEnoughDataRun | SAUNIGIGA-EventGridTrigger1/__init__.py:60-103 | with `get_partner_data` giving (None, None), the received text and the "not enough partner data" text are sent as one message and the store is untouched |
| PipelineFacts.MissingPartnerRun | SAUNIGIGA-EventGridTrigger1/__init__.py:60-103 | the same run derived from the store: when some partner's fetch finds no file and every partner before it has one, one message with the not-enough-data line, and the store untouched |
| PipelineFacts.FoundErasable | SAUNIGIGA-EventGridTrigger1/__init__.py:109-156 | the partner files `get_partner_data` finds are in the containers `delete_processed_partner_data` deletes from, under the names found, holding the tables read, and are two different blobs |
| PipelineFacts.StagesCompleted | SAUNIGIGA-EventGridTrigger1/__init__.py:67-100 | the stages complete exactly when every stage succeeds, then with the saved and cleaned store and nothing sent on the way; otherwise exactly one error message |
| PipelineFacts.ProcessedRun | SAUNIGIGA-EventGridTrigger1/__init__.py:48-103 | a completed `processed` run found Facebook's and ITU's files, all stages succeeded, and it sends only the "processed and saved" text |
| PipelineFacts.ProcessedRunCompletes | SAUNIGIGA-EventGridTrigger1/__init__.py:48-103 | conversely, a `processed` file whose partner files are all found and whose stages all succeed completes |
| PipelineFacts.StoreChanges | SAUNIGIGA-EventGridTrigger1/__init__.py:48-97 | the store changes only for a `processed` file whose partner files were all found |
| PipelineFacts.TriggerDispatch | SAUNIGIGA-EventGridTrigger1/__init__.py:20-106 | for an event whose path is found, `main` completes with the dispatched text sent last, or raises its error with only the dispatch messages sent |
| PipelineFacts.TriggerStore | SAUNIGIGA-EventGridTrigger1/__init__.py:20-106 | an event without a found path leaves the store as it is; otherwise the store is the one the folder dispatch leaves |
| PipelineFacts.DispatchChanges | SAUNIGIGA-EventGridTrigger1/__init__.py:36-97 | the dispatch changes the store only for a `processed` file, with the storage setting present and all partner files found |
| PipelineFacts.DispatchProcessed | SAUNIGIGA-EventGridTrigger1/__init__.py:48-69 | when the partner files are found, they are Facebook's and ITU's, in that order, well-formed, and the dispatch runs the stages on them with the received text |
| PipelineFacts.EventOfUrl | SAUNIGIGA-EventGridTrigger1/__init__.py:24-31 | the URL of a csv blob in three clean parts names that blob |
| PipelineFacts.FacebookTitle | SAUNIGIGA-EventGridTrigger1/tests.py:118-123 | `'facebook'.title()` is "Facebook" |
| PipelineFacts.UnprocessedTestEvent | SAUNIGIGA-EventGridTrigger1/tests.py:13-56 | the unprocessed test event names Rwanda's unprocessed Facebook file |
| PipelineFacts.ProcessedTestEvent | SAUNIGIGA-EventGridTrigger1/tests.py:18-64 | the processed test event names Rwanda's processed Facebook file |
| PipelineFacts.TestNames | SAUNIGIGA-EventGridTrigger1/tests.py:118-121 | the test's partner is facebook, titled Facebook, and its country Rwanda |
| PipelineFacts.UnprocessedTestRun | SAUNIGIGA-EventGridTrigger1/tests.py:116-125 | `test_file_added_to_unprocessed_folder`: exactly one message, "File RWA_school_geolocation_unprocessed.csv for Rwanda has been sent to Facebook", and the store untouched |
| PipelineFacts.NotEnoughDataTestRun | SAUNIGIGA-EventGridTrigger1/tests.py:128-146 | `test_file_added_to_processed_folder_one_partner_available`: exactly the received text followed by the not-enough-data line, and the store untouched |
| PipelineFacts.TestStagesSucceed | SAUNIGIGA-EventGridTrigger1/tests.py:149-170 | on the test's two frames and master, every stage succeeds: the reconciliation, the master merge, storing (in an account that accepts the uploads) and deleting |
| PipelineFacts.ProcessedTestRun | SAUNIGIGA-EventGridTrigger1/tests.py:149-170 | `test_file_added_to_processed_all_files_available`: with `get_partner_data` returning the test's two frames and master, and an account that accepts the uploads, `main` completes and sends exactly the received text followed by "Coverage data has been processed and saved" |

## Left out

- The Slack webhook POST (`send_slack_message`) is a log append. The webhook setting and the HTTP response are not modelled.
- The traceback appended to each error notification is not modelled. The model sends only the text's fixed first line.
- The Azure SDK is not modelled: client construction, connection strings and network failures. Listing, download, upload and delete act on an in-memory store.
- `pd.read_csv` and `to_csv` are not modelled. A blob holds a parsed table, and numeric cells are reals. pandas dtypes, NaN-versus-None distinctions and `object` columns are not modelled.
- `coco.convert` is a function parameter. So are the environment and the timestamp string.
- Logging is not modelled.
- The commented-out e-mail code in `main` is not modelled.
- Concurrency between triggers, and the pytest mocks, are not modelled. Where a test mocks `get_partner_data`, the test lemma takes what that mock returns as a precondition.
- PipelineFacts.ProcessedTestRun: the test mocks `store_files` and `delete_processed_partner_data` with functions that do nothing; the lemma runs the real ones instead, on an account in which `Pipeline.CanStore` holds (the data container exists and the raw snapshots are new). The deletes then succeed by `PipelineFacts.FoundErasable`.
- Strings.UpperIsUpper: case mapping is ASCII only; Python's Unicode case rules are not modelled.
- Strings.TitleAt: `str.title` is modelled for ASCII letters only.
- Pipeline.Fetch: a download failure right after a successful listing cannot happen in the model, because the listed blob is in the store. The error path of `download_from_blob_client` is modelled only in `BlobStore.BlobService.Download`.
- Tables.Merge: the outer join orders rows as pandas did before version 2.2 with `sort=False`. The fixture's expected `['4G','3G','4G']` relies on that order. Newer pandas sorts outer-join keys.
- Tables.IndexOf: a duplicated label is read through its first column. That is how the model reads the two `2G_coverage`/`3G_coverage` entries in the ITU allow-list. pandas would return a two-column frame there.
- Coverage.ProcessCoverageData: the postconditions assume the two frames are distinct objects, as `main` always passes them. Aliasing of the caller's frames is not otherwise modelled.
- BlobStore.Listing: Azure's listing order is taken to be lexicographic by name.
- CoverageFixture.MasterFixtureRows: it takes the coverage table as a parameter with one row per school. `FixtureCoverageSchools` proves the fixtures' coverage table has one row per school. A lemma that states the row count of the merge of the literal fixtures directly exceeds the verifier's resource limit. `PipelineFacts.TestStagesSucceed` chains the two only as far as the merge succeeding.

## Where the code departs from its evident intent

The model follows the code in each case.

- `test_master_coverage_merge` (`tests.py:182-186`) checks that the merged master keeps the master's row count. The left join at `__init__.py:250` keeps it only when each master school matches at most one coverage row. That holds when the coverage school ids are unique, as they are for the test's fixtures. `MasterFacts.MasterRows` proves the row count under that condition. `MasterFacts.MasterRowsGrow` proves the output grows when a master school matches two coverage rows.
- A non-key label in both the master and the coverage table is suffixed `_x`/`_y` by the left join. The final projection then reads the plain label as all-null (`MasterFacts.MergedNoCell`). So a master that already carries `coverage_type` loses those values.
- The ITU rules are not uniform: 2G uses `>= 1`, 3G and 4G use `== 1` (`__init__.py:196-198`). A 3G or 4G tier value of 2 therefore gives no flag (`CombineFacts.ItuFlag3G`, `CombineFacts.ItuFlag4G`).
- For an unknown container name, `__init__.py:172` builds an `Exception` without raising it. `name_starts_with` is then unbound at line 174, so the call fails with UnboundLocalError rather than the descriptive message (`Routing.SearchTarget`). The master lookup reaches the `giga` branch only when `DATA_CONTAINER_NAME` is literally `giga`.
- The stored raw snapshots are the partner frames after `process_coverage_data` added their flag columns, not the files as received (`Pipeline.Stages`).
- A folder other than `unprocessed` and `processed` leaves the notification text unbound, so `main` raises UnboundLocalError instead of ignoring the event (`PipelineFacts.OtherFolderRun`).

# Offer-response reconstruction, modelled in Dafny

This project models the data-preparation core of a customer-segmentation pipeline built on
Starbucks-style reward-programme data: a portfolio of offers, customer profiles, and an event
transcript of received, viewed and completed offers and plain transactions. At its centre is
`create_response`, which decides for each (customer, offer) pair whether the customer
genuinely responded to the offer. It also attributes to each valid response the reward it
earned and the customer's spend at the completion time. The modelled code around it:

- `gen_id_map`: dense integer ids, in first-seen order, starting at 1.
- The age and income bucketizers.
- The channel one-hot split and the ".0" renaming of the registration-date dummy columns.
- Per-event field extraction in `clean_transcript_df`.
- The date split and the missing-age rules in `clean_profile_df`.

Modules, one per file:

- `Wrappers`: `Option`.
- `Digits`: decimal rendering and parsing of integers, i.e. Python's `str`/`int` on integers.
- `Events`: event kinds, their labels, and the cleaned event record.
- `Generator`: `gen_id_map` and the `defaultdict(int)` reads of its result.
- `Separater`: bucketizers, channel columns, column renaming.
- `Cleaner`: transcript and profile cleaning.
- `AmountStorer`: the `(profile, time)` transaction accumulator.
- `Validity`: `check_validity`, its episode reading and its properties.
- `Combiner`: `create_response` and its equivalence with a transaction pre-pass.
- `Scenarios`: concrete runs of `check_validity`.

Python floats are modelled as `real`. Python ints are modelled as `int`. Strings are
`seq<char>`. Pandas tables are sequences of records.

How pandas and `defaultdict` behaviour is modelled:

- **Group visiting order.** `groupby` visits groups in ascending key order. `GroupKeys` sorts
  and deduplicates the keys; `Group` keeps a group's events in log order.
- **Insert-on-read.** Reading a missing key of a `defaultdict` inserts it with the default
  value. `Generator.DefaultGet`, `Generator.ReadAll` and `AmountStorer.GetAmountInserting`
  model this insertion. Lemmas show it never changes a later read, so the rest of the model
  reads without inserting.
- **Event-kind comparison.** `check_validity` compares sets of event-kind strings. The model
  compares sets of `EventKind` values instead. `KindOf` is injective and `KindLabel(KindOf(x)) == x`.
  On the kinds `KindOf` produces (the `Canonical` ones), `KindLabel` is injective too
  (`Events.KindLabelInjective`). A label-set comparison and a kind-set comparison therefore
  agree on cleaned events (`Validity.ExpectedByLabels`).

## Model

| member | source | states |
|---|---|---|
| AmountStorer.GenKeySplits | combiner.py:21-22 | the key `str(p) + "-" + str(t)` reads back as `(p, t)`: an optional minus sign and the digits up to the next hyphen give `p`, the rest gives `t` |
| AmountStorer.GenKeyInjective | combiner.py:21-22 | `str(p) + "-" + str(t)` never collides: equal keys mean equal profile and equal time, for all integers, negative ones included |
| AmountStorer.SetAmount | combiner.py:24-25 | after `set_amount(p, t, a)`, `get_amount(p, t)` is its old value plus `a`; it accumulates, it does not overwrite |
| AmountStorer.SetAmountFrame | combiner.py:24-28 | `set_amount(p, t, a)` leaves `get_amount(q, u)` unchanged for every other `(q, u)` |
| AmountStorer.SetAmountReads | combiner.py:24-28 | after `set_amount(p, t, a)` every read `get_amount(q, u)` returns its old value, plus `a` exactly when `(q, u) == (p, t)` |
| AmountStorer.GetAmountIsInsertingRead | combiner.py:27-28 | the read without insertion returns what `self.map[key]` on the `defaultdict` returns, and the same read after that insertion returns it again |
| AmountStorer.NeverSetIsZero | combiner.py:18-28 | a `(profile, time)` never set reads 0.0 (`defaultdict(float)`) |
| AmountStorer.InsertingReadInvisible | combiner.py:18-28 | the key `get_amount` inserts on a miss changes no later `get_amount` or `set_amount` result |
| Validity.CheckValidity | combiner.py:41-60 | the result equals the totals of the valid completions of the time-ordered group: count ≤ number of completions in the group, and count 0 implies amount 0 and reward 0 |
| Validity.CheckValidityLoop | combiner.py:41-60 | the loop with `event_set` cleared after every completion computes `CheckValidity`, at most one count per completion, zero totals without a valid response |
| Validity.ReplayLoop | combiner.py:46-58 | the `for` loop over the time-ordered rows, with `event_set` cleared after every completion, ends with the totals of the episode replay |
| Validity.ReplayIsEpisodes | combiner.py:48-58 | after any prefix, the event set is exactly the kinds since the last completion, and count/amount/reward are the sums over completions whose episode kinds, the completion included, are exactly {received, viewed, completed}; amount adds `get_amount(profile, completion time)` and reward adds `event_reward` |
| Validity.CountedIff | combiner.py:50-54 | a completion counts iff the earlier events of its episode are receipts and views only, with at least one of each |
| Validity.CountedHasReceiptAndView | combiner.py:50-54 | a counted completion has a receipt and a view earlier in its own episode |
| Validity.StrayKindSpoilsEpisode | combiner.py:50-53 | any other kind in the episode, a transaction included, stops the completion from counting |
| Validity.TrailingEventsIgnored | combiner.py:48-58 | events after the last completion leave count, amount and reward unchanged |
| Validity.SwapWithinEpisode | combiner.py:48-53 | swapping two adjacent non-completion events leaves the replay unchanged: order inside an episode is irrelevant |
| Validity.CheckValidityStoreLocal | combiner.py:55 | the result depends on the store only through this customer's entries |
| Validity.SortByTime | combiner.py:45 | the group is put in ascending time order, keeping its length |
| Validity.SortByTimePermutes | combiner.py:45 | the sorted group holds exactly the events of the group, each as often (a permutation) |
| Validity.SortSorted | combiner.py:45 | a group whose times strictly increase is left as it is |
| Validity.SingleEpisodeGroup | combiner.py:48-56 | receipt, view and completion at strictly increasing times give one valid response crediting the spend at the completion time and its reward |
| Validity.NumCompletedSort | combiner.py:45 | sorting neither adds nor drops completions |
| Scenarios.OneEpisode | combiner.py:41-60 | received at 10, viewed at 15, completed at 20 with reward 5, 19.89 spent at 20: count 1, amount 19.89, reward 5 |
| Scenarios.NoView | combiner.py:41-60 | received at 10, completed at 20 without a view: count 0, amount 0, reward 0 |
| Scenarios.TwoEpisodes | combiner.py:41-60 | two complete episodes: count 2, reward 5 + 3, amount the sum of the spends at the two completion times |
| Scenarios.SamePurchaseTwice | combiner.py:96-100 | two offers completed at the same time are both credited the purchase made then |
| Combiner.GroupKeys | combiner.py:76 | the keys are visited strictly ascending by (profile id, offer id), each key of the log exactly once |
| Combiner.Group | combiner.py:76-82 | a group holds exactly the log's events with its key, each as often as in the log |
| Combiner.GroupAppend | combiner.py:76-82 | grouping keeps log order: the group of `a + b` is the group of `a` followed by the group of `b` |
| Combiner.MakeRow | combiner.py:99-102 | `response` is 1 iff `resp_number` > 0; otherwise the row is `[0, p, o, 0, 0.0, 0]` |
| Combiner.StoreGroup | combiner.py:85-89 | storing a customer's offer-0 group adds its amounts to that customer's times and leaves every other read unchanged |
| Combiner.Visit | combiner.py:82-102 | the loop over the visited keys emits one row per key with a nonzero offer id, in visiting order, whatever the store holds |
| Combiner.CreateResponse | combiner.py:63-111 | the response rows are keyed by the groups with a nonzero offer id, one each, in strictly ascending (profile id, offer id) order |
| Combiner.SpendStoreSums | combiner.py:85-89 | the full transaction pre-pass holds, for every customer and time, the sum of that customer's transactions at that time |
| Combiner.VisitStore | combiner.py:76-91 | while visiting in ascending order, a customer's store entries are 0 until the customer's offer-0 group is visited and hold the full sums after it |
| Combiner.CreateResponseIsTwoPhase | combiner.py:76-102 | with non-negative offer ids, the incremental visit gives the same rows as a full transaction pre-pass followed by all offer groups |
| Combiner.CreateResponseShape | combiner.py:82-102 | exactly one row per group with a nonzero offer id, none for offer 0, in ascending key order; flag 1 iff a valid response, zero totals otherwise |
| Generator.GenIdMap | generator.py:4-16 | the keys are exactly the distinct input ids, and the codes are 1..n, each used once |
| Generator.KeysAreIds | generator.py:11-14 | the key set is exactly the set of input ids |
| Generator.CodesAreOneToN | generator.py:9-14 | the codes are exactly 1..n, n the number of distinct ids |
| Generator.Injective | generator.py:12-14 | distinct ids get distinct codes |
| Generator.FirstSeenOrder | generator.py:11-14 | if x first occurs before y then code(x) < code(y) |
| Generator.AppendSeen | generator.py:12 | appending an already-seen id leaves the map unchanged |
| Generator.AppendNew | generator.py:12-14 | appending a new id assigns it n + 1 and changes nothing else |
| Generator.Idempotent | generator.py:11-14 | running again over ids already seen leaves the map unchanged |
| Generator.CodesStable | generator.py:12-14 | a code once assigned is never changed by later ids |
| Generator.LookupZeroIffMissing | generator.py:8 | a lookup yields 0 iff the id is absent, and 0 is never a code |
| Generator.GenIdMapLoop | generator.py:8-16 | the loop with an explicit counter builds exactly the keys of the input, in first-seen code order |
| Generator.ReadAllIsLookup | generator.py:8 | reads through the `defaultdict`, which insert missing keys as 0, return the same values as plain lookups |
| Separater.AgeSegmentEnds | separater.py:156-175 | every age ≤ 20, exactly 20 included, gives "(0, 20]"; every age > 100 gives "(100, 120]" |
| Separater.AgeSegmentDecade | separater.py:158-173 | for 2 ≤ k ≤ 9, an age in (10k, 10k + 10] gives the label "(10k, 10k+10]" |
| Separater.AgeSegment | separater.py:155-177 | the result is always one of the ten labels, never the initial -1 |
| Separater.AgeSegmentIsBucketize | separater.py:155-177 | the branch chain equals the generic table bucketizer over bounds 20..100 |
| Separater.AgeSegmentMonotone | separater.py:155-177 | an older customer never gets an earlier band |
| Separater.IncomeSegmentEnds | separater.py:211-230 | income ≤ 30000 gives "(0, 30000]"; income > 110000 gives "(110000, 120000]" |
| Separater.IncomeSegmentBand | separater.py:213-228 | for 3 ≤ k ≤ 10, an income in (10000k, 10000k + 10000] gives that interval's label |
| Separater.IncomeSegment | separater.py:210-232 | the result is always one of the ten labels |
| Separater.IncomeSegmentIsBucketize | separater.py:210-232 | the branch chain equals the generic table bucketizer over bounds 30000..110000 |
| Separater.IncomeSegmentMonotone | separater.py:210-232 | a higher income never gets an earlier band |
| Separater.BandIndexOfInterval | separater.py:155-177 | with ascending inclusive upper bounds, a value lands in the one band whose half-open interval holds it |
| Separater.SortStrings | separater.py:24 | `types.sort()` yields an ascending permutation of the types |
| Separater.SeparateChannels | separater.py:24-31 | the caller's type list comes back sorted and permuted |
| Separater.SeparateChannelsExact | separater.py:24-31 | with distinct types: one column per sorted type, named `prefix + "_" + t`, whose cell is 1 iff t is in that row's channels, else 0 |
| Separater.StripDotZero | separater.py:100-104 | a name ending in ".0" loses exactly that suffix; any other name is unchanged |
| Separater.StripDotZeroOnce | separater.py:100-104 | the suffix is removed exactly once: `name + ".0"` comes back as `name` |
| Separater.StripColumnNames | separater.py:99-121 | the renamed column list has one stripped name per original name, in order |
| Cleaner.ExtractOfferId | cleaner.py:182-189 | the result is the "offer_id" value when present, else the "offer id" value, else "0" |
| Cleaner.RemapOfferId | cleaner.py:195-196 | "0" maps to 0 without a lookup; any other text maps to its code, or to 0 when it has none |
| Cleaner.CleanRow | cleaner.py:172-204 | row i gets event id i + 1, the time, the verbatim event label, the attachment's amount and reward (0 when absent), the customer's code and the remapped offer id |
| Cleaner.ExtractOfferIdPrecedence | cleaner.py:182-189 | "offer_id" is preferred over "offer id", and "0" is returned when neither is present |
| Cleaner.CleanedOfferId | cleaner.py:182-196 | offer id 0 iff the text is "0" or unknown; otherwise the offer's code; "0" bypasses the map |
| Cleaner.CleanedAmounts | cleaner.py:199-204 | amount and reward are the attachment's values, or 0 when absent |
| Cleaner.CleanedProfileId | cleaner.py:178-179 | the customer id is the customer's code, or 0 for an unknown customer |
| Cleaner.CleanTranscript | cleaner.py:172-218 | exactly one row per input row, event ids 1..n in input order, time and kind carried over |
| Cleaner.CleanTranscriptAppend | cleaner.py:172-218 | rows are cleaned independently; event ids of a second part continue after the first |
| Cleaner.CleanedOfferIdsNonNegative | cleaner.py:182-196 | every cleaned offer id is ≥ 0 |
| Cleaner.SplitMemberDate | cleaner.py:104-108 | the split fails (Python's `int('')` raises) exactly when the date has at most four digits |
| Cleaner.SplitEightDigitDate | cleaner.py:104-108 | an eight-digit YYYYMMDD gives year YYYY and month MM |
| Cleaner.SplitMemberDateExample | cleaner.py:104-108 | 20170815 gives year 2017 and month 8 |
| Cleaner.CleanProfile | cleaner.py:59-150 | a successful cleaning has exactly one row per kept row |
| Cleaner.CleanProfileFails | cleaner.py:85-108 | cleaning fails exactly when a kept row's membership date has fewer than five digits |
| Cleaner.CleanProfileRows | cleaner.py:85-108 | a successful cleaning gives one row per kept row, in order, with the row's code and its year and month |
| Cleaner.CleanProfileSpec | cleaner.py:85-108 | drop mode keeps a row iff age ≠ 118 and gender and income are present; fill mode keeps every row; each kept row gets its code and its date split; cleaning fails iff a kept row's date is too short |
| Cleaner.FillModeDefaults | cleaner.py:95-99 | in fill mode a missing gender becomes "U" and age 118 becomes missing |
| Events.KindOf | cleaner.py:215-218 | the event label is kept verbatim; the four known labels map to their kinds, anything else is kept as its text |
| Events.KindLabelInjective | combiner.py:50-53 | on the kinds cleaning produces, equal labels mean equal kinds |
| Validity.CompletedByLabel | combiner.py:52 | on cleaned kinds, the label is "offer completed" exactly for the completion kind |
| Validity.ExpectedByLabels | combiner.py:53 | on cleaned kinds, the kind set equals {received, viewed, completed} exactly when its label set equals `expected_event_set` |
| Digits.IntToStringInjective | combiner.py:22 | `str` on integers is injective |
| Digits.ParseNatToString | cleaner.py:104-108 | `int(str(n)) == n` for every natural number |

## Left out

- model.py is not part of this model. It holds the clustering: floating-point numerics inside an external library.
- storer.py is not part of this model. It holds pickle file I/O.
- constant.py is not part of this model. It holds a constant registry, which is configuration and not logic.
- `main`, `check` and `get_output_file_paths` are not modelled. They do file reading, directory creation, and shape assertions tied to one dataset.
- `merge_response` and `aggregate_merged_response` are not modelled. They are pandas merge and group-mean plumbing with float averages.
- `separate_col` and its `get_dummies` wrappers are not modelled. They are a foreign library call. Only the renaming of their column names is modelled.
- `clean_portfolio_df` is not modelled; it is column plumbing.
- The back-fill of missing age and income in fill mode is left out, and so is NaN behaviour generally. Missing values are an explicit `Option`, and a back-filled value depends on row order in the table.
- The optional band columns of `clean_profile_df` (`discretize`) are not modelled. They only apply the two bucketizers, which are modelled.
- Validity.SortByTime: pandas' default `sort_values` is an unstable quicksort, so events with equal times may come out in any order. The model uses a stable insertion sort. What `CheckValidity` returns for a group with equal times follows this model's tie order, and pandas may order such events differently. `Validity.InsertionSortKeepsOrder` (a group in non-decreasing time order is left as it is) holds only for this stable sort. `Validity.SortSorted` and `Validity.SingleEpisodeGroup` therefore require strictly increasing times. The concrete scenarios use distinct times.
- Validity.CheckValidity: the theorems about `Validity` and `Combiner` hold for any sequence of `Event` values. Cleaned events always have `Canonical` kinds (`Cleaner.CleanTranscript`). On those kinds, comparing kinds is the same as comparing the label strings the code compares.
- Cleaner.CleanProfile: its own contract states only the row count. The filter, the contents of the kept rows and the failure condition are stated by `Cleaner.CleanProfileSpec`, `Cleaner.CleanProfileRows` and `Cleaner.CleanProfileFails`.
- Cleaner.SplitMemberDate: `became_member_on` is taken as a natural number. A negative value would make the year slice include the minus sign, and that case is not modelled.
- Cleaner.ExtractOfferIdPrecedence: an event attachment is modelled with only the four keys the code reads ("offer_id", "offer id", "amount", "reward"). Other keys have no effect in the code.
- AmountStorer.SetAmount: floating-point rounding of the accumulated sums is not modelled; sums are exact `real` arithmetic.
- Combiner.CreateResponseIsTwoPhase requires non-negative offer ids. A negative offer id would sort before offer 0, so its group would be evaluated before the customer's transactions are stored. Cleaned offer ids are never negative (`Cleaner.CleanedOfferIdsNonNegative`).

## Behaviour of the code worth knowing

- **A transaction inside an offer group is not ignored.** If a transaction-shaped event has a nonzero offer id, its kind joins the episode's kind set. That episode's completion then cannot count (`Validity.StrayKindSpoilsEpisode`).
- **One purchase can be credited more than once.** The spend at one time is credited to every valid completion at that time, across offer groups and within one group. So the sum of the attributed amounts can exceed what the customer spent. `Scenarios.SamePurchaseTwice` exhibits two offers that both claim the same purchase.

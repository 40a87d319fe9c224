# Pushkin card recommender: a Dafny model

This project models the data pipeline and the two recommender classes of the Pushkin card
event recommender system. The recommender learns from implicit feedback: it recommends cultural
events to card holders from their clicks on events.

The pipeline has two stages:

- Preprocessing cleans the raw user, organisation, event and click exports and joins them.
  It groups the clicks into a user-event table with a click count per pair, and it filters that
  table by the user's age and region and by the organiser's region.
- The recommender then numbers users and events with categorical codes. It builds sparse
  interaction matrices and trains an ALS or BPR model of the `implicit` library. It collects each
  user's recommendations and exports them as CSV or JSON.

A small script prunes a saved JSON export down to the events that are still listed.

Modules, one per concern:

| module | file | what it models |
|---|---|---|
| `Common` | common.dfy | missing values, the Python exceptions raised, boolean masks (`.loc`), `drop_duplicates`, `dict(zip(...))` with its key order |
| `PyStr` | pystr.dfy | `in`, `str.replace`, `split()`, `split(sep)[0]`, `strip()`, the per-line `re.sub(pat + '.*', '')`, `int(...)`, `str(int)` |
| `Sparse` | sparse.dfy | `scipy.sparse.csr_matrix((data, (row, col)))`: duplicate coordinates summed, shape inferred, scaling |
| `Bidict` | bidict.dfy | `bidict(dict)`: forward and inverse maps, `ValueDuplicationError` |
| `Numbering` | numbering.dfy | `astype('category').cat.codes` as the rank among the sorted distinct values, written into a frame in place |
| `Recs` | recs.dfy | recommendation rows, per-user dictionaries, sorting by score, slicing |
| `Recommenders` | user_item_recommender.dfy | `UserItemRecommender` with its ALS and BPR subclasses |
| `EventRecommenders` | event_recommender.dfy | the older `EventRecommender` class |
| `Filtering` | filtering.dfy | the age, user-region and event-region filters, the extra event ids, the activity diapasons |
| `Preprocessing` | preprocessing.dfy | age in years, table lookups, the region-code table, address parsing, click cleaning, grouped counts, the user and event tables |
| `Phone` | phone.dfy | the phone-detail normalisation |
| `Links` | links.dfy | matching clicks to events by sale link |
| `ClicksAdd` | clicks_add.py rules in clicks_add.dfy | sale-link filter, event identity, INN region number, dropping the row labelled 0 |
| `NewEvents` | new_events.dfy | pruning stale events from a recommendation dictionary, in place |

Where the source updates objects in place, the model has classes:

- `Recommenders.UserItemRecommender`, fitted, queried and exported;
- `EventRecommenders.EventRecommender`;
- `Numbering.UserEventFrame`, the frame that numbering mutates;
- `ClicksAdd.LabeledFrame`, the frame `drop(..., inplace=True)` mutates;
- `NewEvents.Recommendations`, the loaded JSON dictionary that the prune loops delete from.

The functional steps are functions. Lemmas state what each step keeps, drops or guarantees.

Some functions exist as textual copies in several files:

- `preprocessing/data_management.py` repeats `pipeline/preprocessing.py`, and its filters
  repeat `pipeline/filtering.py`.
- `data_filter_for_model.py` repeats both. It differs in two places, and both differences are
  modelled:
  - its clicks are grouped by `(user_id, event_id)` only (`Preprocessing.GetUserEventPairCountsSpec`);
  - the script chains three filters (`Filtering.ScriptFilterChainAll`).

The table cites one copy of each function.

Three behaviours of the code that the model keeps:

- Excluded item ids unknown to the item dictionary raise `KeyError`
  (recommenders/implicit_models.py:68; `Recommenders.ItemNumbers`).
- The CSV header the user-item recommender writes is `user_id;event_id;rating`.
- The JSON writer of `UserItemRecommender` drops rows (see Findings).

## Model

| member | source | states |
|---|---|---|
| Common.Filter | pipeline/filtering.py:20 | a boolean mask keeps exactly the rows that pass it |
| Common.FilterIsSubsequence | pipeline/filtering.py:20 | a mask keeps the rows in their order |
| Common.FilterMultiset | pipeline/filtering.py:20 | a mask keeps every passing row as often as it occurs, and no other row |
| Common.FilterFilter | pipeline/filtering.py:81-85 | two masks applied in turn keep exactly the rows passing both |
| Common.Distinct | recommenders/implicit_models.py:54 | `drop_duplicates()` holds every value exactly once, in order of first occurrence |
| Common.DistinctOfNoDup | recommenders/implicit_models.py:54 | a column without repetitions is unchanged by `drop_duplicates()` |
| Common.FromPairs | recommenders/implicit_models.py:55 | `dict(zip(ks, vs))` has exactly the listed keys, in first-insertion order, each once |
| Common.FromPairsLastWins | recommenders/implicit_models.py:55 | a repeated key keeps the value of its last pair |
| Common.FromPairsValueFromPair | recommenders/implicit_models.py:55 | every stored value comes from a pair with that key |
| Common.Put | scripts/implicit_models.py:165 | `d[k] = v` appends a new key and keeps the place of an existing one |
| Common.Values | scripts/implicit_models.py:161 | `list(d.values())` lists the values in key order, one per key |
| Common.ValuesMembers | scripts/implicit_models.py:161 | the values list holds exactly the values of the dictionary |
| Common.ODictSize | scripts/implicit_models.py:78 | `len(d)` is the number of distinct keys |
| Common.Swapped | scripts/implicit_models.py:41 | zipping the columns the other way round swaps every pair |
| Common.FromPairsOneToOne | scripts/implicit_models.py:40 | one-to-one pairs give a dictionary that holds every pair and no other key |
| Common.FromPairsInverse | scripts/implicit_models.py:39-41 | the two dictionaries zipped from the same one-to-one pairs are mutual inverses |
| PyStr.ContainsAt | preprocessing/preprocessing.py:37 | `sub in s` holds when `sub` occurs at some position |
| PyStr.ReplaceAbsent | preprocessing/preprocessing.py:36 | `replace` without an occurrence returns the text unchanged |
| PyStr.ReplaceKeepsOut | preprocessing/preprocessing.py:36 | `replace` brings in no character that neither the text nor the replacement has |
| PyStr.ReplaceKeepsVisible | preprocessing/preprocessing.py:44-46 | replacing by visible text keeps a text that has a visible character |
| PyStr.Word | cliks_add.py:19 | the longest leading run of non-whitespace characters |
| PyStr.Tokens | preprocessing/preprocessing.py:44 | `split()` yields non-empty tokens without whitespace |
| PyStr.TokensNonEmpty | preprocessing/preprocessing.py:44 | `split()` yields a token exactly when the text has a visible character |
| PyStr.ContainsVisible | preprocessing/preprocessing.py:44-46 | a text holding a pattern that starts with a visible character has a visible character |
| PyStr.FirstTokenAfterBlanks | cliks_add.py:19 | `split()[0]` is the word at the first visible character |
| PyStr.StripNoSpace | cliks_add.py:19 | `strip()` leaves a text without whitespace unchanged |
| PyStr.Token | cliks_add.py:68 | `split()[k]` is the k-th token, and IndexError when there are not more than k tokens |
| PyStr.BeforeFirstIsPrefix | pipeline/preprocessing.py:169-170 | `split(',')[0]` is the longest prefix without the separator, and the whole text when it has none |
| PyStr.FromLineBreak | preprocessing/preprocessing.py:36 | the rest of a line starts at a line break or is empty |
| PyStr.CutAtSingleLine | preprocessing/preprocessing.py:36-38 | on one line, `re.sub(pat + '.*', '', s)` keeps exactly the prefix before the first occurrence of `pat` |
| PyStr.NoLineBreak | preprocessing/preprocessing.py:36 | a text without line breaks has no rest of line after it |
| PyStr.ParseInt | cliks_add.py:38-40 | `int(s)` of a digit string is its decimal value, with ValueError exactly on the empty string |
| PyStr.StripDigits | cliks_add.py:38-40 | a digit string is its own `strip()` |
| PyStr.DecimalString | new_events.py:20 | `str(n)` of an integer is a non-empty text |
| PyStr.DecimalDigits | new_events.py:20 | `str(n)` of a natural number is all digits and their value is `n` |
| PyStr.ParseIntDecimal | new_events.py:20 | `int(str(n)) == n` for every integer `n` |
| PyStr.DecimalStringInjective | new_events.py:20 | different integers have different texts, so distinct event ids give distinct keys |
| Sparse.AccumulateKeys | recommenders/implicit_models.py:60-62 | the stored coordinates are exactly the listed `(row, col)` pairs |
| Sparse.Max | recommenders/implicit_models.py:60-62 | the largest listed index, from which the inferred shape is one more |
| Sparse.FromTriples | recommenders/implicit_models.py:60-65 | building fails with ValueError exactly on no entries or a negative index |
| Sparse.FromTriplesShape | recommenders/implicit_models.py:60-62 | the inferred shape holds every listed coordinate and is the smallest that does |
| Sparse.AccumulateDistinct | recommenders/implicit_models.py:60-62 | a coordinate listed once stores its own value |
| Sparse.AccumulateTransposed | recommenders/implicit_models.py:60-65 | swapping rows and columns stores the transposed entry with the same value |
| Sparse.TriplesTransposed | recommenders/implicit_models.py:60-65 | the item-user and user-item matrices fail together or are transposes of each other |
| Sparse.TriplesSwappedOk | recommenders/implicit_models.py:60-65 | swapping rows and columns does not change whether the matrix can be built |
| Sparse.Scale | recommenders/implicit_models.py:197 | `m * alpha` keeps the shape and the stored coordinates and multiplies every value |
| Bidict.Inverse | recommenders/implicit_models.py:55 | building the inverse fails only with ValueDuplicationError |
| Bidict.InverseSpec | recommenders/implicit_models.py:55 | the inverse is built exactly when no two keys share a value, and then undoes the forward map |
| Bidict.FromDict | recommenders/implicit_models.py:55 | `bidict(d)` keeps `d`'s key order and its forward map is `d` |
| Bidict.FromDictValid | recommenders/implicit_models.py:55 | `bidict(d)` succeeds exactly when `d` is injective, and its two maps are then mutual inverses |
| Bidict.OfPairs | recommenders/implicit_models.py:55-58 | `bidict(dict(zip(...)))` has the distinct keys in order and the forward map of the dictionary |
| Bidict.OfPairsValid | recommenders/implicit_models.py:58 | building from pairs succeeds exactly when the dictionary's values are pairwise different, and is then valid |
| Bidict.OneToOnePairs | recommenders/implicit_models.py:54-58 | one-to-one pairs always give a bidict that maps every key to its paired value |
| Numbering.CodeInRange | pipeline/filtering.py:64-65 | a category code lies in `0..k-1` for `k` distinct values |
| Numbering.CodeInjective | pipeline/filtering.py:64-65 | distinct values get distinct codes |
| Numbering.CodeMonotone | pipeline/filtering.py:62-65 | codes follow the sort order of the categories |
| Numbering.CodesCover | pipeline/filtering.py:64-65 | every number in `0..k-1` is the code of some value |
| Numbering.Range | pipeline/filtering.py:64-65 | `range(k)` holds exactly `0..k-1` |
| Numbering.RangeCard | pipeline/filtering.py:64-65 | `range(k)` has `k` elements |
| Numbering.IntLessIsTotal | pipeline/filtering.py:62 | integer event ids are sorted by a strict total order |
| Numbering.StrLessIsTotal | pipeline/filtering.py:63 | Python's string comparison is a strict total order on user ids |
| Numbering.UserCodes | pipeline/filtering.py:64 | the `user_num` column has one code per row |
| Numbering.EventCodes | pipeline/filtering.py:65 | the `event_num` column has one code per row |
| Numbering.CodesNumberIds | pipeline/filtering.py:62-65 | codes lie below the number of distinct ids and are equal exactly on equal ids |
| Numbering.UserCodesOnto | pipeline/filtering.py:64 | every number below the count of distinct users is some row's user code |
| Numbering.EventCodesOnto | pipeline/filtering.py:65 | every number below the count of distinct events is some row's event code |
| Numbering.UserEventFrame.Numerate | pipeline/filtering.py:62-65 | the frame keeps its rows and gains the two code columns |
| Numbering.NumerateUserEventDf | pipeline/filtering.py:61-66 | the passed frame is numbered in place and returned itself |
| Recs.DictOfKeys | scripts/implicit_models.py:163-165 | the row dictionary's keys are exactly the rows' items |
| Recs.DictOfLastWins | scripts/implicit_models.py:164-165 | an item keeps the score of its last row |
| Recs.DictOfAppend | scripts/implicit_models.py:165 | one more row writes its item's score |
| Recs.DictOfHas | scripts/implicit_models.py:164-165 | every row's item is a key of the dictionary |
| Recs.RowsOf | scripts/implicit_models.py:115 | `df[df.user_id == u]` keeps exactly that user's rows |
| Recs.GroupByUser | recommenders/implicit_models.py:136-143 | specified by `Recs.GroupByUserComplete` and `Recs.GroupByUserLastWins`: every user's rows grouped under its id |
| Recs.GroupByUserComplete | recommenders/implicit_models.py:136-143 | grouping by user loses no row: every user with rows is a key, and each row's item is in that user's dictionary |
| Recs.GroupByUserLastWins | recommenders/implicit_models.py:136-143 | the score kept for a user and item is that of their last row |
| Recs.FilterLastOccurrence | scripts/implicit_models.py:162-165 | a user's dictionary keeps the score of the last row for each of its items |
| Recs.InsertByScore | scripts/implicit_models.py:128 | insertion adds one row |
| Recs.InsertByScoreMultiset | scripts/implicit_models.py:128 | insertion adds exactly the row |
| Recs.InsertByScoreSorted | scripts/implicit_models.py:128 | insertion keeps the rows ordered by descending score |
| Recs.SortByScore | scripts/implicit_models.py:128 | sorting keeps the number of rows |
| Recs.SortByScoreSpec | scripts/implicit_models.py:128 | `sort_values(by='score', ascending=False)` orders the rows by descending score and is a permutation |
| Recs.SliceEnd | scripts/implicit_models.py:128 | `[:n]` stops at `n`, at the length, or counts a negative `n` from the end |
| Recs.RowsOfEvent | scripts/implicit_models.py:126-127 | `df[df.event_id == e]` keeps exactly that event's rows |
| Recs.SplitSorted | scripts/implicit_models.py:128 | cutting a sorted table keeps the head sorted, loses nothing, and no cut row beats a kept one |
| Recs.TopRows | scripts/implicit_models.py:126-128 | the slice has as many rows as the cut of the event's rows allows |
| Recs.CutRows | scripts/implicit_models.py:126-128 | the kept and the cut-off rows together have as many rows as the event |
| Recs.TopRowsOrdered | scripts/implicit_models.py:126-128 | the interested users are rows of the event, best score first |
| Recs.TopRowsBest | scripts/implicit_models.py:126-128 | kept and cut-off rows are the event's rows, and no cut-off row scores more than a kept one |
| Recs.JsonOf | scripts/implicit_models.py:159-166 | specified by `Recs.JsonOfGroups`: the listed users as keys, each with its group |
| Recs.JsonOfGroups | scripts/implicit_models.py:159-166 | the listed users are exactly the keys; each has its own group of rows, or an empty dictionary |
| Recommenders.UserColumns | recommenders/implicit_models.py:54 | the `(user_num, user_id)` column pair, one per row |
| Recommenders.ItemColumns | recommenders/implicit_models.py:57 | the `(item_num, item_id)` column pair, one per row |
| Recommenders.UserColumnsAt | recommenders/implicit_models.py:54 | row `i` of the column pair is that row's number and id |
| Recommenders.ItemColumnsAt | recommenders/implicit_models.py:57 | row `i` of the column pair is that row's number and id |
| Recommenders.UserPairsOfRows | recommenders/implicit_models.py:54-55 | the pairs zipped into the user dictionary are exactly the rows' `(user_id, user_num)` pairs |
| Recommenders.ItemPairsOfRows | recommenders/implicit_models.py:57-58 | the pairs zipped into the item dictionary are exactly the rows' `(item_id, item_num)` pairs |
| Recommenders.Ratings | recommenders/implicit_models.py:61 | `rating.astype(float)` has one value per row |
| Recommenders.UserNums | recommenders/implicit_models.py:64 | the `user_num` column has one value per row |
| Recommenders.ItemNums | recommenders/implicit_models.py:61 | the `item_num` column has one value per row |
| Recommenders.ItemNumbers | recommenders/implicit_models.py:67-68 | the excluded ids are translated in order, or KeyError exactly when one is unknown |
| Recommenders.TrainingOf | recommenders/implicit_models.py:189-199 | ALS trains on the scaled or BM25-weighted matrix, BPR on the matrix itself; an unmatched confidence trains nothing, a missing `alpha_value` raises; the shape and pattern are kept |
| Recommenders.AssembleRows | recommenders/implicit_models.py:86-98 | at most one row per recommended pair, each for the queried user |
| Recommenders.AssembleRowsSnoc | recommenders/implicit_models.py:87-98 | one more pair adds a row exactly when the item bidict knows its number, and an unknown one is skipped |
| Recommenders.AssembleRowsRoundTrip | recommenders/implicit_models.py:92 | every row's item maps back to a recommended number, and no pair is lost when all numbers are known |
| Recommenders.AllRows | recommenders/implicit_models.py:104-113 | specified by `Recommenders.AllRowsStep`, `Recommenders.AllRowsStopsAtError` and `Recommenders.AllRowsPerUser`: the users' rows in turn, up to the first failure |
| Recommenders.AllRowsStep | recommenders/implicit_models.py:112-113 | each user's rows are appended after the previous users', and a failure stops the accumulation |
| Recommenders.AllRowsStopsAtError | recommenders/implicit_models.py:112-113 | once a user fails, the later users contribute nothing |
| Recommenders.AllRowsPerUser | recommenders/implicit_models.py:112-113 | without failures, each user's accumulated rows are exactly that user's recommendation |
| Recommenders.UserItemRecommender.constructor | recommenders/implicit_models.py:33-43 | nothing is fitted and there are no recommendations |
| Recommenders.SharedFitError | recommenders/implicit_models.py:46-70 | specified by `Recommenders.UserItemRecommender.FitShared`: the first exception of the shared steps of `fit` |
| Recommenders.UserItemRecommender.FitShared | recommenders/implicit_models.py:46-70 | the attributes are written step by step up to the first failing step, whose exception is returned |
| Recommenders.UserItemRecommender.Fit | recommenders/implicit_models.py:189-199 | the shared part, then a new model trained as `TrainingOf` says, or the exception of the failing step |
| Recommenders.UserRecommendation | recommenders/implicit_models.py:72-102 | specified by `Recommenders.UserItemRecommender.GetUserRecommendation`: the rows or the exception of one user's recommendation |
| Recommenders.UserItemRecommender.GetUserRecommendation | recommenders/implicit_models.py:84-102 | TypeError before fitting, KeyError for an unknown user, otherwise the assembled rows of that user |
| Recommenders.UserItemRecommender.GetAllRecommendation | recommenders/implicit_models.py:104-117 | AttributeError before fitting; otherwise every user's rows are appended to the accumulated ones |
| Recommenders.UserItemRecommender.ToCsv | recommenders/implicit_models.py:119-132 | a `;` delimiter, the header, and the accumulated rows unchanged |
| Recommenders.UserItemRecommender.ToJson | recommenders/implicit_models.py:148-161 | the loop over the accumulated rows computes the export as written |
| Recommenders.RowsOfAppend | recommenders/implicit_models.py:113 | a user's rows in an extended list are its old rows followed by its new ones |
| Recommenders.RowsOfUniform | recommenders/implicit_models.py:113 | one user's block of rows is all of that user's rows and none of another's |
| Recommenders.Runs | recommenders/implicit_models.py:152-159 | the last block of consecutive rows belongs to the user of the last row |
| Recommenders.JsonStart | recommenders/implicit_models.py:152-153 | the first row opens the first user's dictionary |
| Recommenders.JsonSameUser | recommenders/implicit_models.py:160-161 | a row of the current user goes into that user's dictionary |
| Recommenders.JsonUserChange | recommenders/implicit_models.py:156-159 | a row of another user stores the current dictionary and starts an empty one, without the row |
| Recommenders.JsonExport | recommenders/implicit_models.py:134-161 | specified by `Recommenders.JsonExportKeys`, `Recommenders.JsonExportSingleUser` and `Recommenders.JsonExportDropsRows`: the dictionary `to_json` writes, as written |
| Recommenders.JsonExportKeys | recommenders/implicit_models.py:148-161 | a user is exported exactly when one of its blocks is followed by another user's |
| Recommenders.JsonExportSingleUser | recommenders/implicit_models.py:152-161 | rows of a single user export an empty dictionary |
| Recommenders.JsonExportDropsRows | recommenders/implicit_models.py:155-161 | on four rows of three users the export loses a row of the second user and all of the last user |
| EventRecommenders.Zip | scripts/implicit_models.py:40 | zipping two columns gives one pair per row |
| EventRecommenders.ZipAt | scripts/implicit_models.py:40 | pair `i` is the two cells of row `i` |
| EventRecommenders.Clicks | scripts/implicit_models.py:53 | `clicks_count.astype(float)` has one value per row |
| EventRecommenders.ColumnsAt | scripts/implicit_models.py:39 | the id columns hold each row's user and event |
| EventRecommenders.DistinctZipOneToOne | scripts/implicit_models.py:39-41 | the distinct pairs of a one-to-one code column are one-to-one and cover all ids |
| EventRecommenders.CodeDictsInverse | scripts/implicit_models.py:39-45 | the code-to-id and id-to-code dictionaries are mutual inverses over all ids |
| EventRecommenders.UserColumnOneToOne | scripts/implicit_models.py:36-39 | on a numbered frame, user codes and user ids correspond one to one |
| EventRecommenders.EventColumnOneToOne | scripts/implicit_models.py:37-43 | on a numbered frame, event codes and event ids correspond one to one |
| EventRecommenders.UserDictsInverse | scripts/implicit_models.py:39-41 | `user_number_per_id` and `user_id_per_number` are mutual inverses over the frame's users |
| EventRecommenders.EventDictsInverse | scripts/implicit_models.py:43-45 | `event_number_per_id` and `event_id_per_number` are mutual inverses over the frame's events |
| EventRecommenders.ModelFor | scripts/implicit_models.py:59-69 | `'als'` gives ALS(20, 0.1, 20) on the matrix scaled by 15, `'bpr'` gives BPR(60); any other name raises ValueError |
| EventRecommenders.CodesNonNegative | scripts/implicit_models.py:36-37 | the codes of a numbered frame are non-negative |
| EventRecommenders.EventIdPerNumberKeys | scripts/implicit_models.py:43-45 | `event_id_per_number` knows exactly the frame's events |
| EventRecommenders.ExtraKnown | scripts/implicit_models.py:47-48 | excluded ids translate exactly when each is known to the dictionary |
| EventRecommenders.ExtraKnownOfNumbered | scripts/implicit_models.py:47-50 | on a numbered frame, excluded ids translate exactly when each is an event of the frame |
| EventRecommenders.MatricesOfNumbered | scripts/implicit_models.py:52-57 | on a numbered frame the click matrices can be built exactly when the frame has a row |
| EventRecommenders.InitError | scripts/implicit_models.py:39-69 | specified by `EventRecommenders.InitErrorOfNumbered`: the constructor's exception after numbering, if any |
| EventRecommenders.InitErrorOfNumbered | scripts/implicit_models.py:39-69 | the constructor succeeds exactly when the frame has a row, every excluded id is an event of it, and the model name is known |
| EventRecommenders.PairRows | scripts/implicit_models.py:80-86 | a translated list has one row per recommended pair, and fails only with KeyError |
| EventRecommenders.PairRowsSpec | scripts/implicit_models.py:80-86 | translation fails exactly on an unknown event number or user number, and otherwise names the user and each event |
| EventRecommenders.PairRowsSnoc | scripts/implicit_models.py:80-86 | one more pair appends its translated row or fails |
| EventRecommenders.PairRowsErrPrefix | scripts/implicit_models.py:80-86 | a failing prefix makes the whole list fail |
| EventRecommenders.PreparedRows | scripts/implicit_models.py:77-87 | building the table fails only with KeyError |
| EventRecommenders.PreparedRowsOk | scripts/implicit_models.py:77-87 | the table is built exactly when every user's pairs translate |
| EventRecommenders.PreparedRowsMembers | scripts/implicit_models.py:77-87 | a built table holds exactly the translated rows of all the users |
| EventRecommenders.UserNumberKnown | scripts/implicit_models.py:78 | on a numbered frame the known user numbers are `0..k-1` |
| EventRecommenders.UserNumbersCovered | scripts/implicit_models.py:78 | `range(len(user_number_per_id))` runs over exactly the known user numbers |
| EventRecommenders.PreparedOkOfNumbered | scripts/implicit_models.py:77-87 | on a numbered frame the table is built exactly when the model names only known event numbers |
| EventRecommenders.PreparedRowsOfNumbered | scripts/implicit_models.py:82-86 | every row of a built table names a user and an event of the frame |
| EventRecommenders.TranslatedRowKnown | scripts/implicit_models.py:82-86 | a translated row names a user and an event of the frame |
| EventRecommenders.PreparedRowsErrLater | scripts/implicit_models.py:78-86 | once a user's rows fail, every longer table fails |
| EventRecommenders.EventRecommender.constructor | scripts/implicit_models.py:32-69 | the attributes are the given ones and no recommendations exist yet |
| EventRecommenders.EventRecommender.TranslatePairs | scripts/implicit_models.py:80-86 | the inner loop computes the translated rows of one user |
| EventRecommenders.EventRecommender.PrepareRecommendations | scripts/implicit_models.py:71-87 | the table of all users is stored, or KeyError is raised and nothing is stored |
| EventRecommenders.EventRecommender.GetQuickUserRecommendation | scripts/implicit_models.py:89-106 | KeyError for an unknown user, otherwise that user's translated pairs |
| EventRecommenders.EventRecommender.QuickRowsOfUser | scripts/implicit_models.py:95-105 | a user of the frame is known, and the rows fail only on an unknown event number |
| EventRecommenders.EventRecommender.GetUserRecommendation | scripts/implicit_models.py:108-117 | None before preparation, otherwise exactly the user's prepared rows |
| EventRecommenders.EventRecommender.GetUsersInterestedInEvent | scripts/implicit_models.py:119-130 | None before preparation, otherwise the event's rows, best score first, cut to `n_users` |
| EventRecommenders.EventRecommender.SaveAsCsv | scripts/implicit_models.py:132-143 | True and the table unchanged exactly when it was prepared |
| EventRecommenders.EventRecommender.SaveAsJson | scripts/implicit_models.py:145-169 | nothing before preparation, otherwise every known user mapped to the dictionary of its rows |
| EventRecommenders.EventRecommender.PreparedTableOfFrame | scripts/implicit_models.py:77-87 | preparation visits exactly the frame's users, and every row names a user and an event of it |
| EventRecommenders.EventRecommender.JsonOfFrame | scripts/implicit_models.py:159-166 | the JSON export has exactly the frame's users as keys, each with its group of rows |
| EventRecommenders.UserValuesOfFrame | scripts/implicit_models.py:161 | `list(user_number_per_id.values())` holds exactly the frame's users |
| EventRecommenders.Create | scripts/implicit_models.py:16-69 | the frame is numbered in place, then the recommender is built or the first exception is returned |
| Filtering.RowsOfUsers | pipeline/filtering.py:20 | `isin(user ids)` keeps exactly the rows of those users |
| Filtering.RowsOfEvents | pipeline/filtering.py:57 | `isin(event ids)` keeps exactly the rows of those events |
| Filtering.RowsOfUsersOrder | pipeline/filtering.py:20 | selection by user keeps the order and the multiplicity of every kept row |
| Filtering.RowsOfEventsOrder | pipeline/filtering.py:57 | selection by event keeps the order and the multiplicity of every kept row |
| Filtering.FilterByUserAge | pipeline/filtering.py:6-21 | ValueError exactly for an argument that is neither an int nor a two-element list; otherwise the rows of users passing the mask as written |
| Filtering.AgeRangeKeepsEveryone | pipeline/filtering.py:11-13 | with ordered bounds, the range mask lets every user of known age through |
| Filtering.AgeRangeCounterexample | pipeline/filtering.py:12-13 | a user aged 80 passes the range `[18, 25]` |
| Filtering.FilterByUserAgeIntended | pipeline/filtering.py:6-21 | the same errors; a range keeps the users with `lo <= age <= hi`, a single age those of that age |
| Filtering.AgeRangeIntended | pipeline/filtering.py:11-15 | the corrected mask drops the 80-year-old, and on a single age equals the original |
| Filtering.FilterByUserRegion | pipeline/filtering.py:24-40 | ValueError exactly for an argument that is neither an int nor a list; otherwise the rows of users in those regions |
| Filtering.FilterByEventRegion | pipeline/filtering.py:43-58 | ValueError exactly for an argument that is neither a string nor a list; otherwise the rows of events organised in those regions |
| Filtering.FiltersKeepOrder | pipeline/filtering.py:6-58 | every successful filter keeps its rows in order and deletes only rejected ones |
| Filtering.FilterUserEventDf | pipeline/filtering.py:75-85 | ValueError exactly when either argument is of the wrong kind |
| Filtering.FilterUserEventDfBoth | pipeline/filtering.py:75-85 | the chained filters keep exactly the rows passing both masks, in order |
| Filtering.TestFilterWithEventCode | tests/test_create_user_item_dfs.py:19-30 | the test's call, with an int code for the event region, raises ValueError |
| Filtering.TestFilterWithEventName | tests/test_create_user_item_dfs.py:19-30 | a call with an organiser region name, the kind of argument pipeline/filtering.py:79 declares, returns exactly the rows of that user region and that organiser region |
| Filtering.FilterUserEventDfByCodes | app/create_user_item_dfs.py:64-85 | the call as the script and the test mean it, with two int region codes, the second matched against the events' `region_code`: in order, exactly the rows whose user lives in the first region and whose event lies in the second |
| Filtering.SameRegionRows | app/create_user_item_dfs.py:74-85 | with one code for both, as the script's per-region loop passes it, every row whose user and event both belong to that region is kept |
| Filtering.ScriptFilterChainAll | data_filter_for_model.py:212-229 | the script keeps exactly the rows passing the age, region and event-region masks, in order |
| Filtering.EventsNotIn | pipeline/filtering.py:69-72 | the rows' event ids that are not future events |
| Filtering.GetExtraEventsIds | pipeline/filtering.py:69-72 | each event id of the table that is not a future event, exactly once |
| Filtering.RowCount | pipeline/filtering.py:89 | a user's count is at most the number of rows |
| Filtering.RowCountPositive | pipeline/filtering.py:89 | a user's count is positive exactly when the user has a row |
| Filtering.RowCountAbsent | pipeline/filtering.py:89 | a user without rows has count 0 |
| Filtering.UserColumn | pipeline/filtering.py:89 | the user column has each row's user |
| Filtering.Bucket | pipeline/filtering.py:90-91 | `pd.cut` over the edges 0, 5, ..., 70 puts a count `c` into bucket `k` with `5k < c <= 5k + 5`, and no count outside `(0, 70]` into any |
| Filtering.ActivityOf | pipeline/filtering.py:89 | one activity row per listed user |
| Filtering.ActivityOfAt | pipeline/filtering.py:89-91 | the row of a user holds its count and its diapason |
| Filtering.InsertByCount | pipeline/filtering.py:89 | insertion adds one row |
| Filtering.InsertByCountMultiset | pipeline/filtering.py:89 | insertion adds exactly the row |
| Filtering.InsertByCountSorted | pipeline/filtering.py:89 | insertion keeps the rows ordered by descending count |
| Filtering.SortByCount | pipeline/filtering.py:89 | sorting keeps the number of rows |
| Filtering.SortByCountSpec | pipeline/filtering.py:89 | `sort_values(ascending=False)` orders by descending count and is a permutation |
| Filtering.SortByCountTotal | pipeline/filtering.py:89 | sorting keeps the sum of the counts |
| Filtering.SplitDfIntoDiapasons | pipeline/filtering.py:88-92 | one activity row per distinct user |
| Filtering.DiapasonsRows | pipeline/filtering.py:88-92 | the table is sorted, and each row belongs to a user of the table with that user's positive count and diapason |
| Filtering.DiapasonsUsers | pipeline/filtering.py:89 | every user of the table has exactly one activity row |
| Filtering.DiapasonsTotal | pipeline/filtering.py:89 | the counts add up to the number of rows of the table |
| Filtering.DistinctTotal | pipeline/filtering.py:89 | counting per distinct user loses no row |
| Preprocessing.AgeInYears | pipeline/preprocessing.py:9-11 | the age is the number of whole 365-day years between the birth date and the download date |
| Preprocessing.AgeSymmetric | pipeline/preprocessing.py:11 | because of `abs`, a date after the download date gives the same age as one equally far before |
| Preprocessing.GetOrNone | preprocessing/data_management.py:24-28 | a lookup guarded by `except KeyError` gives the value exactly for a present key, else None |
| Preprocessing.GetUserAge | pipeline/preprocessing.py:135-139 | the age stored under the user id, or None exactly when it is absent |
| Preprocessing.GetRegionCodeForEvent | pipeline/preprocessing.py:21-132 | specified by sample lookups in `Preprocessing.YamalSpellings`, `Preprocessing.MoscowCodes` and `Preprocessing.UnknownRegionName` |
| Preprocessing.YamalSpellings | pipeline/preprocessing.py:78-88 | both spellings of the Yamalo-Nenets region have code 89 |
| Preprocessing.MoscowCodes | pipeline/preprocessing.py:33-114 | Moscow and its settlements have code 77 |
| Preprocessing.UnknownRegionName | pipeline/preprocessing.py:129-132 | a name outside the table, even a near spelling, has no code |
| Preprocessing.GetRegionFromAddress | pipeline/preprocessing.py:169-170 | the region is the address up to its first comma, or the whole address |
| Preprocessing.DedupBy | pipeline/preprocessing.py:246 | de-duplication keeps at most every row |
| Preprocessing.DedupBySpec | pipeline/preprocessing.py:246 | the kept rows are, in order, exactly the first row of every key, one per key |
| Preprocessing.DropDuplicatesBy | preprocessing/data_management.py:143 | `drop_duplicates(subset)` keeps at most every row |
| Preprocessing.GetClicksDataframe | pipeline/preprocessing.py:225-248 | specified by `Preprocessing.GetClicksDataframeSpec`: the first click of every key, in order |
| Preprocessing.GetClicksDataframeSpec | pipeline/preprocessing.py:225-248 | the cleaned clicks are, in order, the first click of every `(create_time, user_id)` that has an event and an organisation, and no key repeats |
| Preprocessing.UsersFullSpec | preprocessing/preprocessing.py:66-70 | one row per user with a buyer phone, namely the first such row of theirs, in order |
| Preprocessing.PresentKeys | pipeline/preprocessing.py:261 | the group keys are exactly the keys that occur |
| Preprocessing.CountOf | pipeline/preprocessing.py:261 | a group's count is at most the number of rows |
| Preprocessing.CountsOf | pipeline/preprocessing.py:261 | one count per listed key |
| Preprocessing.CountOfPositive | pipeline/preprocessing.py:261 | a group's count is positive exactly when one of its rows has the counted column |
| Preprocessing.GroupCountRows | pipeline/preprocessing.py:261 | one group row per distinct key, with that key's count |
| Preprocessing.GroupCountTotal | pipeline/preprocessing.py:261 | the counts add up to the counted rows: grouping loses no click and invents none |
| Preprocessing.KeyedClicks3 | pipeline/preprocessing.py:261 | each click reduced to its `(user_id, event_id, event_name)` key |
| Preprocessing.ToUserEventCounts | pipeline/preprocessing.py:261-262 | each group becomes a row with its `clicks_count` |
| Preprocessing.ToUserEventCountsTotal | pipeline/preprocessing.py:261-262 | renaming keeps the sum of the counts |
| Preprocessing.GetUserEventDataframe | pipeline/preprocessing.py:257-264 | specified by `Preprocessing.GetUserEventDataframeRows` and `Preprocessing.GetUserEventDataframeTotal`: one row per group, with its count |
| Preprocessing.GetUserEventDataframeRows | pipeline/preprocessing.py:257-264 | one row per distinct (user, event, name) of the cleaned clicks, with that group's count |
| Preprocessing.UserEventCountPositive | pipeline/preprocessing.py:261 | a count is positive exactly when a cleaned click of its group has a creation time |
| Preprocessing.GetUserEventDataframeTotal | pipeline/preprocessing.py:257-264 | the counts add up to the cleaned clicks that have a name and a creation time |
| Preprocessing.KeyedClicks2 | data_filter_for_model.py:147 | each click reduced to its `(user_id, event_id)` key |
| Preprocessing.GetUserEventPairCounts | data_filter_for_model.py:145-149 | specified by `Preprocessing.GetUserEventPairCountsSpec`: one row per (user, event) with its count |
| Preprocessing.GetUserEventPairCountsSpec | data_filter_for_model.py:145-149 | one row per distinct (user, event), and the counts add up to the counted clicks |
| Preprocessing.PairCountOfClick | data_filter_for_model.py:147 | every cleaned click has the row of its (user, event) pair |
| Preprocessing.AgePairs | pipeline/preprocessing.py:149-150 | one `(user_id, age)` pair per user row |
| Preprocessing.AgeOfLastRow | pipeline/preprocessing.py:150-164 | a user's age comes from the user's last row in the users file |
| Preprocessing.UserRows | pipeline/preprocessing.py:160-164 | each region row with its code and its age looked up |
| Preprocessing.GetUserDataframe | pipeline/preprocessing.py:142-166 | specified by `Preprocessing.GetUserDataframeSpec`: the region rows of known users, in order |
| Preprocessing.GetUserDataframeSpec | pipeline/preprocessing.py:142-166 | the user table keeps, in order, exactly the region rows of users found in the users file |
| Preprocessing.OrgRegionPairs | pipeline/preprocessing.py:202-203 | each organisation paired with the region cut from its address |
| Preprocessing.OrgCategoryPairs | pipeline/preprocessing.py:204 | each organisation paired with its category |
| Preprocessing.EventRows | pipeline/preprocessing.py:215-221 | the event table has at most one row per event |
| Preprocessing.GetEventsDataframe | pipeline/preprocessing.py:187-221 | specified by `Preprocessing.EventRowsSpec` and `Preprocessing.EventOfOrganization`: one row per event with an organisation, carrying that organisation's region and category |
| Preprocessing.EventRowsSpec | pipeline/preprocessing.py:215-221 | every row is an event with an organisation, and every such event has its row |
| Preprocessing.EventOfOrganization | pipeline/preprocessing.py:218-221 | an event takes the region, category and region code of the last row of its organisation |
| Preprocessing.UnknownOrganization | pipeline/preprocessing.py:173-184 | an event of an unknown organisation has no region, category or code |
| Phone.StripVersion | preprocessing/preprocessing.py:35-38 | TypeError exactly on a missing cell, where `'iOS' in x` meets NaN; on a present text `Phone.StripVersionSpec` states the cut: the iOS prefix and the version after the first `.` are dropped |
| Phone.PhoneDetailsId | cliks_add.py:57-65 | the two steps in turn: TypeError exactly on a missing cell, a text otherwise |
| Phone.StripVersionSpec | preprocessing/preprocessing.py:35-38 | a present one-line text always gives a text; iOS texts lose `'iOS '` and keep what precedes the first `.`; others keep what precedes the first `' ('` |
| Phone.StripAndroidVersion | preprocessing/preprocessing.py:39-42 | specified by `Phone.StripAndroidVersionSpec`: an Android text keeps what precedes its first `.` |
| Phone.StripAndroidVersionSpec | preprocessing/preprocessing.py:39-42 | Android texts keep what precedes the first `.`; others are unchanged |
| Phone.StripAndroidVersionIdempotent | preprocessing/preprocessing.py:39-42 | applying the Android step twice changes nothing more |
| Phone.TypePhone | preprocessing/preprocessing.py:43-46 | specified by `Phone.TypePhoneDefined`, `Phone.TypePhoneOfIos` and `Phone.TypePhoneOfAndroid`: the platform code of a phone text |
| Phone.TypePhoneDefined | preprocessing/preprocessing.py:43-46 | the platform code exists exactly when the text has a visible character, and is a non-empty visible word |
| Phone.LeadingWordReplaced | preprocessing/preprocessing.py:44-46 | a replaced leading platform word is the first token |
| Phone.WordOfPrefix | preprocessing/preprocessing.py:44-46 | a visible run followed by a blank or nothing is the first word |
| Phone.TypePhoneOfIos | preprocessing/preprocessing.py:44 | a text starting with the word `iOS,` has platform code `2` |
| Phone.TypePhoneOfAndroid | preprocessing/preprocessing.py:46 | a text without iOS starting with the word `Android,` has platform code `1` |
| Phone.PhoneId2 | cliks_add.py:67-70 | specified by `Phone.PhoneId2Spec`: the platform code followed by the second token, IndexError on a short text |
| Phone.PhoneId2Spec | cliks_add.py:67-70 | IndexError exactly on texts with fewer than two tokens; otherwise the platform code followed by the second token |
| Links.MatchesOfMembers | preprocessing/preprocessing.py:146-148 | the inner loop appends the click link exactly when it is present and an event has it |
| Links.MatchesOfUnique | preprocessing/preprocessing.py:146-148 | against unique event links, a click link is appended at most once |
| Links.EqualLinksMembers | preprocessing/preprocessing.py:143-148 | the collected links are the present click links that an event also has |
| Links.EqualLinksFilter | preprocessing/preprocessing.py:140-148 | against unique event links, the collected links are the matching click links in click order |
| Links.FilterNoDup | preprocessing/preprocessing.py:140-141 | a mask keeps unique links unique |
| Links.EqualLinks | preprocessing/preprocessing.py:140-148 | the nested loop collects the links in both lists, each once when both are unique, a missing link never |
| Links.UrlsOf | preprocessing/preprocessing.py:141 | the `url` column has each click's link |
| Links.KeepLinkedClicks | preprocessing/preprocessing.py:140-151 | the clicks kept are exactly those whose link some event has, in order |
| ClicksAdd.WithSaleLink | cliks_add.py:14-15 | exactly the events with a sale link, in order |
| ClicksAdd.EventIdentity | cliks_add.py:17-19 | specified by `ClicksAdd.EventIdentityDefined` and `ClicksAdd.EventIdentityIsFirstWord`: the first word of the event name |
| ClicksAdd.EventIdentityDefined | cliks_add.py:17-19 | the identity fails exactly on a missing name (AttributeError) or a blank one |
| ClicksAdd.EventIdentityIsFirstWord | cliks_add.py:17-19 | the identity is the word that starts at the first visible character of the name |
| ClicksAdd.InnRegionNumber | cliks_add.py:37-40 | specified by `ClicksAdd.InnRegionNumberSpec` and `ClicksAdd.InnRegionNumberRange`: the region digits of an INN |
| ClicksAdd.InnRegionNumberSpec | cliks_add.py:37-40 | a 12-character INN gives its first two digits, any other its first digit; an empty text raises ValueError |
| ClicksAdd.InnRegionNumberRange | cliks_add.py:37-40 | the region number is below 100, and below 10 unless the INN has 12 characters |
| ClicksAdd.DropLabelRows | cliks_add.py:65 | dropping a label keeps exactly the rows with other labels, or KeyError when no row has it |
| ClicksAdd.DropLabelZeroIsFirstRow | cliks_add.py:65 | on a freshly merged frame, dropping label 0 removes exactly its first row, and fails on an empty frame |
| ClicksAdd.LabeledFrame.DropLabel | cliks_add.py:65 | the frame loses the labelled rows in place, or is left as it was when KeyError is raised |
| NewEvents.CurrentIds | new_events.py:20-22 | the text of every listed event id, and nothing else |
| NewEvents.Delete | new_events.py:28-31 | `del d[j]` guarded by KeyError removes the key and changes nothing else |
| NewEvents.Recommendations.EventsSet | new_events.py:13-17 | the nested loop collects every event some user was recommended |
| NewEvents.Recommendations.PruneUser | new_events.py:27-31 | one user's dictionary loses every stale id, and the other users are untouched |
| NewEvents.Recommendations.PruneToCurrent | new_events.py:13-31 | the stale ids are the recommended ones not listed, and every user loses exactly those |
| NewEvents.PrunedSpec | new_events.py:26-31 | pruning keeps every user, and each keeps exactly its listed ids with their scores |
| NewEvents.PrunedRecommended | new_events.py:24-31 | the events left recommended are the recommended and listed ones, so pruning again changes nothing |
| NewEvents.PrunedKeys | new_events.py:27-31 | deleting the stale ids leaves a user exactly the listed ids it had |

## Left out

- Files, the console and output: reading and writing CSV and JSON and `input()` prompts are left out. The file contents are parameters, as sequences of rows.
- The `implicit` library: ALS and BPR training and `model.recommend` are not modelled. A model records its hyper-parameters and the matrix it was trained on, and `recommend` is a function parameter.
- BM25 weighting (`bm25_weight`): the model records the matrix and the weighting parameters, not the weighted values.
- Floating point and rounding: scores are `real`. The JSON writers' `round(..., 3)` and `round(..., 2)` are left out.
- Dates: birth dates and the download date are day numbers. `strptime` parsing, `pd.to_datetime`, `datetime.now()`, and the age computed with 365.2425-day years in preprocessing/preprocessing.py:53 are left out.
- Merges and concatenations of frames are left out: preprocessing/preprocessing.py:48-49, 113-131, 153-163 and cliks_add.py:31, 45, 50. Their effect on row labels enters only through `ClicksAdd.RangeLabelled`.
- Preprocessing.UsersFull: the `in_count` column joined in at preprocessing/preprocessing.py:67-69 is left out. The model keeps only the rows and their order.
- `get_event_dataframe` in preprocessing/preprocessing.py:83-134 is left out: its four-way split of main and additional links, its `fillna` of organisation ids and its concatenations. Only the event identity rule (`ClicksAdd.EventIdentityDefined`) and the sale-link mask are modelled.
- Column drops and renames (pipeline/preprocessing.py:230-245 and cliks_add.py:53) are left out. The row datatypes hold only the columns that later steps read.
- Ids are modelled as strings or integers, as each step reads them. `str(user_id)` in `get_user_age` is the identity, because user ids are strings here. An INN arrives at `Org_region_number` as its text `str(x)`: whether pandas read it as an integer or a float depends on the file, which is not part of this model. The same holds for `events['ID'].apply(lambda x: str(x))` at new_events.py:20: a column read as float gives texts such as `123.0`, while the model renders every id as the integer text `123` (`PyStr.DecimalString`).
- Preprocessing.GetRegionCodeForEvent: no ensures. Three lemmas state sample lookups (`YamalSpellings`, `MoscowCodes`, `UnknownRegionName`). Stating every one of the 105 entries as a contract is left out because each lookup is costly to prove.
- Tie order of sorting: `Recs.SortByScore` and `Filtering.SortByCount` are proved sorted and permutations. Which of several equal-scored rows comes first is not fixed by pandas' default sort, so it is left open.
- `groupby` output order: `Preprocessing.GroupCount` lists groups in order of first occurrence, while pandas sorts group keys. The contracts state which rows and counts exist, not their order.
- Order of sets and of `list(set(...))`: `Filtering.GetExtraEventsIds` and the stale ids of new_events.py:24 are sets or duplicate-free sequences in an unspecified order.
- JSON key normalisation: `json.dump` turns integer event ids into strings. The export functions return maps keyed by the ids themselves.
- `tqdm` progress bars and `print` calls are left out.
- Recommenders.UserItemRecommender.FitShared: the six attributes `fit` writes are grouped in one field `fit`. The steps run on local copies that are written back together, so the states between two steps are not modelled; `SharedFitDone` states what every step has stored once the shared part ends.
- EventRecommenders.EventRecommender.SaveAsJson requires a well-formed ordered dictionary, which `dict(zip(...))` always builds (`EventRecommenders.UserValuesOfFrame`).
- The `as_pd_dataframe=True` paths, which wrap the same rows in a `DataFrame`, are left out.
- `show_progress`, `*args` and `**kwargs` of `fit` have no effect on the modelled state and are left out.
- The modules copied across files are modelled once, as stated above. `get_extra_events_ids` of preprocessing/data_management.py:225-229 reads its future events from a file; the model takes them as a parameter, as pipeline/filtering.py:69-72 does.

## Findings

| source | as written | input that shows it | evidently intended | confidence | as-written member | corrected member |
|---|---|---|---|---|---|---|
| recommenders/implicit_models.py:152-161 | `to_json` puts a row into the user dictionary only in the `else` branch and never stores the last user's dictionary | rows a:1, b:2, b:3, c:4: the export is `{a: {1}, b: {3}}`. Row b:2 and user c are lost | every user with rows is exported with all of its rows, as the docstring's format shows | not executed | Recommenders.JsonExportDropsRows | Recs.GroupByUserComplete |
| pipeline/filtering.py:12-13 | the age range mask is `age >= lo \| age <= hi` | range `[18, 25]` and a user aged 80: the user passes | `lo <= age <= hi` | not executed | Filtering.AgeRangeCounterexample | Filtering.AgeRangeIntended |
| tests/test_create_user_item_dfs.py:24-30 | the test calls `filter_user_event_df` with `event_region_code=`, a keyword the function does not have (its parameter is `event_region_name`, pipeline/filtering.py:79), and passes an int code for it; app/create_user_item_dfs.py:70 and 84 make the same call | any pair of codes from the parametrised list: the call raises TypeError for the keyword, and with the keyword renamed the int still makes pipeline/filtering.py:54 raise ValueError | events filtered by region code: app/create_user_item_dfs.py:45 declares `-event_region` an int, documented as the code of the events' region, and line 75 takes the codes from `event_df.region_code`, so the second argument is meant to be compared with the events' `region_code` (pipeline/preprocessing.py:220); the parameter name `event_region_name` and the name comparison at pipeline/filtering.py:51-52 are the other reading, stated by `Filtering.TestFilterWithEventName` | not executed | Filtering.TestFilterWithEventCode | Filtering.FilterUserEventDfByCodes |

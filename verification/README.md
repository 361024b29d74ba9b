# QshConverter in Dafny

A model of `QshConverter`, the library class of the QSH → SAT converter.
It reads QScalp `.qsh` market-data recordings (order logs or deals) and
stores them as trades, plus candles for every configured timeframe. The
model covers:

- file selection (`CheckFileName`) and batching (`Convert(List<string>)`, 700 files per batch);
- the two per-file readers (`OrdLogReader`, `DealsReader`);
- the day partitioning of order-log trades;
- the record mapping (`SecurityConverter`, `DealTypeConverter`, `OrdLogConverter`, the deal handler);
- the save loop of `ConvertPart`, which saves only day lists of more than one trade;
- the progress counter (`Progress`), with its C# `int` arithmetic.

The decoder, the order-book reconstructor, storage and the candle builder
are external. They enter as parameters:

- a file is described by what the decoder would deliver: `QshTypes.QshFile`;
- the reconstructor is a function from an instrument and its order-log records to the trades it emits;
- storage is described by the index of the first save call that throws for each file, if any;
- the model records the storage calls made, not their effect.

Modules, one file each:

| module | file | contents |
|---|---|---|
| `Wrappers` | `wrappers.dfy` | `Option`, `Outcome` (a value or an exception) |
| `QshTypes` | `types.dfy` | decoder and storage records, `DateTime` as ticks, `Flatten` |
| `FileSelection` | `fileselection.dfy` | `CheckFileName`, filtering, batching |
| `RecordMapping` | `records.dfy` | the record converters |
| `DayPartition` | `partition.dfy` | the `NewTick` callback and its specification |
| `Readers` | `readers.dfy` | `OrdLogReader`, `DealsReader` |
| `Dispatch` | `dispatch.dfy` | the save loop |
| `ProgressTracker` | `progress.dfy` | `Progress` |
| `Converter` | `converter.dfy` | the converter, one task, a whole run |

Behaviours of the code that the model keeps as they are:

- The buffer left after the batching loop is always added as a last batch, even when it is empty.
- A day list with exactly one trade is neither saved nor turned into candles. The save condition is `list.Count > 1`.
- A file whose task throws skips `Progress`. Its count is never incremented, so on the first run of a new converter the count does not reach the total and 100% is never shown (`Converter.ConvertProgress`).
- An exception in the k-th storage call leaves the k calls before it made. `Converter.StoreFile` records exactly those.
- `Convert` sets `_total` but never resets `_count` or `_percent`. `Converter.Convert` keeps both. A reused converter therefore starts from the old count: after a three-file run with one failure, the first success of a second three-file run shows 100% even if a later file of that run fails, and the next success shows 133% (`ProgressTracker.ReusedTrackerOvershoots`).

## Model

| member | source | states |
|---|---|---|
| FileSelection.ContainsIffOccurs | QshLib/QshConverter.cs:214-227 | the name test used by `CheckFileName` holds exactly when the tag occurs at some position of the name |
| FileSelection.KindTag | QshLib/QshConverter.cs:216-227 | the order-log, deals and quotes kinds each have a tag a file name must contain; any other kind has none |
| FileSelection.CheckFileName | QshLib/QshConverter.cs:212-230 | a name is accepted exactly when its kind has no tag or the name contains the kind's tag |
| FileSelection.CheckFileNameMeansTag | QshLib/QshConverter.cs:212-230 | a file is accepted exactly when its extensionless name contains its kind's tag, and every file is accepted for a kind without a tag |
| FileSelection.FilterFiles | QshLib/QshConverter.cs:65-68 | a file is kept exactly when it is in the input and passes `CheckFileName`; the result is no longer than the input |
| FileSelection.FilterAppend | QshLib/QshConverter.cs:65-68 | filtering a concatenation is the concatenation of the filtered parts, so the relative order of kept files is preserved |
| FileSelection.FilterIdempotent | QshLib/QshConverter.cs:65-68 | filtering an already filtered list changes nothing |
| FileSelection.SplitIntoParts | QshLib/QshConverter.cs:72-87 | there are `n / 700 + 1` batches; every batch but the last is the next 700 files; the last holds the remaining `n % 700` files and is empty when 700 divides `n`; the batches concatenate back to the input |
| RecordMapping.SecurityConverter | QshLib/QshConverter.cs:191-209 | the category is Options exactly when the ticker ends in TOM or TOD; id, ticker and step are copied; the name is the short name, preceded by the auxiliary code and a dash exactly when that code is non-empty |
| RecordMapping.SecurityTypeBySuffix | QshLib/QshConverter.cs:193-195 | two tickers with the same last three characters get the same category |
| RecordMapping.ShortTickerIsFutures | QshLib/QshConverter.cs:193-195 | a ticker shorter than three characters is always Futures |
| RecordMapping.DealTypeConverter | QshLib/QshConverter.cs:233-241 | buy maps to buy, sell to sell, and every other direction to no aggressor, each as an if-and-only-if |
| RecordMapping.DealToTrade | QshLib/QshConverter.cs:337-352 | the trade price is the raw price times the stream's step; id, volume and time are copied; the instrument is the stream's; the aggressor comes from the deal direction |
| RecordMapping.DealPriceScaledOnce | QshLib/QshConverter.cs:347 | dividing a trade's price by a non-zero step gives back the raw price |
| RecordMapping.OrdLogConverter | QshLib/QshConverter.cs:294-320 | NonSystem is set exactly when the entry has the NonSystem or Snapshot flag; Add, Fill, Buy and Sell each exactly when the flag of that name is set; all other fields are copied |
| RecordMapping.OrdLogStatesMonotone | QshLib/QshConverter.cs:298-307 | setting more flags never removes a state |
| RecordMapping.OrdLogStatesIgnoreOtherFlags | QshLib/QshConverter.cs:298-307 | flags the converter does not inspect never change the states |
| DayPartition.LastDate | QshLib/QshConverter.cs:270-275 | the comparison date is the date of the current list's last trade; for an empty list the source compares with `DateTime.MaxValue`, which no date exceeds, and the model uses that value's date, which no date exceeds either |
| DayPartition.AddTick | QshLib/QshConverter.cs:268-282 | one callback appends the tick to the concatenation of the lists; when the tick's date is strictly later than the comparison date it adds a new list holding only the tick, and otherwise the tick joins the current list; earlier lists are untouched |
| DayPartition.FirstTickJoinsEmptyList | QshLib/QshConverter.cs:246-281 | the first tick never opens a new list: it joins the initial empty list, because it is compared with `DateTime.MaxValue` and no date is later than that |
| DayPartition.Partition | QshLib/QshConverter.cs:244-282 | there is always at least one list, and the lists concatenate to the emitted ticks in order |
| DayPartition.PartitionIsDaySplit | QshLib/QshConverter.cs:244-282 | the lists cut the ticks exactly where the date strictly increases: at least one list, none empty unless there are no ticks, no date increase inside a list, a strict increase between adjacent lists |
| DayPartition.DaySplitIsPartition | QshLib/QshConverter.cs:244-282 | any split of the ticks with those properties is the one the callback builds, so the split is unique |
| DayPartition.OrderedInputGivesOneListPerDay | QshLib/QshConverter.cs:268-282 | for ticks whose dates never decrease, every list is non-empty and holds a single date, and dates strictly increase across lists |
| ProgressTracker.Wrap32 | QshLib/QshConverter.cs:31-33 | the C# `int` result is in the 32-bit range, differs from the exact value by a multiple of 2^32, and so equals it when that fits |
| ProgressTracker.TruncDiv | QshLib/QshConverter.cs:158 | C# division by a positive divisor truncates toward zero for either sign of the dividend |
| ProgressTracker.Progress | QshLib/QshConverter.cs:154-173 | the count is incremented with wrap-around and the total kept; a zero total gives the tracker's exception report after the increment; a report is made exactly when the new percentage is positive and differs from the stored one, which it then replaces; that percentage is the incremented count, multiplied by 100 with 32-bit wrap-around and divided by the total with truncation, and without overflow it is count·100/total |
| ProgressTracker.PercentBounds | QshLib/QshConverter.cs:158 | for a count within the total the percentage is between 0 and 100, and it is 100 exactly when the count equals the total |
| ProgressTracker.PercentMonotone | QshLib/QshConverter.cs:158 | the percentage never decreases as the count grows |
| ProgressTracker.ProgressTracksPercent | QshLib/QshConverter.cs:154-173 | on a consistent state below the total the count goes up by one, the stored percentage becomes that of the new count, and it never decreases |
| ProgressTracker.ProgressKeepsConsistent | QshLib/QshConverter.cs:154-173 | a consistent state stays consistent, there is no tracker exception, and any report is a strictly larger percentage of at most 100 |
| ProgressTracker.ReusedTrackerOvershoots | QshLib/QshConverter.cs:154-173 | with the counters kept from an earlier run, a tracker with count 2 of 3 and 66% shows 100% on its next update, and one at 3 of 3 shows 133% |
| ProgressTracker.FreshIsConsistent | QshLib/QshConverter.cs:31-33 | the zeroed counters with a total of 1 to 21 474 836 files are consistent |
| Readers.FirstOrdLogStream | QshLib/QshConverter.cs:250-261 | the result is the first order-log stream at or after the start index, and there is none exactly when no such stream exists |
| Readers.OrdLogFeed | QshLib/QshConverter.cs:284 | the reconstructor is fed at most one record per delivered event, and nothing exactly when no delivered event is an order-log entry of the chosen stream |
| Readers.OrdLogFeedOne | QshLib/QshConverter.cs:284 | one delivered event feeds its entry converted by `OrdLogConverter` exactly when it is an order-log entry of the chosen stream, and nothing otherwise; with the append lemma this fixes the whole feed |
| Readers.OrdLogFeedAppend | QshLib/QshConverter.cs:284 | the records fed to the reconstructor for a longer read extend those fed for a shorter one |
| Readers.OrdLogReader | QshLib/QshConverter.cs:244-292 | failing to open throws; a file without an order-log stream gives one empty list; otherwise it throws exactly when reading throws, and the lists are the day split of the trades emitted for the first order-log stream's converted records |
| Readers.DealTrade | QshLib/QshConverter.cs:331-352 | a delivered event yields a trade exactly when it is a deal of an existing stream, built from that stream's instrument and step |
| Readers.CollectTrades | QshLib/QshConverter.cs:341-358 | one trade per delivered deal, in delivery order, each built from its deal |
| Readers.DealsReader | QshLib/QshConverter.cs:323-367 | it throws exactly when opening fails; at the first stream that is not a deals stream it returns an empty list; otherwise it returns one trade per delivered deal, in order, even if reading throws |
| Readers.CollectTradesPrefix | QshLib/QshConverter.cs:355-363 | what a read that throws returns is a prefix of what a complete read returns |
| Readers.DealsReaderIgnoresReadFault | QshLib/QshConverter.cs:361-364 | an exception while reading does not change the deals reader's result |
| Dispatch.CandleCalls | QshLib/QshConverter.cs:122-131 | one candle save per timeframe, in order, for the same list and instrument |
| Dispatch.ListCalls | QshLib/QshConverter.cs:114-135 | a list of at most one trade makes no call; otherwise one trade save then one candle save per timeframe, keyed by the first trade's instrument |
| Dispatch.DispatchCalls | QshLib/QshConverter.cs:114-135 | storage is not called at all exactly when no day list of the file has more than one trade |
| Dispatch.SaveList | QshLib/QshConverter.cs:116-131 | the loop body makes exactly the calls `ListCalls` specifies |
| Dispatch.DispatchAll | QshLib/QshConverter.cs:114-135 | the loop makes the calls of each list in order, and clears exactly the lists of more than one trade |
| Dispatch.SavedLists | QshLib/QshConverter.cs:116 | a list is among the saved lists exactly when it is one of the file's lists and has more than one trade |
| Dispatch.DispatchSavesBigLists | QshLib/QshConverter.cs:114-135 | the trade saves of a file are exactly its lists of more than one trade, each once and in order, whatever the timeframes |
| Dispatch.DispatchCallsKeyedByFirstTrade | QshLib/QshConverter.cs:118-129 | every call saves a list of more than one trade and is keyed by that list's first trade's instrument |
| Converter.NewConverter | QshLib/QshConverter.cs:48-55 | a new converter has the chosen kind, no timeframes and zeroed counters |
| Converter.AddTimeFrames | QshLib/QshConverter.cs:42-46 | the timeframe list is replaced by the given one and nothing else changes |
| Converter.ReadFile | QshLib/QshConverter.cs:106-112 | order-log files go through `OrdLogReader`; deals files give the deals reader's single list and throw only when opening fails; any other kind gives no list |
| Converter.StoreFile | QshLib/QshConverter.cs:104-143 | given the read outcome and the index of the first storage call that throws: a read that throws makes no storage call; otherwise the calls made are a prefix of the file's planned calls; the file succeeds exactly when no planned call throws, and then all were made; when the k-th call throws, exactly k were made |
| Converter.ConvertFile | QshLib/QshConverter.cs:104-135 | for any kind other than order logs and deals a task reads nothing, stores nothing and does not throw; a file that cannot be opened makes no storage call and throws; every call made saves a list of more than one trade keyed by its first trade's instrument; the task succeeds exactly when reading succeeds and no call of the file's dispatch plan throws, the calls made are a prefix of that plan, and all of it on success |
| Converter.RunFile | QshLib/QshConverter.cs:102-146 | `Progress` runs exactly when the file succeeds, and its report follows the file's storage calls; a failed file changes no counter and reports its exception after its storage calls |
| Converter.RunFilesAppend | QshLib/QshConverter.cs:72-90 | running two file lists one after the other is running their concatenation, so batching does not change a run |
| Converter.Convert | QshLib/QshConverter.cs:61-91 | the total is the number of files of the configured kind, the configuration is kept, and the run is those files converted in order, starting from the old counts |
| Converter.RunFiles | QshLib/QshConverter.cs:94-151 | a run of tasks changes neither the kind, the timeframes nor the total, and only ever appends notices |
| Converter.ConvertPart | QshLib/QshConverter.cs:94-151 | the batch loop runs one task per file in list order, keeping the configuration and only appending notices |
| Converter.RunFileReportsOnlyItsFile | QshLib/QshConverter.cs:102-146 | the notices of one task are appended after the earlier ones, and the only exception they report is for the task's own file |
| Converter.RunFilesReportsOnlyItsFiles | QshLib/QshConverter.cs:94-151 | every exception a run reports is for one of the run's files |
| Converter.RunFileErrorCount | QshLib/QshConverter.cs:102-146 | a task reports one file error when it throws and none when it succeeds |
| Converter.RunFilesErrorCount | QshLib/QshConverter.cs:94-151 | a run reports exactly as many file errors as it has files whose task throws |
| Converter.RunFileShown | QshLib/QshConverter.cs:137-173 | one task shows at most one percentage, and a tracker exception appears only through a successful task's progress update |
| Converter.ProgressKeepsShownMatches | QshLib/QshConverter.cs:154-173 | a progress update below the total raises no exception, adds one to the count, and any percentage it shows extends the shown ones as a new strictly larger last element equal to the stored one |
| Converter.RunFileKeepsShown | QshLib/QshConverter.cs:137-173 | one task keeps the counters consistent and the shown percentages positive, strictly increasing and ending in the stored one; the count rises exactly when the file succeeds |
| Converter.RunFilesKeepsShown | QshLib/QshConverter.cs:94-151 | over a run those facts hold throughout, and the count rises by the number of successful files |
| Converter.RunShows | QshLib/QshConverter.cs:94-173 | a run from a zero count with the run's file count as the total shows strictly increasing percentages in 1..100, ends with the count of successful files, shows no tracker exception, and shows 100 exactly when every file succeeds |
| Converter.ShownSoFarBounds | QshLib/QshConverter.cs:154-173 | shown percentages lie between 1 and 100, and 100 is among them exactly when the count has reached the total |
| Converter.ConvertProgress | QshLib/QshConverter.cs:61-173 | over the first run of a new converter: the shown percentages strictly increase and lie in 1..100; the count ends at the number of successful files; no tracker exception occurs; 100% is shown exactly when every file of the run succeeds |

## Left out

- `Convert(string)` and `GetQshFiles`: the directory search is I/O. The model starts from the file list.
- `Path.GetFileNameWithoutExtension` is a parameter (`stemOf`) of the environment.
- `EndsWith(string)` in `SecurityConverter` is culture-sensitive in .NET. It is modelled as an ordinal suffix comparison. `Contains(string)` in `CheckFileName` is ordinal in .NET, as in the model.
- `RecordMapping.SecurityConverter`: a null `Ticker` makes `EndsWith` throw a `NullReferenceException`. The model has no null strings and reads such a ticker as the empty string, so as Futures. A null auxiliary code is treated by `string.IsNullOrEmpty` exactly as the empty string, and a null short name is interpolated as the empty string, so both agree with the model.
- The parallel tasks of a batch are modelled as running one after the other, in list order. They share the counter, which `Progress` updates under a lock, as well as the storage object and the timeframe list, which they only use. Their storage calls may interleave in any order, which the model does not represent.
- The constructor's directory creation and the `Storage` object are left out. Storage is represented by the calls made to it.
- The decoder (`QshReader`), the order-book reconstructor (`OrderLogToMarketDepth`), `CandleBuilder.Build` and `Storage.Save` are external. The model takes what they deliver or do as parameters.
- The decoder's read loop (`while CurrentDateTime != DateTime.MaxValue`) is represented by the events it delivers before it ends or throws.
- The remaining-time estimate and its text use the clock and floating point. A report carries only the percentage.
- Exception texts are represented by the path of the failing file, or by a tracker-exception notice.
- `Debug.WriteLine` in `DealsReader` is left out.
- `RecordMapping.SecurityConverter`: the `double` → `decimal` conversions of the step are modelled as exact reals. The exception `(decimal)` can throw on an out-of-range step is not modelled.
- `RecordMapping.DealToTrade`: the price multiplication is modelled on exact reals. Decimal rounding and overflow are not modelled.
- `QshTypes.OrdLogFlags` is a set of named flags rather than the bit values of the decoder's enumeration. `HasFlag` becomes set membership.
- `Converter.ConvertProgress` is stated for totals up to 21 474 836 files. Above that, `_count * 100` can wrap around; the contract of `ProgressTracker.Progress` gives the wrapped percentage for that case.

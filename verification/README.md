# minimoni: a Dafny model of its store, its migration tool and its hard kernels

minimoni samples a host, keeps the samples in one SQLite table, and serves them to a dashboard. Old
samples are folded into coarser buckets by a *pass* of five INSERT/DELETE pairs. This project models
that table and the code around it and proves what the program relies on.

* **The tiered store.** A table is a multiset of rows. Each row carries the set of collected samples
  its values come from; the program does not store that set, but every statement about what is kept or
  lost is a statement about it. `Rows`, `Ladder` and `Consolidation` give the meaning of a pass,
  `Conservation` what it keeps, `Runs`, `Buckets`, `Columns` and `RowBound` what every run keeps,
  `Pruning` and `Means` when pruning and averaging may be reordered. `MetricsDb` has the statements as loops over rows in a sequence, proved to be those effects, and
  `Serve` and `Daemon` the collect loop built from them, without and with the alerts; `Histories` makes
  histories of whole cycles for the failing inputs. `TableRows` joins the two views of a table.
* **Reading it.** `RangeQuery`, `Answers`, `Requests` and `Downsample` (what a query answers, whose samples
  it shows, which requests are exact, how many rows), `Timestamps` (why comparing stored strings compares instants), `Config` (which ranges
  load, what a tab asks for, how long samples stay).
* **The migration tool.** `Migrate` is the tool on a small file system whose every call may fail;
  `Compaction` its closing passes; `Pipes` the two-pipe protocol between the tool and its child.
* **JSON.** `JsonText` has the escaper and an independent reader after RFC 8259, `JsonWriter` the
  bounded buffer, `JsonSizes` the documents and their size limits, `Dashboard` the configuration they
  are made from, `Documents` what a client reads in them.
* **Smaller kernels.** `Collector` (64-bit CPU deltas, byte rates, NULL groups), `Alerts` (cooldowns
  over whole runs), `SseSlots` (the stream counter under every interleaving), `KeyHints` (the one-row
  edit distance).

Time is in whole seconds since 1970. A clock, a failing statement, a delivery or a system call is a
parameter; each module says which.

Where the code and its own text disagree, the model follows the code:

* src/migrate/consolidate.c:133-134 says a pass advances a row by at most one tier. The five pairs run
  finest first in one transaction, so one pass folds a row as far as it is due; the passes after the
  first have nothing left to do (`Compaction.PassesEndAtTheLast`).
* src/migrate/main.c:275-279 names the backup after the failing step's version; the file is named after
  the starting version (:232). Statements here are about the file.
* docs/adr/0005-tiered-consolidation.md:153-155 bounds the points returned by the cap of 1,440, but for a
  ten-year range. After six days of a sample a minute, a request for all of them in 1,440 points is
  answered in 1,728 rows (`Requests.SixDaysExceed`); `Downsample.AnswerNearTarget` is the bound that holds.

Some properties are false as one would first state them. Each is stated with its exact condition and an
input that fails without it:

* a tier that reads the clock twice (`Conservation.TwoClocksConserveIff`, `LoneRowLost`, `LoneRowDoubled`);
* pruning moved across a pass: exactly when the cutoff lies inside no due bucket
  (`Pruning.PruneCommutesIff`, `CutoffRowLost`);
* CPU shares that add up to 100: exactly when no group of counters went back, or one did and took the
  total with it (`Collector.SharesAddUpMoved`, `SharesMiss`);
* a cooldown kept over a run with pruning: exactly when it is at most one second longer than what is kept
  (`Alerts.CooldownHoldsIff`, `RetentionCutsCooldown`);
* a field that did not overflow reads back: a string field always, any other exactly when it fits its
  local buffer (`JsonWriter.ReadsBackIffShort`, `LongNullIsLost`);
* reading one pipe to its end first: it can deadlock, and never ends, exactly when the child writes more
  to the other than that pipe holds (`Pipes.SequentialDeadlockIff`, `SequentialFinishesIff`);
* a column's mean kept through a finer tier: on every table with given numbers of values in its buckets,
  exactly when those numbers are equal (`Means.FoldsAgreeIff`, `UnequalTableMisses`);
* every answer to a request, over every history of whole cycles, of raw rows or exact: exactly when the
  interval divides a day or the range ends before the first tier wider than the interval
  (`Requests.RequestsExactIff`; `SevenSecondsMiss` is twelve hours of a sample every seven seconds).

docs/adr/0005-tiered-consolidation.md:134-135 estimates 23,760 and 63,672 rows for two configurations.
The proved upper bounds are 23,776 and 63,707.

## Model

| member | source | states |
|---|---|---|
| `Ladder.LadderIsWellFormed` | src/db.c:731-737 | Each tier size divides every coarser one and the thresholds rise. |
| `Ladder.StartUnique` | src/db.c:785-787 | A bucket start is the only aligned instant whose bucket holds the row. |
| `Ladder.Nesting` | src/db.c:715-719 | A fine bucket lies inside one coarse bucket, and folding to it first does not change the coarse one. |
| `Ladder.GcdIs` | src/db.c:731-737 | The greatest common divisor of two bucket sizes divides both and is a combination of both. |
| `Ladder.AtLeastGcd` | src/db.c:630-651 | Between a multiple of one size and a later multiple of the other lie at least that many seconds. |
| `Ladder.JustGcd` | src/db.c:630-651 | And for some multiples exactly that many. |
| `Rows.SumRemove` | src/db.c:777-780 | The order in which a group is added up does not matter to SUM and COUNT. |
| `Rows.CountPositive` | src/db.c:721-722 | COUNT of a column is positive exactly when some row of the group has a value. |
| `Rows.AverageInHull` | src/db.c:777-782 | An AVG lies between two of the values it averages. |
| `Rows.AverageTimesCount` | src/db.c:777-782 | An AVG times its COUNT is the SUM, NULLs left out of both. |
| `Consolidation.StepRows` | src/db.c:766-790 | One tier leaves exactly the rows that were not due plus one row per due bucket; its DELETE spares what its INSERT added. |
| `Consolidation.StepAbsorbs` | src/db.c:715-719 | A tier run at two instants is the tier run at the later one: a bucket moves whole or not at all. |
| `Consolidation.StepKeepsClean` | src/db.c:762-801 | No tier, finer or coarser, brings a finer row back into a bucket already folded. |
| `Consolidation.DueAtFiner` | src/db.c:731-737 | A row due at a coarse tier is in a bucket due at every finer tier. |
| `Consolidation.StepsCommute` | src/db.c:762-801 | A later run of a finer tier and an earlier run of a coarser one can be exchanged, values and provenance included. |
| `Consolidation.TiersCommute` | src/db.c:762-801 | All finer tiers of a later pass move ahead of a tier of the earlier pass. |
| `Consolidation.TiersClean` | src/db.c:762-801 | A pass leaves nothing due at any tier. |
| `Consolidation.PassAbsorbs` | src/db.c:749-808 | A pass followed by a later pass gives the table of the later pass alone; so a pass is idempotent. |
| `Consolidation.ScheduleIndependence` | src/db.c:749-829 | The same with samples stamped no earlier than the first pass inserted in between. |
| `Conservation.StepConserves` | src/db.c:740-748 | One tier represents exactly the samples represented before. |
| `Conservation.StepExclusive` | src/db.c:740-748 | No sample ends up in two rows. |
| `Conservation.PassConserves` | src/db.c:749-808 | A pass keeps every sample, each in one row, for every table and instant. |
| `Conservation.TwoClocksConserveIff` | src/db.c:743-748 | With separate clocks for INSERT and DELETE, every table is conserved exactly when no bucket becomes due between the two readings. |
| `Conservation.LoneRowLost` | src/db.c:743-748 | A DELETE with the later clock loses the sample of a bucket due only to it. |
| `Conservation.LoneRowDoubled` | src/db.c:743-748 | A DELETE with the earlier clock leaves a folded sample represented twice. |
| `Runs.RunConserves` | src/main.c:200-226 | Over every run, whatever the clock does: each collected sample is in exactly one row until pruning removes it, and only pruning removes one. |
| `Runs.PruneSplits` | src/db.c:383-394 | Pruning splits the samples in two; none is both kept and removed. |
| `Runs.PruneStep` | src/db.c:383-394 | Pruning and one tier can be exchanged when the cutoff lies inside no due bucket. |
| `Runs.PrunePass` | src/db.c:383-394 | So can pruning and a whole pass. |
| `Runs.WidestCuts` | src/db.c:731-737 | A multiple of the widest tier is such a cutoff at any instant. |
| `Runs.RunSchedule` | src/main.c:211-218 | Over every run, prunings included: the rows since any instant that no pruning has reached and no due bucket spans are those the last pass alone would give on all the raw rows. |
| `Pruning.PruneCommutesIff` | src/main.c:217-218 | Pruning and a pass can be exchanged on every table exactly when the cutoff lies inside no due bucket of any tier. |
| `Pruning.CutoffRowLost` | src/main.c:217-218 | Otherwise a lone row stamped at the cutoff is kept in one order and lost in the other. |
| `Pruning.YoungSamplePruned` | src/db.c:383-394 | A history of two cycles that prunes a sample 21598 seconds younger than the cutoff, so no fewer than 21599 have to be given up. |
| `Means.FoldsAgreeIff` | src/db.c:766-790 | With given numbers of values in the fine buckets of a due coarse bucket, every such table has the same value folded through the fine tier and at once exactly when those numbers are equal. |
| `Means.UnequalTableMisses` | src/db.c:766-790 | A table where it changes from 2/3 to 1/2. |
| `Means.FilledShaped` | src/db.c:766-790 | For any numbers of values, the table with ones in one bucket and zeros in the others. |
| `Means.MeansAgreeIff` | src/db.c:777-782 | On numbers: for groups of given sizes the mean of the means is the mean, whatever the values, exactly when the sizes are equal. |
| `Means.FoldedMeans` | src/db.c:766-790 | Folded through a finer tier a column is the mean of the bucket means, folded at once the mean of all values. |
| `Means.EqualBucketsKeepMean` | src/db.c:766-790 | So it keeps its mean when the finer buckets have equally many values. |
| `Means.FoldIsMean` | src/db.c:766-790 | A bucket whose rows are means of equally many samples is folded to the mean of all its samples. |
| `Means.StepKeepsMeans` | src/db.c:766-790 | So a tier keeps every row the mean of its samples while it folds such buckets. |
| `Means.PassKeepsMeans` | src/db.c:749-808 | And so does a whole pass, through however many tiers a sample goes. |
| `Buckets.FoldedCovers` | src/db.c:766-790 | Every sample of a folded row was taken inside its bucket. |
| `Buckets.StepSettles` | src/db.c:762-801 | Each step of a pass keeps one row per bucket for tiers wider than the interval. |
| `Buckets.RunSettles` | src/db.c:715-719 | In every reachable state each tier wider than the interval has at most one row per aligned bucket and no finer row in it. |
| `Buckets.PruneRespectsAge` | src/db.c:383-394 | Pruning drops no sample younger than the retention less one widest bucket, and every surviving row represents only samples inside the retention. |
| `Columns.FoldFaithful` | src/db.c:766-790 | A folded value lies between the least and greatest sample it represents and is NULL iff all are. |
| `Columns.CpuSums` | src/db.c:777-780 | The three CPU sums of a group add up to 100 per counted row. |
| `Columns.FoldGrouped` | src/db.c:457-531 | Averaging keeps the column groups NULL together, swap I/O only with swap, and the CPU shares at 100. |
| `Columns.RunSound` | src/db.c:457-531 | Both hold of every row over every run, which is what reading a row back relies on. |
| `RowBound.ApartBound` | src/db.c:715-719 | Rows some seconds apart within a span are at most span / gap + 1. |
| `RowBound.CycleBound` | src/db.c:731-737 | After a cycle the table is no larger than a number computed from the interval, the least gap between samples and the retention. |
| `RowBound.RunRawApart` | src/main.c:200-218 | Over every run, raw rows stay as far apart as samples are stamped, and no pass makes a new one. |
| `RowBound.RunBound` | src/main.c:211-218 | That bound holds after a cycle of every run, however long, for the gap its samples keep. |
| `RowBound.RunRows` | src/main.c:200-218 | With no gap at all, samples stamped in one second included: at most the raw rows collected within the first tier's reach, and the quotas of the tiers. |
| `RowBound.DefaultBound` | docs/adr/0005-tiered-consolidation.md:134 | At most 23,776 rows for a sample a minute kept 90 days. |
| `RowBound.LargestBound` | docs/adr/0005-tiered-consolidation.md:135 | At most 63,707 rows for a sample a second kept 3653 days. |
| `TableRows.WhereIsFilter` | src/db.c:603-613 | Selecting rows in order is filtering the multiset. |
| `TableRows.AveragesOfIsAverages` | src/db.c:777-782 | Averages added up in row order are the averages of the group. |
| `TableRows.FoldOfIsFold` | src/db.c:766-790 | Folding a bucket row by row gives the folded row of the multiset view. |
| `MetricsDb.Db.Insert` | src/db.c:296-358 | Adds one row stamped now with the interval as its width; column by column its cell is the named field of the sample, and a column is absent exactly when its group is not valid; nothing on failure. |
| `MetricsDb.DueStarts` | src/db.c:785-787 | Finds each due bucket exactly once. |
| `MetricsDb.Db.InsertFoldedRows` | src/db.c:766-787 | The table gains one folded row per due bucket of the table as it was. |
| `MetricsDb.Db.DeleteDueRows` | src/db.c:788-790 | The table loses exactly the due rows. |
| `MetricsDb.Db.Consolidate` | src/db.c:810-829 | On success the table is the pass of the old one; whichever statement fails, the rows are what they were. |
| `MetricsDb.Db.Prune` | src/db.c:383-405 | Both tables cut at one instant; a failure of the second statement leaves the first done. |
| `MetricsDb.LogSinceKeeps` | src/db.c:396-402 | Pruning alert_log keeps each firing from the cutoff on as often as it was recorded, and no other. |
| `MetricsDb.Db.CountRange` | src/db.c:569-585 | The number of rows in the window. |
| `MetricsDb.QueryRaw` | src/db.c:603-627 | The rows of the window, each once, in time order. |
| `MetricsDb.QueryBuckets` | src/db.c:630-651 | One averaged row per nonempty bucket, strictly ascending. |
| `MetricsDb.BucketPointIs` | src/db.c:630-651 | The row of a bucket is the average and the samples of exactly the window's rows in it. |
| `MetricsDb.Db.QueryRange` | src/db.c:628-700 | What a range query answers for every table, window and bucket size; on a sound table every row of the answer is faithful to its samples and well grouped. |
| `RangeQuery.AnswerLength` | src/db.c:630-651 | A bucketed answer has at most range / bucket + 2 rows. |
| `RangeQuery.TiersTraced` | src/db.c:762-801 | Each sample of a row left by a pass comes from a row that row continues, at the start of a tier bucket. |
| `RangeQuery.ClearBucket` | src/db.c:630-659 | A tier that divides the query bucket, or begins too far back for the range, has no bucket that the window sees split. |
| `RangeQuery.NotClear` | src/db.c:630-659 | Any other tier has one. |
| `RangeQuery.PassKeepsQueryBucket` | src/db.c:630-659 | A query bucket wholly in the window represents the same samples before and after a pass, when each tier present divides it or begins too far back for the range. |
| `Answers.BucketSamples` | src/db.c:630-659 | Under the same condition on the tiers, a query bucket in the window shows exactly the samples of the table taken inside it. |
| `Answers.PrunedAreOld` | src/db.c:383-394 | Over every run, pruning removes only samples older than its cutoff and the widest bucket. |
| `Answers.RunAnswer` | src/db.c:630-659 | Over every run and under that condition, each row of a bucketed answer represents exactly the samples taken inside its bucket that no pruning removed. |
| `Answers.RunAnswerComplete` | src/db.c:630-659 | And exactly all samples taken inside it, from the widest tier's size after the last cutoff on. |
| `Answers.BucketedSound` | src/db.c:457-531 | Rows of a bucketed answer keep the NULL groups and lie between the samples they show. |
| `Answers.RawSoundAsRead` | src/db.c:457-531 | So do rows of a raw answer. |
| `Requests.PrunedUnseen` | src/db.c:383-394 | When every tier is clear of the request, pruning up to the window removes no sample of a bucket in it. |
| `Requests.AnswersExactIff` | src/db.c:630-659 | For any query of a range and a bucket: every answer of every run shows exactly the samples taken in its buckets if and only if each tier wider than the interval divides the bucket or begins too far back; histories of whole cycles are enough to tell. |
| `Requests.FirstSampleMissed` | src/db.c:630-659 | A history whose first sample opens a query bucket and is folded to before it: no answer shows the sample where it was taken. |
| `Requests.NotClearMisses` | src/db.c:630-659 | For a query with a tier that does neither, a history of two cycles whose answer is not exact. |
| `Histories.CyclesCollect` | src/main.c:206-218 | A history of cycles collects a sample at each instant, and keeps all when it is no longer than what is kept. |
| `Histories.CyclesLeave` | src/main.c:206-218 | It is a run, and what it leaves is what a cycle leaves. |
| `Histories.RowOfTier` | src/db.c:762-801 | When the bucket of a sample is due at a tier and at no wider one, its row is of that tier, at the start of the bucket. |
| `Histories.YoungRows` | src/db.c:731-737 | The window holds at least a row for each of its samples younger than every threshold. |
| `Requests.NearestDivides` | docs/adr/0005-tiered-consolidation.md:67-80 | The design point: up to 1440 points, the bucket picked is a multiple of every tier that can be in the window. |
| `Requests.NearestIsClear` | docs/adr/0005-tiered-consolidation.md:67-80 | So every tier divides it or begins too far back, for every interval. |
| `Requests.EligibleIff` | src/downsample.c:27-52 | Some bucket is a multiple of the interval exactly when the interval divides a day. |
| `Requests.IntervalClearIff` | src/downsample.c:58 | With the interval as the bucket, exactly when the range ends before the first wider tier. |
| `Requests.PickedIsExact` | src/http.c:306-310 | When the interval divides a day or the range ends before the first wider tier, every answer over every run is exact. |
| `Requests.RequestMissed` | src/http.c:306-310 | Otherwise a history whose window holds more rows than the points asked for, so the server picks the interval as the bucket, and whose answer misses a sample. |
| `Requests.RequestsExactIff` | src/http.c:306-310 | So over all histories of whole cycles every request is served raw rows or an exact answer if and only if the interval divides a day or the range ends before the first wider tier. |
| `Requests.SevenSecondsMiss` | src/downsample.c:39-58 | A sample every seven seconds for twelve hours and a request for the last day in 240 points: the window holds more rows than that, the bucket is seven seconds, and every answer misses the first sample. |
| `Requests.RawAnswerLength` | src/db.c:603-627 | A raw answer has as many rows as the window. |
| `Requests.RawAnswerShort` | src/downsample.c:41-43 | When the ideal bucket is no wider than the interval, a raw answer has at most one row more than gaps between samples fit into the range. |
| `Requests.AnswerAtLeast` | src/db.c:630-651 | When every whole bucket of the window had a sample, an exact answer has at least one row less than buckets fit into the window. |
| `Requests.SixDaysExceed` | docs/adr/0005-tiered-consolidation.md:153-155 | After six days of a sample a minute, a request for 1440 points is answered in 1728 rows. |
| `Requests.HandleMetrics` | src/http.c:286-310 | Counting, picking and querying together. Raw rows exactly when there are no more of them than points (240 when none are asked for, at most 1440) or the ideal bucket is no wider than the interval; else the eligible bucket nearest the target, or the interval when none is eligible. Exact, near the target and with at least and at most so many rows as above. |
| `Serve.Record` | src/main.c:214-218 | Insert, consolidate and prune happen in this order, each against its own clock; a failed insert ends the cycle, the other failures do not. |
| `Serve.Cycle` | src/main.c:206-218 | A cycle adds exactly its events to the history, the sampler goes one collection on, and the columns stored are well grouped whenever the CPU ticks fit 64 bits. |
| `Serve.NumberedAreNew` | src/main.c:200-218 | Samples numbered as they come are never collected twice. |
| `Serve.Serve` | src/main.c:200-226 | The loop, restarts included: the table is that of the history of its cycles, each storing what the sampler makes of the readings so far; conservation, one row per bucket, the row bound for every gap and sound columns hold at its end, hence after every cycle. |
| `Daemon.EvaluationsLog` | src/alerts.c:572-619 | Evaluating the alerts is their evaluations one after another in the history of the log. |
| `Daemon.Turned` | src/main.c:206-224 | One turn of the loop grows the histories of both tables: collected, stored, consolidated, pruned, then the alerts. |
| `Daemon.Loop` | src/main.c:200-226 | Over the whole loop, restarts included: the log holds exactly the delivered firings no pruning removed, and while the clock rises recorded firings keep their cooldown or what is kept. |
| `Compaction.PassesEndAtTheLast` | src/migrate/consolidate.c:133-155 | Any number of passes at rising instants ends where the last one alone would. |
| `Compaction.ConsolidateAll` | src/migrate/consolidate.c:123-155 | The table after the fixed number of passes, or after those before the first that failed. |
| `Downsample.PickBucket` | src/downsample.c:32-58 | Raw rows exactly when they suffice; else an eligible bucket nearest the target, the smallest of those; the interval when none is eligible. |
| `Downsample.BucketsNearTarget` | src/downsample.c:27-58 | 7 * (range / bucket) <= 10 * points + 4, when the interval divides a minute and a day is wide enough. |
| `Downsample.BucketsNearTargetIsTight` | src/downsample.c:32-58 | An input that meets that bound. |
| `Downsample.AnswerExceedsPoints` | src/downsample.c:32-58 | For six days at a sample a minute and 1440 points the nearest bucket goes into the range 1728 times. |
| `Downsample.AnswerNearTarget` | src/http.c:286-300 | So a bucketed answer to a request has at most (10 * points + 18) / 7 rows. |
| `Timestamps.Gmtime` | src/db.c:296-303 | Broken-down time is a valid date whose seconds since 1970 are the instant. |
| `Timestamps.MonthLengths` | src/db.c:298-303 | The lengths of the Gregorian months. |
| `Timestamps.TmOrder` | src/db.c:369-381 | Field by field order of dates is the order of instants. |
| `Timestamps.DigitsOrder` | src/db.c:369-381 | Fixed-width decimals compare as their numbers and determine them. |
| `Timestamps.YearTenThousand` | src/db.c:298-303 | Where the four-digit year ends, from a closed form of the leap years. |
| `Timestamps.StampOrder` | src/db.c:363-381 | From 1970 to the end of 9999 stored strings compare lexicographically exactly as their instants. |
| `Timestamps.StampRoundTrip` | src/db.c:603-605 | Stored strings have twenty characters with their separators in place, and reading one back gives its instant. |
| `Config.LoadRanges` | src/config.c:621-677 | The ranges that load, in order; the defaults; and each way the load is refused. |
| `Config.StrtolReads` | src/config.c:40-46 | strtol on white space, a sign or none and the decimal digits of n gives n with its sign, cut to what a long holds, and stops in front of the rest. |
| `Config.StrtolStops` | src/config.c:40-46 | Without a digit it gives 0 and has read nothing. |
| `Config.DurationReads` | src/config.c:40-60 | A number and a unit as a duration, for every number and unit. |
| `Config.RangeReads` | src/config.c:110-134 | A number and a unit as a range: exactly which are accepted, the seconds the tab shows and the days it keeps. |
| `Config.PassingIsAccepted` | src/config.c:637-665 | A range that passes and fits its field meets every condition on ranges. |
| `Config.DefaultsAreAccepted` | src/config.c:434-461 | So do the default ranges, for every interval that loads. |
| `Config.RangeMeaning` | src/config.c:40-60 | For every accepted range the handler's seconds are the loader's, within 32 bits, and the days kept are the fewest that cover them. |
| `Config.SelectRange` | src/http.c:254-270 | The range a request names if it is configured, else the first. |
| `Config.RetentionDays` | src/main.c:102-113 | The greatest number of days any tab needs; 90 when no tab needs any. |
| `Config.ServeTab` | src/http.c:254-286 | No window exactly when the load is refused; else the window of the tab named or of the first, inside the retention, which is the fewest days that cover every tab. |
| `Config.TabKeepsItsSamples` | src/db.c:383-394 | A sample in a tab's window survives pruning, but for the last 21599 seconds of the window. |
| `Config.LoadNames` | src/config.c:570-606 | The chart or card names kept are the first sixteen known ones in order; hidden exactly for the empty list; too long exactly when an entry that is read does not fit its field. |
| `Config.GroupsAreKnown` | src/config.c:177-179 | A list can name every group of values the documents show, and nothing else. |
| `Config.KnownGrows` | src/config.c:575-586 | Stopping at the limit leaves a front part of the list. |
| `Collector.TicksAreMovesWrapped` | src/metrics.c:102-138 | Modulo 2^64 the ticks of a group are how far its counters moved, and the groups add up to the total. |
| `Collector.GroupTicksAreExact` | src/metrics.c:117-137 | While no group goes back the ticks are exact, even if one counter of a group does. |
| `Collector.SharesAddUpIff` | src/metrics.c:126-137 | User, system and idle shares add up to 100 exactly when the group ticks fit 64 bits together. |
| `Collector.SharesAddUpMoved` | src/metrics.c:126-137 | On the counters, for movements below 2^62: exactly when no group went back, or one did and took the total back. |
| `Collector.SharesMiss` | src/metrics.c:126-137 | Readings whose shares do not: user five ticks back, idle a hundred forward. |
| `Collector.RatesAccountForBytes` | src/metrics.c:327-342 | Rates are valid exactly when time advanced and no counter went back, and then account for every byte; else the old numbers stay. |
| `Collector.BoundIsStored` | src/db.c:308-358 | Each of the eighteen columns stores the named field of the sample, and is NULL exactly when its group is not valid. |
| `Collector.RowReadsBack` | src/db.c:457-531 | Reading the stored columns as read_row does gives the sample back: every field, and the optional groups that were valid. |
| `Collector.BoundCellsGrouped` | src/db.c:308-358 | The stored columns are well grouped exactly when CPU shares add up and swap I/O is valid only with swap. |
| `Collector.Sampler.CollectCpu` | src/metrics.c:102-138 | Validity, shares and snapshot after each reading, missing ones included. |
| `Collector.Sampler.CollectNet` | src/metrics.c:453-470 | Network rates from two consecutive readings; a failed reading keeps the snapshot. |
| `Collector.Sampler.SampleSwapIo` | src/metrics.c:503-521 | Swap rates only with swap and two consecutive readings; a failed reading forgets the snapshot. |
| `Collector.Sampler.CollectOptional` | src/metrics.c:570-573 | CPU, temperature, network and swap rates, and the snapshots they leave. |
| `Collector.Sampler.Collect` | src/metrics.c:556-576 | The whole sample, field by field from the readings, and the snapshots after it, with success or without; its columns are well grouped exactly when the CPU ticks fit 64 bits. |
| `Alerts.CheckCooldown` | src/db.c:409-429 | On cooldown exactly when a recorded firing of the name is younger than the cooldown. |
| `Alerts.OneAlert` | src/alerts.c:138-149 | One alert, cooled down and without failing statements: recorded exactly when the comparison its operator names holds and a configured action succeeded, a webhook or a command; any other operator never fires; otherwise the log stays. |
| `Alerts.Evaluate` | src/alerts.c:572-619 | The log gains one firing per alert that was due, cooled down and delivered by either action; for one alert that is stated operator by operator. |
| `Alerts.CooldownHolds` | src/alerts.c:583-616 | Over every run, restarts and pruning included, two recorded firings of a name are at least the later cooldown apart, or more than the retention. |
| `Alerts.CooldownHoldsIff` | src/db.c:396-402 | With some days kept, a cooldown holds over every run exactly when it is at most one second longer than they are. |
| `Alerts.LogIsDelivered` | src/alerts.c:595-616 | In every state of every run the log holds exactly the firings delivered and recorded that no pruning has removed. |
| `Alerts.OnlyDeliveredCools` | src/alerts.c:595-616 | So a name is on cooldown exactly because of a delivered firing inside the cooldown: a failed delivery never starts one. |
| `Alerts.RetentionCutsCooldown` | src/db.c:396-402 | With a cooldown longer than that, a run in which the alert fires again too early. |
| `Pipes.KeepIsPrefix` | src/migrate/exec.c:41-57 | Reading a chunk no longer than asked for keeps a prefix of the stream in the buffer. |
| `Pipes.Sink.Read` | src/migrate/exec.c:41-57 | One read: the buffer holds the first cap - 1 bytes of all that was read; more to come unless the stream ended. |
| `Pipes.Sink.Terminate` | src/migrate/exec.c:74-80 | The NUL goes right after those bytes. |
| `Pipes.NextKeepsInv` | src/migrate/exec.c:59-80 | Every step of either process keeps: read, in flight and unwritten bytes make up the stream. |
| `Pipes.NeverStuck` | src/migrate/exec.c:33-40 | Before both streams end some process can step, for any pipe sizes. |
| `Pipes.NextDecreases` | src/migrate/exec.c:59-80 | Every step decreases one measure. |
| `Pipes.DrainsBoth` | src/migrate/exec.c:59-80 | Under every interleaving a run ends within 16 steps a byte plus 28, with both buffers the first cap - 1 bytes of their streams. |
| `Pipes.SequentialDeadlockIff` | src/migrate/exec.c:57-58 | Reading one stream to its end first can deadlock exactly when the child writes more to the other than its pipe holds. |
| `Pipes.SequentialFinishesIff` | src/migrate/exec.c:57-58 | And it can finish at all exactly when the child does not. |
| `Migrate.ShippedRegistryRises` | src/migrate/migrations.c:190-202 | Every shipped migration moves up and none past the latest version. |
| `Migrate.ShippedRegistryCovers` | src/migrate/migrations.c:190-202 | A migration starts at every version below the latest. |
| `Migrate.Find` | src/migrate/migrations.c:204-211 | The migration that starts at a version, or none when there is none. |
| `Migrate.WalkSteps` | src/migrate/main.c:249-288 | The step loop commits whole steps only, ends, and returns 0 exactly at the latest version. |
| `Migrate.WalkSucceeds` | src/migrate/main.c:249-288 | With no version missing and no script failing, the loop reaches the latest version. |
| `Migrate.WalkForetells` | src/migrate/main.c:128-143 | When scripts depend on the database alone, the loop ends the same whenever it starts. |
| `Migrate.CompactedVersion` | src/migrate/main.c:306-313 | Consolidations do not change the version. |
| `Migrate.DatabaseFilesAreNotBeside` | src/migrate/main.c:215-240 | The files the tool names are neither the database nor a file SQLite keeps beside it. |
| `Migrate.NamesDiffer` | src/migrate/snapshot.c:67-80 | Target, temporary and the sidecars of both are different files. |
| `Migrate.BesideNames` | src/migrate/main.c:231-233 | All a snapshot beside the database writes are files the tool names. |
| `Migrate.BackupNames` | src/migrate/main.c:231-233 | The backups of two starting versions are two files. |
| `Migrate.Host.Remove` | src/migrate/snapshot.c:34-46 | A file is gone, or the call failed and it stays; a missing one counts as removed. |
| `Migrate.Host.RemoveSidecars` | src/migrate/snapshot.c:48-65 | On success no sidecar is left; nothing else changes. |
| `Migrate.Host.RemoveScratch` | src/migrate/main.c:118-128 | Only the scratch copy and its sidecars can go, and they go when no call fails. |
| `Migrate.Host.FillTemporary` | src/migrate/snapshot.c:76-101 | On success the temporary is a complete copy of the source; nothing else changes; a copy that failed is removed. |
| `Migrate.Host.Publish` | src/migrate/snapshot.c:103-118 | On success the copy is in place without stale sidecars; on failure an earlier copy is unchanged; the temporary is gone. |
| `Migrate.Host.Snapshot` | src/migrate/snapshot.c:67-118 | Both together, whichever call fails. |
| `Migrate.Host.ApplySteps` | src/migrate/main.c:249-288 | The loop on a file does what the walk over the registry says and touches no other file. |
| `Migrate.Host.Compact` | src/migrate/consolidate.c:123-170 | After a number of whole passes, eight when it returns 0. |
| `Migrate.Host.Preflight` | src/migrate/preflight.c:70-114 | It passes exactly when the file is a database and its queries (one check here) find what they should, and then has read the version. |
| `Migrate.Host.BackUp` | src/migrate/main.c:230-243 | The backup is a complete copy named after the starting version; the database is untouched. |
| `Migrate.Host.Advance` | src/migrate/main.c:249-319 | The database ends where the walk over the registry does; past the last step at most eight consolidations, eight with exit 0; a failed step ends it with 2. |
| `Migrate.Host.Migrate` | src/migrate/main.c:144-319 | What each check decides before any write: absent or at the latest version 0, refused 1 (not a database, newer, or a schema check that fails and is not forced), nothing changed. Otherwise 0 with every step and eight consolidations; 3: untouched; 2: at a version reached by whole steps; with a complete backup once anything may have changed. When nothing fails, exit 0. |
| `Migrate.Host.DryRun` | src/migrate/main.c:144-303 | The same checks with their statuses; never changes the original; once the steps ran on a copy, reports pending exactly when all of them succeeded, and the copy is gone when no call fails; and it gets that far when nothing outside the scripts fails. |
| `Migrate.Host.Run` | src/migrate/main.c:377-387 | What each check and each exit code mean for the files through the command line; forcing without a backup does nothing. |
| `Migrate.Host.RehearseThenMigrate` | src/migrate/main.c:128-143 | With deterministic scripts, a pending rehearsal means no step of the run that follows fails. |
| `JsonText.EscapeLength` | src/json.c:73-127 | An escaped string is at most six times as long. |
| `JsonText.EscapeWidths` | src/json.c:73-127 | Two bytes for the seven characters with a short escape, six for other control characters, one for the rest. |
| `JsonText.EscapeRoundTrip` | src/json.c:73-127 | Reading an escaped string by section 7 of RFC 8259 gives the string back. |
| `JsonText.NumberRoundTrip` | src/json.c:161-180 | A number token by section 6 is read back whole. |
| `JsonText.ValueRoundTrip` | src/json.c:143-200 | Any value the writer renders is read back. |
| `JsonText.ListRoundTrip` | src/json.c:202-215 | So is an array of strings, empty or not. |
| `JsonText.MembersRoundTrip` | src/json.c:130-141 | So is any list of members joined by single commas. |
| `JsonText.ObjectRoundTrip` | src/json.c:65-71 | So is any object by section 4: the same keys and values in order. |
| `JsonText.ObjectTakes` | src/json.c:65-71 | No object is shorter than its first member needs. |
| `JsonWriter.PutIsRender` | src/json.c:130-200 | A field that fits its local buffer is written as its member, or not at all. |
| `JsonWriter.LongStringOverflows` | src/json.c:143-159 | A string field too long for its local buffers sets overflow in a buffer of any size. |
| `JsonWriter.CutFieldIsLost` | src/json.c:161-200 | Any other field too long for its local buffer is cut, and no reader gets it back. |
| `JsonWriter.ReadsBackIffShort` | src/json.c:143-200 | In buffers of every size, a field that does not overflow reads back exactly when it is a string field or fits its local buffer of 64 or 128 bytes. |
| `JsonWriter.LongNullIsLost` | src/json.c:182-188 | One that does not: a NULL under a key of sixty letters. |
| `JsonWriter.FieldsAreWhole` | src/json.c:44-141 | With or without overflow the text is whole fields with single commas, and overflow is set exactly when one was dropped. |
| `JsonWriter.NoOverflowRoundTrip` | src/json.c:44-200 | An object that did not overflow reads back as the keys and values written, in order. |
| `JsonWriter.JsonEscape` | src/json.c:73-127 | The loop writes the escaped string and its NUL, or returns -1 exactly when they do not fit. |
| `JsonWriter.JBuf.Raw` | src/json.c:44-56 | Text is appended whole, or dropped with overflow set; a NUL closes the buffer. |
| `JsonWriter.JBuf.FieldText` | src/json.c:130-141 | Comma and field together, or neither. |
| `JsonWriter.JBuf.Write` | src/json.c:143-200 | Each of the five field writers through its local buffers. |
| `JsonWriter.JBuf.Element` | src/json.c:202-215 | An array element whole, or dropped without a sign. |
| `JsonWriter.JBuf.WriteObject` | src/json.c:32-71 | A written object that did not overflow is read back from the buffer, by the reader of section 4. |
| `JsonSizes.PiecesFit` | src/json.c:44-215 | With room for their budget, pieces are all written and no list element is dropped. |
| `JsonSizes.GroupsWidth` | src/json.c:217-330 | At most 17 value fields, each within its key plus 15 bytes. |
| `JsonSizes.LoadShown` | src/config.c:834-844 | What a chart or card list means, for every configuration, and when it fails the load. |
| `Dashboard.StrCopy` | src/config.c:62-83 | A value that does not fit is an error and leaves the default. |
| `Dashboard.UnitCopy` | src/config.c:154-173 | A value that is not allowed leaves the default. |
| `Dashboard.UnitsAre` | src/config.c:364-378 | The allowed values and the default of each of the fourteen units. |
| `Dashboard.LoadUnits` | src/config.c:528-560 | Each of the fourteen units is the configured one if allowed, else its default, and a short plain word. |
| `Dashboard.LoadTabs` | src/config.c:621-677 | The tabs of a configuration whose ranges are not refused, each fitting its field. |
| `Dashboard.LoadSettings` | src/config.c:507-606 | The load is refused exactly for the ranges, a title of 128 bytes or more or a listed name too long; else every field is the one given, if allowed, or its default, and short enough for the current document. |
| `JsonSizes.CurrentFits` | src/json.c:217-427 | The current document fits 4096 bytes for every configuration that loads and every row; nothing is dropped. |
| `JsonSizes.PointFits` | src/json.c:485-580 | Each point fits 512 bytes. |
| `Documents.DocumentReads` | src/json.c:65-71 | A document that fits is read back: every member it was made of, in order. |
| `Documents.CurrentReads` | src/json.c:217-427 | So is the current document, for every configuration that loads and every row. |
| `Documents.PointReads` | src/json.c:485-580 | And every point. |
| `Documents.PointMeans` | src/json.c:485-580 | A point stands for, in order: the time; of each chart shown, each key with its number, null when the group is not valid or the number not finite, and no total in percent; the uptime. |
| `Documents.CurrentMeans` | src/json.c:217-427 | The current document the same for each card shown, then the fourteen units, the texts, the lists and the thresholds of the cards shown. |
| `Documents.SerializeCurrent` | src/json.c:217-427 | Written through its 4096 bytes, the current document does not overflow, and a reader of the buffer gets exactly those members. |
| `Documents.SerializePoint` | src/json.c:485-580 | So does a point, through 512 bytes. |
| `Documents.PrintedIsNumber` | src/json.c:161-180 | What printf makes of a finite number, with a sign, a fraction and an exponent or without, is a number by section 6. |
| `Documents.UnitsRead` | src/json.c:437-483 | The units are read back: each shown with its symbol and what to multiply and divide by. |
| `Documents.UnitsShownAre` | src/json.c:437-483 | Each unit shown, number by number: its name, symbols, multiplier and divisors. |
| `Documents.SerializeUnits` | src/json.c:450-483 | And through the buffer of 256 bytes. |
| `JsonSizes.ScanPeaks` | src/json.c:450-464 | The loop finds the largest value of each unit, among valid values only. |
| `JsonSizes.UnitStep` | src/units.c:45-53 | The first rung of at most four digits, or the last. |
| `JsonSizes.ChooseRungs` | src/json.c:437-483 | Each unit's rung comes from its largest value over all rows, up to 9999 of it, and what is written fits. |
| `JsonSizes.UnitsFit` | src/json.h:46-47 | The units take at most 244 of 255 bytes for every configuration and magnitude. |
| `JsonSizes.UnitsFitIsTight` | src/json.h:46-47 | And 244 are needed. |
| `SseSlots.Reserve` | src/http.c:375-379 | The greater of two workers and a sixteenth of the dashboards rounded down. |
| `SseSlots.WorkerMoves` | src/http.c:384-392 | A step of a worker changes the counter with the slot it takes or gives back, and takes one only from the value it tested. |
| `SseSlots.NextKeepsCount` | src/http.c:384-392 | Every step of every worker, spurious failures included, keeps the counter at the number of open streams and within the limit. |
| `SseSlots.ReserveIsFree` | src/http.c:478-484 | In every run the reserve, at least two, holds no stream. |
| `SseSlots.RefusalsAreJustified` | src/http.c:384-388 | Every refusal has an instant since its request when all slots were taken. |
| `SseSlots.SlotsComeBack` | src/http.c:455-459 | Once no worker holds a stream the counter is 0. |
| `SseSlots.AloneGetsSlot` | src/http.c:384-392 | With a slot free a worker left alone takes it. |
| `KeyHints.LevIsLowerBound` | src/config.c:248-272 | No script of edits between two keys is cheaper than the recurrence says. |
| `KeyHints.LevIsAttained` | src/config.c:248-272 | And some script costs exactly that. |
| `KeyHints.ZeroDistance` | src/config.c:286-300 | Only a key itself is at distance 0. |
| `KeyHints.KeyDistance` | src/config.c:249-272 | The one-row loop computes it for every key and every known name shorter than 64 bytes. |
| `KeyHints.NextRow` | src/config.c:257-270 | The inner loop turns one row of the table into the next in place. |
| `KeyHints.Hint` | src/config.c:286-296 | The first known name at the least distance, if that is at most 2. |
| `KeyHints.WarnUnknown` | src/config.c:276-302 | One warning per unknown key, in order, each with its hint. |

## Left out

- SQLite, civetweb, BearSSL and tomlc17: a statement is its effect on the rows, a TOML value a datatype.
- Building the SQL text and its 8192-byte buffer; the statements themselves are modelled.
- Sockets, DNS, TLS, certificate loading and webhook replies: a delivery succeeds or fails.
- Reading /proc, /sys and statvfs: counters and readings are inputs, in the units the sample stores.
- Floating-point rounding: averages, rates and shares are reals. printf of a number is a token with a length bound.
- Retries of busy statements, EINTR and failures of poll.
- Timestamps before 1970, after 9999 or malformed; interval changes across restarts, except for conservation.
- The data conversions inside the migration scripts, and their schema checks beyond passing or failing.
- Symlinks, file modes and fsync; files SQLite itself creates beside a database while a script runs.
- Configuration keys the current document does not show; the percentages and used amounts read_row derives, and unit conversions: the text of each value sent is an input; the info command.
- Insignificant whitespace in the JSON reader, and the frame around the points and units of a metrics answer.
- The dashboard, the development server and the build tooling: easy or outside the store.
- Migrate.Host.Snapshot: after a failure it says nothing of the sidecars of an earlier copy, because the code may have removed them before the rename failed.
- Migrate.Host.Migrate: the message printed after a failed step is not modelled; only the files and the exit code are.
- Pipes.DrainsBoth: a child that never stops writing, or closes one stream early, is not modelled.
- Collector.SharesAddUpMoved: movements of 2^62 ticks or more are covered only by the condition on the wrapped ticks in SharesAddUpIff.
- Means.PassKeepsMeans: one direction; which tables keep their means through several tiers at once is stated exactly only for one finer tier, in FoldsAgreeIff.
- RowBound.DefaultBound: an upper bound; how many rows a run can reach is not stated.
- Requests.HandleMetrics: counts and queries one table at one instant; the program reads the clock for each statement, and the collector may write between them.
- Daemon.Loop: the metric values an evaluation reads are inputs, not taken from the row just stored.
- JsonWriter.JBuf.Element: outside the round trip, because it drops an element without setting overflow.

# pingpong: a verified model of the analysis pipeline and the echo services

The pingpong system measures how fast HTTP messages travel between two
containers. A *pong* service answers `/pong/<n>` with a body of `n`
characters, `"p"`, then `o`s, then `"ng"`. A *ping* service answers
`/ping/<n>` and `/mping/<n>` by calling the pong service. `/ping` relays the
body of the pong answer (Ruby calls once; Java and Go retry up to 100 times).
`/mping` retries up to 100 times and reports the size, status and number of
retries of the answer it settled on. Both services exist in Ruby, Java and Go. The `ppbench`
tool loads the benchmark logs and then does the following:

- it filters the records;
- it groups them by experiment and then by machine;
- it finds the largest value of a field;
- it splits each series into fixed-width message-size buckets, with
  percentile bands or ratios against a reference series;
- it chooses the series, the legend entries and the symbols of the R plots
  it writes.

This project models that core in Dafny and proves its properties:

| file | module | models |
|---|---|---|
| `wrappers.dfy` | `Wrappers` | `Option` |
| `measurements.dfy` | `Measurements` | a log record (`Entry`), the plotted field, Ruby's `select` |
| `ppbench_naming.dfy` | `PpbenchNaming` | `Ppbench.machine`, `Ppbench.experiment` |
| `ppbench_filter.dfy` | `PpbenchFilter` | `Ppbench.filter` |
| `ppbench_aggregate.dfy` | `PpbenchAggregate` | `Ppbench.aggregate` (two-level `group_by`, Ruby hashes keep insertion order) |
| `ppbench_maximum.dfy` | `PpbenchMaximum` | `Ppbench.maximum` (nested loops) |
| `ppbench_buckets.dfy` | `PpbenchBuckets` | the bucketing of `bands` and `add_comparisonplot`, the abort on an empty bucket, the confidence levels |
| `ppbench_plotter.dfy` | `PpbenchPlotter` | `plotter`, `comparison_plotter`, `add_series` without the R text |
| `pingpong_http.dfy` | `PingpongHttp` | status codes, the retry bound, one call's outcome, the pong body shape |
| `decimal.dfy` | `Decimal` | decimal digit strings |
| `ruby_pong.dfy` | `RubyPong` | `pong_service` (`pong.rb`, `start.rb`), `String#sub`, the bad-request answer |
| `ruby_ping.dfy` | `RubyPing` | `ping_service`, `mping_service` and its retry loop |
| `java_pong.dfy` | `JavaPong` | the `/pong` handler, `String.split("/")`, `Integer.parseInt` |
| `java_ping.dfy` | `JavaPing` | `get`, the `/ping` and `/mping` handlers |
| `go_pong.dfy` | `GoPong` | `pongHandler` and its loop, `strconv.Atoi` on the route's digits |
| `go_ping.dfy` | `GoPing` | `get`, `pingHandler`, `mpingHandler` |
| `pong_agreement.dfy` | `PongAgreement` | how the three pong bodies compare |

Calls to the pong service are parameters, not I/O. `attempts(i)` is the
outcome of the i-th call: an exception or an answer. `calls(n)(i)` is the
same outcome for the request length `n`. Ruby's `Integer(...)` is also a
parameter, of type `string -> Parsed`. The naming overlay is passed
explicitly instead of being held in the module variable `@naming`. Ruby
integer division floors, so it is written out as `FloorDiv`. Java
`String.length()` counts UTF-16 units and `getBytes("UTF-8").length` counts
UTF-8 bytes; both are written out.

Two behaviours of the code are worth stating outright:

- `filter` has a default `maxsize` of `2 ** 64` (`DefaultMaxsize`), not an
  unbounded one. The size test applies even when the machine and experiment
  lists are empty (`FilterUnrestricted`, `FilterDefaultBound`).
- `add_comparisonplot` does not skip buckets that are missing from one
  series. An empty bucket in either series aborts the run with the
  precision hint (`ComparisonOutcome`), so every bucket bound of the
  reference is present in the compared series.

## Model

| member | source | states |
|---|---|---|
| Measurements.Select | ppbench/lib/ppbench.rb:188-192 | `select` returns only elements of its input that satisfy the block, and never more elements than the input has |
| Measurements.SelectCount | ppbench/lib/ppbench.rb:188-192 | `select` keeps each satisfying element as often as it occurs and drops every other element |
| Measurements.SelectAppend | ppbench/lib/ppbench.rb:188-192 | `select` keeps the order: selecting from a concatenation concatenates the selections |
| PpbenchNaming.Lookup | ppbench/lib/ppbench.rb:17-29 | the mapped display name when the overlay has the section and the key; otherwise the key itself (empty overlay, missing section, unmapped key) |
| PpbenchNaming.Machine | ppbench/lib/ppbench.rb:17-22 | a machine tag is renamed only through the "machines" section; without a mapping it stays as it is |
| PpbenchNaming.Experiment | ppbench/lib/ppbench.rb:24-29 | an experiment tag is renamed only through the "experiments" section; without a mapping it stays as it is |
| PpbenchFilter.Filter | ppbench/lib/ppbench.rb:187-193 | every record returned comes from the input and passes all five conditions, and there are no more records than in the input |
| PpbenchFilter.FilterIsKept | ppbench/lib/ppbench.rb:187-193 | the five chained `select`s equal one pass that keeps the records satisfying the conjunction |
| PpbenchFilter.FilterCount | ppbench/lib/ppbench.rb:187-193 | a record is returned as often as it occurs in the input if it passes the conditions, and otherwise never |
| PpbenchFilter.FilterAppend | ppbench/lib/ppbench.rb:187-193 | filtering keeps record order: a concatenation is filtered part by part |
| PpbenchFilter.FilterIdempotent | ppbench/lib/ppbench.rb:187-193 | filtering a filtered dataset again changes nothing |
| PpbenchFilter.KeptCount | ppbench/lib/ppbench.rb:187-193 | the one-pass reference filter keeps a record as often as it occurs exactly when it passes the conditions |
| PpbenchFilter.KeptIdempotent | ppbench/lib/ppbench.rb:187-193 | the one-pass reference filter changes nothing on its own output |
| PpbenchFilter.FilterUnrestricted | ppbench/lib/ppbench.rb:190-192 | empty machine and experiment lists restrict nothing; only latency, failures and size decide |
| PpbenchFilter.FilterDefaultBound | ppbench/lib/ppbench.rb:187-190 | with the default `maxsize` of `2 ** 64`, a longer record is dropped |
| PpbenchAggregate.Find | ppbench/lib/ppbench.rb:204-214 | a hash lookup finds a value exactly when some entry has the key, and returns that entry's value |
| PpbenchAggregate.GroupBy | ppbench/lib/ppbench.rb:205 | `group_by`; its meaning is stated by `KeysSpec`, `GroupByCorrect`, `GroupByPartition` and `FindGroupBy` |
| PpbenchAggregate.Aggregate | ppbench/lib/ppbench.rb:204-214 | `aggregate`; its meaning is stated by `AggregateShape`, `AggregatePartition`, `AggregateLookup` and `FindAggregate` |
| PpbenchAggregate.KeysSpec | ppbench/lib/ppbench.rb:205 | the group keys are distinct and are exactly the keys of the records |
| PpbenchAggregate.GroupByCorrect | ppbench/lib/ppbench.rb:205 | `group_by` yields the distinct keys in first-occurrence order; the group of each key holds exactly the records with that key, in input order |
| PpbenchAggregate.CellExists | ppbench/lib/ppbench.rb:204-214 | some record of experiment `exp` has machine `machine` exactly when some record of the data has both tags |
| PpbenchAggregate.GroupByPartition | ppbench/lib/ppbench.rb:205 | `group_by` puts every record into exactly one group |
| PpbenchAggregate.AggregatePartition | ppbench/lib/ppbench.rb:204-214 | every record appears in the two-level aggregate exactly as often as in the data |
| PpbenchAggregate.AggregateShape | ppbench/lib/ppbench.rb:204-214 | the experiment keys are the distinct experiment tags in first-occurrence order; the machine keys under each are that experiment's distinct machine tags; each cell holds exactly its records, in order |
| PpbenchAggregate.FindGroupBy | ppbench/lib/ppbench.rb:205 | looking up a key in a `group_by` result finds exactly the records with that key, and finds nothing for a key no record has |
| PpbenchAggregate.FindAggregate | ppbench/lib/ppbench.rb:204-214 | looking up an experiment in the aggregate gives the machine grouping of that experiment's records |
| PpbenchAggregate.AggregateLookup | ppbench/lib/ppbench.rb:204-214 | `data[exp]` exists exactly when some record has experiment `exp`; `data[exp][machine]` exists exactly when some record has both tags, and then holds exactly those records |
| PpbenchAggregate.AggregateGroupsNonEmpty | ppbench/lib/ppbench.rb:204-214 | no cell of the aggregate is empty |
| PpbenchAggregate.AggregateContains | ppbench/lib/ppbench.rb:204-214 | every record is found under its own experiment and machine |
| PpbenchMaximum.MaxBy | ppbench/lib/ppbench.rb:221 | `max_by` returns a member of the group whose field is at least that of every member |
| PpbenchMaximum.Maximum | ppbench/lib/ppbench.rb:217-227 | the loop's result is at least 0 and at least every field value in every group, and it is 0 or one of those values |
| PpbenchMaximum.AggregateNonEmpty | ppbench/lib/ppbench.rb:204-221 | the aggregate meets the precondition of `max_by`: no group is empty |
| PpbenchMaximum.MaximumBoundsRecords | ppbench/lib/ppbench.rb:217-227 | the maximum of an aggregated dataset bounds the field of every record of the dataset |
| PpbenchMaximum.MaximumAttained | ppbench/lib/ppbench.rb:217-227 | a non-zero maximum is the field value of some record |
| PpbenchBuckets.FloorDiv | ppbench/lib/ppbench.rb:368 | Ruby's `length / n` rounds toward negative infinity, whatever the signs |
| PpbenchBuckets.Points | ppbench/lib/ppbench.rb:369 | one point per record, holding the record's length and plotted field |
| PpbenchBuckets.Ys | ppbench/lib/ppbench.rb:373 | `map { \|p\| p[1] }` keeps the values of the points in order |
| PpbenchBuckets.FirstEmpty | ppbench/lib/ppbench.rb:382-387 | finds the first empty bucket: every earlier bucket is non-empty; with no result, no bucket is empty |
| PpbenchBuckets.Bucketed | ppbench/lib/ppbench.rb:368-387 | when the run does not abort there is one bucket per unit of precision |
| PpbenchBuckets.Bands | ppbench/lib/ppbench.rb:366-396 | `bands` less the R text; its meaning is stated by `BandsAbort`, `BucketContents` and `BucketBounds` |
| PpbenchBuckets.ConfidenceLevels | ppbench/lib/ppbench.rb:377-380 | the lower level is half of `100 - confidence`, rounded down; the upper levels mirror the lower ones around 50; for a confidence in 0..100 the levels are ordered |
| PpbenchBuckets.DefaultLevels | ppbench/lib/ppbench.rb:366-380 | the default confidence of 90 asks for the 5th, 27th, 73rd and 95th percentiles |
| PpbenchBuckets.BucketBounds | ppbench/lib/ppbench.rb:372 | bucket `i` is labelled `i * step`, and the labels increase when the step is positive |
| PpbenchBuckets.BucketContents | ppbench/lib/ppbench.rb:373 | bucket `i` holds exactly the points with `(i - 1) * step <= x < i * step`, with their multiplicity |
| PpbenchBuckets.BucketsDisjoint | ppbench/lib/ppbench.rb:373 | no message size falls into two buckets |
| PpbenchBuckets.BucketOf | ppbench/lib/ppbench.rb:373 | a size in `[0, n * step)` lands in bucket `x / step + 1`; any other size lands in no bucket |
| PpbenchBuckets.BandsAbort | ppbench/lib/ppbench.rb:366-396 | `bands` aborts exactly on a zero precision or an empty bucket, naming the first empty bucket's bound; otherwise it has every bucket, all non-empty, and the four levels |
| PpbenchBuckets.ValuesByBound | ppbench/lib/ppbench.rb:303-331 | the `ref_values`/`serie_values` hash has an entry for every bucket bound |
| PpbenchBuckets.ValuesByBoundAt | ppbench/lib/ppbench.rb:318-331 | with increasing bounds, the hash maps each bound to its bucket's values |
| PpbenchBuckets.AlignedBuckets | ppbench/lib/ppbench.rb:301-331 | when neither series aborts, both have the same strictly increasing bounds, and the comparison is the ratio of bucket `k` to bucket `k` |
| PpbenchBuckets.ComparisonLine | ppbench/lib/ppbench.rb:291-340 | `add_comparisonplot` computes the reference comparison: the first abort, or the line of ratios |
| PpbenchBuckets.RatioLine | ppbench/lib/ppbench.rb:333-340 | the `ref_values.each` loop pushes exactly one ratio per reference bucket, in bucket order |
| PpbenchBuckets.OrderedBounds | ppbench/lib/ppbench.rb:370-387 | with no empty bucket the step is positive, so the bucket bounds strictly increase |
| PpbenchBuckets.SelfComparison | ppbench/lib/ppbench.rb:291-340 | a series compared with itself pairs every bucket's values with themselves |
| PpbenchBuckets.ComparisonOutcome | ppbench/lib/ppbench.rb:291-340 | the comparison succeeds exactly when neither series aborts; it then has one ratio per bucket, at bound `(k + 1) * step`, with non-empty value lists on both sides |
| PpbenchBuckets.Comparison | ppbench/lib/ppbench.rb:291-348 | `add_comparisonplot` less the R text; its meaning is stated by `ComparisonOutcome`, `AlignedBuckets` and `SelfComparison`, and `ComparisonLine` computes it |
| PpbenchPlotter.Row | ppbench/lib/ppbench.rb:460 | the inner loop visits `(exp, machine)` for every machine, in order |
| PpbenchPlotter.PairsAt | ppbench/lib/ppbench.rb:459-460 | the nested loops visit pairs experiment-major: `(experiments[i], machines[j])` comes at position `i * \|machines\| + j`, so every pair is visited once |
| PpbenchPlotter.SelectedSeries | ppbench/lib/ppbench.rb:459-466 | one series per present pair visited |
| PpbenchPlotter.SeriesLabels | ppbench/lib/ppbench.rb:514-524 | the legend written by the selection loop has one entry per series drawn |
| PpbenchPlotter.ReferenceLabels | ppbench/lib/ppbench.rb:514-531 | the legend of a comparison plot marks the first series drawn, the reference, with `Reference: `, and leaves every other entry plain |
| PpbenchPlotter.SelectSeries | ppbench/lib/ppbench.rb:514-524 | the selection loops choose exactly the present pairs in visiting order, with their series and the legend entries the loop writes |
| PpbenchPlotter.SelectRow | ppbench/lib/ppbench.rb:516-523 | the inner loop over machines extends the selection by the present pairs of one experiment, and the `ref` flag is consumed by the first pair it visits |
| PpbenchPlotter.SelectPair | ppbench/lib/ppbench.rb:517-522 | one pass of the inner loop takes the visited pair exactly when the data has it, appending its series and its legend entry with the prefix handed to it |
| PpbenchPlotter.FirstLabel | ppbench/lib/ppbench.rb:514-524 | the first present pair found is the first pair visited exactly when that pair is present |
| PpbenchPlotter.AddSeries | ppbench/lib/ppbench.rb:272-288 | `add_series` aborts exactly when bands are asked for and they abort; otherwise it draws the points unless `no_points`, one per record, and the band if `with_bands` |
| PpbenchPlotter.Plotter | ppbench/lib/ppbench.rb:459-476 | one curve per selected series, labelled without prefix, with symbols counted from 1; an abort is the abort of the first selected series whose band aborts, every earlier one drawn |
| PpbenchPlotter.ComparisonPlotter | ppbench/lib/ppbench.rb:514-536 | every selected series is compared with the first; the legend is the selection loop's, with the `Reference: ` prefix on the first pair iterated; an abort is that of the first comparison that aborts |
| PpbenchPlotter.CompareAll | ppbench/lib/ppbench.rb:531-536 | the drawing loop produces the comparison of every series with the first, or the abort of the first comparison that aborts, every earlier one succeeding |
| PpbenchPlotter.LabelsAgree | ppbench/lib/ppbench.rb:514-524 | the loop's legend equals the reference legend whenever the first pair visited is present or nothing is drawn |
| PpbenchPlotter.ReferenceLabelLost | ppbench/lib/ppbench.rb:517-518 | with experiment `a`, machines `m1` and `m2`, and data only for `a` on `m2`, the loop's legend loses the `Reference: ` prefix that belongs to the only series |
| PingpongHttp.First | pingpong-ruby/bin/start.rb:35-43 | finds the first of the first `n` calls that satisfies a test: every earlier call fails it; with no result, every call fails it |
| PingpongHttp.PongShape | pingpong-ruby/bin/pong.rb:17 | a pong body with `k` `o`s is `p`, `o`s, `ng`, with `k + 3` characters |
| PingpongHttp.PongOfShape | pingpong-ruby/bin/pong.rb:17 | a pong body is determined by its length |
| RubyPong.SubAbsent | pingpong-ruby/bin/pong.rb:16 | `sub` changes nothing when the pattern does not occur |
| RubyPong.SubFirst | pingpong-ruby/bin/pong.rb:16 | `sub` removes exactly the first occurrence of the pattern and keeps what is around it |
| RubyPong.SubPrefix | pingpong-ruby/bin/pong.rb:16 | a path starting with the route loses exactly the route |
| RubyPong.PongBodyLength | pingpong-ruby/bin/pong.rb:16-17 | the body has the requested length from 3 on, and is `"pong"` below 3 |
| RubyPong.PongServiceAnswers | pingpong-ruby/bin/pong.rb:14-22 | a pong answer is either 200 with a pong body or 503 starting with the path |
| RubyPong.PongService | pingpong-ruby/bin/pong.rb:14-22 | the pong service; its answers are stated by `PongServiceAnswers` and `PongServiceLength` |
| RubyPong.PongServiceLength | pingpong-ruby/bin/start.rb:63-71 | `/pong/<s>` with `s` read as `n >= 3` gets 200 and `n` characters |
| RubyPing.PingService | pingpong-ruby/bin/start.rb:17-26 | status 200 exactly when the length parses and the call answers, and the body is then the pong body, whatever the pong status; otherwise 503 starting with the path |
| RubyPing.PingRubyPong | pingpong-ruby/bin/start.rb:17-26 | with an answering Ruby pong service, `/ping/<s>` with `s` read as `n >= 3` gets 200 and `n` characters |
| RubyPing.LastAnswer | pingpong-ruby/bin/start.rb:36-42 | `answer` is an answered call from among the calls made, and is `nil` exactly when every call raised |
| RubyPing.LastAnswerIsLast | pingpong-ruby/bin/start.rb:36-42 | `answer` is the last call that did not raise: every call after it raised |
| RubyPing.MpingReportMeaning | pingpong-ruby/bin/start.rb:35-54 | the report says 200 exactly when fewer than 100 calls failed, and then the call after the failures succeeded with the reported size; after 100 raising calls it reports length 0 and status 503 |
| RubyPing.MpingReport | pingpong-ruby/bin/start.rb:28-61 | the report of `mping_service`; stated by `MpingReportMeaning`, and `Retry` computes it |
| RubyPing.Retry | pingpong-ruby/bin/start.rb:31-43 | the retry loop computes the report of the first success, or of the last answer after 100 failures |
| RubyPing.MpingService | pingpong-ruby/bin/start.rb:28-61 | an unreadable length gets the bad-request answer; otherwise the retry loop's report for the calls with that length |
| JavaPong.Fields | pingpong-java/src/Pong.java:21 | at least one piece, none containing the separator |
| JavaPong.JoinFields | pingpong-java/src/Pong.java:21 | splitting loses nothing: the pieces joined with the separator give back the path |
| JavaPong.DropTrailingEmpty | pingpong-java/src/Pong.java:21 | `split` drops exactly the trailing empty pieces |
| JavaPong.Split | pingpong-java/src/Pong.java:21 | `String.split`; its pieces are stated by `Fields`, `JoinFields`, `DropTrailingEmpty` and `SplitRoute` |
| JavaPong.SplitRoute | pingpong-java/src/Pong.java:21 | `/<name>/<rest>` splits into `""`, the name and the rest |
| JavaPong.ParseInt | pingpong-java/src/Pong.java:22 | `parseInt` accepts only a sign or a digit first, and only values in the `int` range |
| JavaPong.ParseIntDigits | pingpong-java/src/Pong.java:22 | `parseInt` reads back the decimal digits of every `int` |
| JavaPong.PongBodyLength | pingpong-java/src/Pong.java:24-30 | the body has the requested length from 4 on, and is `"pong"` below 4 |
| JavaPong.PongHandler | pingpong-java/src/Pong.java:18-39 | the `/pong` handler; its answers are stated by `PongHandlerAnswers` and `PongHandlerNegative` |
| JavaPong.PongHandlerAnswers | pingpong-java/src/Pong.java:19-38 | `/pong/<n>` for a non-negative `int` gets 200 with the pong body, `n` characters from 4 on |
| JavaPong.PongHandlerNegative | pingpong-java/src/Pong.java:19-38 | `/pong/-<m>` for a negative `int` also gets 200, with the body `"pong"`, so every `int` is answered |
| JavaPing.Unlined | pingpong-java/src/Ping.java:47-49 | appending the lines `readLine` returns leaves no line terminator, and leaves a body without terminators unchanged |
| JavaPing.UnlinedKeeps | pingpong-java/src/Ping.java:47-49 | the appended lines are exactly the body's other characters, in order: the body with its `\n` and `\r` selected out |
| JavaPing.FetchMeaning | pingpong-java/src/Ping.java:39-63 | `get` counts at most 100 failures; it stops short of 100 exactly when some call went through, and then it returns that call's content; otherwise the content is `no connection possible` |
| JavaPing.Fetch | pingpong-java/src/Ping.java:39-63 | what `get` returns; stated by `FetchMeaning` and `FetchUnreachable`, and `Get` computes it |
| JavaPing.Get | pingpong-java/src/Ping.java:39-63 | the loop returns at the first call that goes through, with the number of failures before it, or gives up after 100 |
| JavaPing.Utf16Length | pingpong-java/src/Ping.java:83 | `String.length()` is between one and two units per character |
| JavaPing.Utf8Length | pingpong-java/src/Ping.java:108 | the UTF-8 size is between one and four bytes per character |
| JavaPing.EncodedLengths | pingpong-java/src/Ping.java:81-83 | UTF-8 never takes fewer units than UTF-16, and both equal the character count for ASCII |
| JavaPing.FetchUnreachable | pingpong-java/src/Ping.java:60-62 | when every call fails, `get` returns `no connection possible` with 100 retries |
| JavaPing.PingReplyAsWritten | pingpong-java/src/Ping.java:83 | the `/ping` status rule as written; stated by `PingReplyAsWrittenMeaning` and `NoConnectionAccepted` |
| JavaPing.MpingReportAsWritten | pingpong-java/src/Ping.java:105-111 | the `/mping` report as written; stated by `MpingReportAsWrittenMeaning` and `NoConnectionAccepted` |
| JavaPing.NoConnectionAccepted | pingpong-java/src/Ping.java:83 | that answer still gets 200 from `/ping` and a 200 report from `/mping` when 22 characters are requested |
| JavaPing.NoConnectionRefused | pingpong-java/src/Ping.java:83 | the corrected replies give 504 and 503 for that answer, whatever the length |
| JavaPing.PingReplyMeaning | pingpong-java/src/Ping.java:77-88 | corrected rule, not the code's: `/ping` gives 200 exactly when some call went through and its content has the requested length, and 504 otherwise, with the content as body |
| JavaPing.MpingReportMeaning | pingpong-java/src/Ping.java:102-121 | corrected rule, not the code's: `/mping` reports 200 exactly when some call went through and its content has the requested UTF-8 size, and 503 otherwise, with the retries of `get` |
| JavaPing.PingReplyAsWrittenMeaning | pingpong-java/src/Ping.java:77-88 | `/ping` as written gives 200 exactly when the content of `get` has the requested length, whether or not a call went through (once `get` has used up its retries, exactly for length 22), and 504 otherwise, with the content as body |
| JavaPing.MpingReportAsWrittenMeaning | pingpong-java/src/Ping.java:102-121 | `/mping` as written reports the content's UTF-8 size and 200 exactly when that size is the requested length, whether or not a call went through (once `get` has used up its retries, exactly for length 22), and 503 otherwise, with the retries of `get` |
| JavaPing.RepliesAgree | pingpong-java/src/Ping.java:83 | once a call went through, the corrected replies are those of the source |
| JavaPing.PingJavaPong | pingpong-java/src/Ping.java:77-121 | with a Java pong service answering the first call, `/ping/n` gets 200 with its `n` characters, and `/mping/n` reports `n`, 200 and 0 retries |
| JavaPing.PingHandler | pingpong-java/src/Ping.java:73-89 | no response exactly when the path has no third piece or it is no `int`; otherwise the as-written reply to `get` for that length |
| JavaPing.MpingHandler | pingpong-java/src/Ping.java:101-127 | no response exactly when the path has no third piece or it is no `int`; otherwise the as-written report on `get` for that length |
| GoPong.AtoiDigits | pingpong-go/src/pingpong/pong/Pong.go:14-17 | `Atoi` reads back the digits of every non-negative `int` and fails beyond the 64-bit range |
| GoPong.Atoi | pingpong-go/src/pingpong/pong/Pong.go:14-17 | `strconv.Atoi` on a digit string; stated by `AtoiDigits` |
| GoPong.GoBodyLength | pingpong-go/src/pingpong/pong/Pong.go:18-23 | the loop's body is a pong body with the requested length from 4 on, and `"pong"` below 4 |
| GoPong.GoBody | pingpong-go/src/pingpong/pong/Pong.go:18-23 | the body the loop builds; stated by `GoBodyLength` and `GoJavaAgree`, and `PongHandler` computes it |
| GoPong.PongHandler | pingpong-go/src/pingpong/pong/Pong.go:12-25 | the `for` loop builds `po`, then one `o` per round, then `ng`; an `Atoi` failure sends nothing |
| GoPing.PingHandler | pingpong-go/src/pingpong/ping/Ping.go:26-40 | 200 exactly when some of the 100 exchanges went through, with the body of the first one; otherwise 503 and `Service unavailable` |
| GoPing.Get | pingpong-go/src/pingpong/ping/Ping.go:16-24 | `get`: content, code and error of one exchange; the handlers' contracts state what is done with it |
| GoPing.MpingHandler | pingpong-go/src/pingpong/ping/Ping.go:42-61 | the size, status and index of the first exchange that went through; otherwise length 0, 503 and 100 retries |
| GoPing.MpingMeaning | pingpong-go/src/pingpong/ping/Ping.go:42-61 | fewer than 100 retries exactly when some exchange went through; the reported one is the first, and its size is the length |
| PongAgreement.RubyJavaAgree | pingpong-ruby/bin/pong.rb:16-17 | the Ruby and Java pong bodies agree for every length but 3, where Ruby sends `png` and Java `pong` |
| PongAgreement.GoJavaAgree | pingpong-go/src/pingpong/pong/Pong.go:18-23 | the Go and Java pong bodies agree for every length |

## Left out

- RubyPong.PongServiceLength: promises 200 and `n` characters for every `n >= 3`. In Ruby, `'o' * (n - 3)` raises `ArgumentError`/`RangeError` once the result is too large for memory or `n - 3` exceeds a C `long`, and the `rescue` then answers 503; that limit is not modelled.
- The benchmark driver `run_bench` (HTTP load generation with `ab`, threads and progress bars), `load_data` (CSV parsing) and the command-line front end. This model starts from loaded records.
- The R script text that `plotter`, `comparison_plotter`, `prepare_plot`, `prepare_comparisonplot`, `points` and `bands` emit: axes, legends, splines and polygons. The model keeps what the text is built from: series, labels, symbols, points, buckets and levels.
- Colours: `series_colors = R_COLORS` aliases the constant, and `shift` empties it across calls. The model does not track colours.
- PpbenchBuckets.Ratios: keeps each bucket's two value lists instead of dividing their medians, because medians and percentiles come from the `descriptive_statistics` gem, which is not part of this model. `Band` keeps the values behind the percentiles for the same reason.
- The precision hint's text and `exit!`: an empty bucket becomes `NotEnoughData(bound)`, and `length / 0` becomes `ZeroPrecision`.
- Floating point: the plotted fields are `real`, so rounding is not modelled.
- Durations and timestamps in `/mping`, and the JSON text of the reports: a report keeps the length, status and retries.
- HTTP servers, routing, threads and port handling (`main`, `Start`, `command :start`): handlers are modelled from the request path (or the captured route segment) to the answer.
- RubyPong.Parsed: Ruby's `Integer()` grammar (signs, underscores, radix prefixes, blanks) is a parameter, not a definition.
- RubyPing.PingService: the request URL built from the length is not modelled; the call's outcome is a parameter indexed by the length.
- JavaPong.ParseInt: accepts ASCII digits only. Java's `Character.digit` also accepts other Unicode decimal digits.
- JavaPing.Unlined: treats the response as characters. The byte decoding by `InputStreamReader` with the default charset is not modelled.
- JavaPing.Delivered: treats an answer with status 400 or above as an exception (`URL.openStream` raises) and every other answer as content. Redirects are not modelled.
- JavaPing.PingHandler: an exception inside the handler becomes "no response". What `HttpServer` then does with the connection is not modelled.
- GoPong.PongHandler: a panic becomes "no response". What `net/http` then does with the connection is not modelled.
- GoPing.PingHandler: the body is the message as written. `fmt.Fprintf(w, message)` treats `%` in the message as a formatting verb, which is not modelled; pong bodies contain no `%`.

## Findings

| source | as written | input that shows it | evidently intended | confidence | as-written member | corrected member |
|---|---|---|---|---|---|---|
| ppbench/lib/ppbench.rb:517-518 | the `Reference: ` prefix goes to the first pair the loops visit, whether or not it has data, while the reference series is the first pair that does | experiments `["a"]`, machines `["m1", "m2"]`, data only for `a` on `m2`: the legend is `'a on m2'` although that series is the reference | the legend marks the series actually used as the reference | medium, not executed | PpbenchPlotter.ReferenceLabelLost | PpbenchPlotter.ReferenceLabels |
| pingpong-java/src/Ping.java:83 | `/ping` compares the length of whatever `get` returned, including the text `no connection possible` that `get` returns after 100 failed calls | `/ping/22` with the pong service unreachable: 22 is the length of `no connection possible`, so the answer is 200 | a reply after all calls failed is an error (504) | high, not executed | JavaPing.NoConnectionAccepted | JavaPing.PingReplyMeaning |
| pingpong-java/src/Ping.java:111 | `/mping` compares the UTF-8 size of that same text | `/mping/22` with the pong service unreachable: the answer is 200, with length 22 and 100 retries | a report after all calls failed is an error (503) | high, not executed | JavaPing.NoConnectionAccepted | JavaPing.MpingReportMeaning |

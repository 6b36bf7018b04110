# opentsp in Dafny

opentsp moves data points from plugins and hosts to a time series database. On the way a point is decoded, checked
for order, filtered and relabelled, stripped of repeats, queued, sent over a pool of connections and acknowledged.
This project models the parts of that path whose correctness does not show in any single function, and proves what
the program relies on. `dafny verify dfyconfig.toml` checks everything.

What is modelled, in the order in which the files build on each other:

- **Text.** `Bytes`, `Collections`, `Points`, `Decimal`, `TagBlocks`, `EventTags`, `Codec`: the point, the digit loops
  with Go's 64-bit wrap-around, the tag block that is searched and rewritten in place, the line printer and parser.
  `RoundTrip` says exactly when printer and parser undo each other, `TimeText` and `LineText` what any line denotes.
- **The wire.** `Commands`, `Wire`, `EndToEnd`: put and version commands, the reader that un-frames them into buffers
  of any size, the decoder behind it, and the end-to-end statement over any interleaving of commands. `Order` is the
  decoder's order check with its bounded memory, `OrderRun` a run in which that lets a series go back in time.
- **Repeats.** `Interpolation`, `RepeatSeries`, `Repeat`, `RepeatRun`: the suppressor's state machine for one series
  against the piecewise-linear function that a stream draws, whole runs over many interleaved series with cleanup, and
  a run of a hundred thousand points in which a line breaks (`Filler` fills such runs up). `RepeatExact` says exactly
  which points are sent.
- **The client.** `Client`, `PoolLaws`, `PoolAcks`, `ClientPut`, `Delivery`, `Transit`, `Drops`: the queue, the sender,
  connections, acknowledgement batches, drops and redials as a protocol of atomic steps; its invariant and what follows
  over every run; what of a connection's commands is acknowledged, pending or dropped; how runs of Put, behind the order
  check and the suppressor, fill its log; what the aggregator decodes at the other end of each connection; and what the
  drop hooks count and log.
- **Filters.** `FilterRules` is the meaning of rules as a pure fold, `FilterEngine` the interpreter with its shared
  scratch arrays, proved equal to the fold; `FilterMeaning` says of the expressions one by one what the fold does to a
  point, `FilterCrash` when it takes the program down; `FilterValidation` says which rules are accepted and what that
  buys; `ForwarderView` is the controller's rule list that guarantees host and cluster tags.
- **Plugins.** `Directory`, `Processes`, `Plugins`, `PluginLife`, `ProcessLimit`, `PoolKill`: snapshots to events, one
  process with its reaper and killers, one state machine per directory entry, the pool that drives them, what starts and
  restarts plugins, how many processes may be running, and what Kill reaps.
- **Configuration.** `Hosts`, `HostPaths`, `QueryGroups`: flattening the host tree with a shared tag stack, what the
  result looks like, and when a query group is accepted.
- **Statistics and time.** `HostTag`, `StatseStore`, `Percentiles`, `Snapshot`: finding the host, bounded accumulation,
  order statistics, and the aggregation of hosts into clusters. `Ticker`: the hand-off loop of the aligned ticker.

Where the source mutates objects the model has classes whose methods are proved against specification functions on
values; the laws are lemmas about those functions. Goroutines are modelled as atomic steps that can come in any order.
Clocks, network and process outcomes, random numbers and map iteration order are parameters or arbitrary choices.

## What the code does differently from what it says

These are statements that fail of the code as it is, each with an input that shows it and with the condition under
which it holds.

- The suppressor promises correct line segments (`internal/tsdb/repeat.go:35-37`). When cleanup forgets a series that
  holds a point back, and the next point changes the value, a slope is drawn that never was: `CleanupBreaksTheLine` is
  a run on whole seconds in which that happens. A series is drawn faithfully if and only if it never happens
  (`RunFaithfulIff`), and it never does while points keep coming within two minutes of the clock
  (`FreshSeriesIsFaithful`).
- The order check is said to leave the decoded points totally ordered in time (`internal/tsdb/decoder.go:94-95`). It
  forgets a series that is fifteen minutes behind the clock, and then accepts an older point of it:
  `CleanupBreaksTheOrder` is a run in which that happens. The accepted points of a series are in order if and only if it
  is never readmitted with a point at or before the last one (`AcceptedRisesIff`), and they are, forgotten or not, if
  the clock does not run backwards and the points are decoded within fifteen minutes of their time
  (`PunctualSeriesRises`).
- `Point.Tag` indexes out of range for the empty key on a point with tags (`internal/tsdb/tsdb.go:213`), and rule
  validation lets empty tag keys through: `AcceptedRuleCrashes` is an accepted rule that takes the program down.
  `RuleCrashIff` and `FilterCrashIff` say exactly when, `NamedKeysNeverCrash` what to check beforehand.
- Ten-digit times beyond the range of int64 nanoseconds are accepted and wrap (`internal/tsdb/codec.go:124-129`):
  `LateTimeIsLost`, `ReparseIff`. The least int64 prints as `-0` (`internal/tsdb/codec.go:81-93`): `IntRoundTrip`.
- `SeriesHash` slices out of range for a point without tags (`internal/tsdb/client.go:203-206`): `SeriesBytesIff`. The
  sender goes down at such a command and at no other: `HashableIffTagged`, `OnePutPanicsIff`, `HashableNeverPanics`.
- Both SetTags let repeated keys among their arguments through: `RepeatedKeysAreAccepted`. The result is well formed if
  and only if the new keys are distinct: `SetTagsWellFormedIff`, `EventSetWellFormedIff`.
- A command whose own Write fails is neither pending nor reported as dropped (`internal/tsdb/client_conn.go:122-129`):
  `FailingWriteLosesACommand` is a run that loses one, `LostOnePerFailure` says that this is the only way.
- The counter of dropped points counts line ends (`internal/relay/relay.go:117-122`), and a point that finds the queue
  full comes without one (`internal/tsdb/client.go:100-101`): it is not counted, and logging it slices out of range.
  `CounterMissesFullQueues` and `LoggingSurvivesIff` say exactly that of every run, `FullQueueIsMissed` is one.
- Rule validation checks references against the groups of the last Match expression, not of the one that captures
  (`internal/tsdb/filter/filter.go:292`). It is sound, and it refuses sound rules: `AcceptedMeans`, `SoundRuleRefused`.
- The pool is said to run at most 128 processes in parallel (`internal/collect/pool.go:15`, `:33`). It counts entries,
  and an entry that was removed is not counted while its process lives on: the bound is that of the entries plus the
  removed ones that are not dead yet (`WatchedPoolIsBounded`), and that has no limit (`NoLimit`).
- `Pool.Kill` says it returns after the last process is reaped (`internal/collect/pool.go:51-52`). It does not wait for
  entries that were removed before: `KillMissesRemoved`, `KillReapsIff`.
- The ticker overwrites the pending tick before it checks it (`internal/tsdb/ticker.go:75-92`): when a clock reads 5, 6
  and again 5 seconds, a consumer that is late for the second tick gets 5 twice, and 6 never. `FallingClock` is that
  run, `TicksInOrderIff` says which clocks are safe.
- The aggregator looks at the first hit of `host=` only (`cmd/collect-statse/aggregator/store.go:165-168`):
  `HiddenHostIsRefused`, `HostTagIff`. A host tag in front of others leaves the space behind it, and a trailing space
  stays, so that one set of tags makes three keys: `SameTagsOtherKeys`. What an event is stored under is the text of its
  other tags if and only if neither is the case (`LeftIsOthersIff`); `SameKeyIff` says when two events share a key.
- The average of equal numbers can be below all of them, since the float32 sum rounds: `AverageLeavesTheRange`. It lies
  between the smallest and the largest of n values whenever no multiple of these two up to the n-th is rounded
  (`AverageIsBetween`), for instance when they are integers of which the n-fold is within 2^24
  (`IntegerAverageIsBetween`).

## Model

| member | source | states |
|---|---|---|
| `Repeat.RepeatTester.Test` | internal/tsdb/repeat.go:38-85 | judges a point against the table after cleanup, returns the command of the held point if one must go first, and leaves the borrowed point as it was |
| `Repeat.RepeatTester.Update` | internal/tsdb/repeat.go:50-83 | the three cases of a known series (change, heartbeat, repeat) equal the pure verdict on status and point |
| `Repeat.RepeatTester.PutHeld` | internal/tsdb/repeat.go:56-62 | prints the held point through the borrowed one and restores it |
| `Repeat.RepeatTester.Cleanup` | internal/tsdb/repeat.go:87-99 | every 100000 calls forgets exactly the series whose status is at least twelve minutes old |
| `Interpolation.DrawIsLine` | internal/tsdb/repeat.go:35-37 | the drawn function is, between any two neighbouring samples, the line through them |
| `RepeatSeries.FaithfulIff` | internal/tsdb/repeat.go:38-85 | for every history of one series with increasing times: what is sent is a time-ordered selection of what was seen, the unsent tail is constant and equal to the last sent value, and both draw the same function if and only if no held-back run is forgotten just before its value changes |
| `RepeatSeries.AgreeSend` | internal/tsdb/repeat.go:53-67 | sending a point straight after the last sent one is right exactly when nothing was held back or the held run has the same value |
| `RepeatSeries.AgreeHeld` | internal/tsdb/repeat.go:56-62 | sending the held point keeps the drawn function |
| `RepeatSeries.ForgettingBreaksTheLine` | internal/tsdb/repeat.go:87-99 | for any times and values: three equal points, the series forgotten, another value, and what was sent draws a different function |
| `RepeatRun.RunFaithfulIff` | internal/tsdb/repeat.go:38-99 | over every interleaved run, a series with increasing times is drawn by what was sent exactly as by what was put, if and only if cleanup never forgets it with a point held back just before its value changes |
| `RepeatExact.SentExactly` | internal/tsdb/repeat.go:38-99 | for every history of a series with increasing times, evictions included: what is sent is exactly, and in order, the first two points of every constant run, one whenever ten minutes have passed since the last such, and the last of a run that another value ends before it is forgotten |
| `RepeatExact.RunSendsExactly` | internal/tsdb/repeat.go:38-99 | over every interleaved run that is what is queued of every series |
| `RepeatExact.ConstantRunIsThinned` | internal/tsdb/repeat.go:68-83 | of three points of one constant run sent one after the other the third is ten minutes past the first, or the last of the run |
| `RepeatRun.ForgottenIff` | internal/tsdb/repeat.go:87-99 | over every run, a series is forgotten if and only if this is every 100000th point and its status is at least twelve minutes old |
| `RepeatRun.CleanupBreaksTheLine` | internal/tsdb/repeat.go:38-99 | a run of 100000 points on whole seconds, the last of which triggers the cleanup, after which one series draws a function that was never put |
| `RepeatSeries.NeverForgottenIsClean` | internal/tsdb/repeat.go:87-99 | without eviction every history is faithful |
| `RepeatSeries.HeartbeatBound` | internal/tsdb/repeat.go:9-13 | the latest point of a series is less than ten minutes past its status, and if the input never pauses for more than gap, sent points are less than ten minutes plus gap apart, evictions or not |
| `Repeat.SeriesAreIndependent` | internal/tsdb/repeat.go:38-99 | over every interleaved run each series lives exactly the history of its own points and evictions |
| `Repeat.OnlyStaleIsForgotten` | internal/tsdb/repeat.go:87-99 | cleanup never evicts a series whose latest point is at most two minutes old |
| `Repeat.FreshSeriesIsFaithful` | internal/tsdb/client.go:61-76 | in every interleaved run, a series whose points come within two minutes of the clock is drawn by what was sent exactly as by what was put |
| `TagBlocks.TagRange` | internal/tsdb/tsdb.go:196-227 | the in-place search over the block, for every key: the range of the first value with that key, none if there is no such key, despite hits inside other keys and values, and out of range for the empty key on a point with tags |
| `TagBlocks.TagOf` | internal/tsdb/tsdb.go:196-227 | Point.Tag for every key: lookup, and a crash if and only if the key is empty and the point has tags |
| `TagBlocks.SetTags` | internal/tsdb/tsdb.go:237-284 | the block becomes the printed result list, or the point is unchanged and the error is the specified one |
| `TagBlocks.NewTags` | internal/tsdb/tsdb.go:245-260 | the first loop accepts exactly valid tags and prints them |
| `TagBlocks.AppendKept` | internal/tsdb/tsdb.go:261-278 | the second loop appends exactly the old tags whose keys are not set |
| `TagBlocks.NextTagPeels` | internal/tsdb/tsdb.go:286-299 | nextTag peels exactly one tag off a block |
| `TagBlocks.BlockInjective` | internal/tsdb/tsdb.go:196-299 | a block spells one list of tags only |
| `TagBlocks.SetTagsOverrides` | internal/tsdb/tsdb.go:237-284 | for distinct new keys SetTags overrides the map of tags and keeps the block well formed, and succeeds if and only if the new tags are valid and the override has at most eight keys |
| `TagBlocks.SetTagsKeepsOrder` | internal/tsdb/tsdb.go:245-278 | the new tags come first, as given, then the old ones that they do not replace, in their old order |
| `TagBlocks.SetTagsWellFormedIff` | internal/tsdb/tsdb.go:237-284 | whenever SetTags succeeds, the block stays well formed if and only if the new keys are distinct |
| `TagBlocks.RepeatedKeysAreAccepted` | internal/tsdb/tsdb.go:246-260 | setting x=x and x=m at once is accepted and leaves both |
| `EventTags.ValidateTags` | cmd/collect-statse/statse/v2.go:52-88 | accepts exactly the texts that spell at most five tags with distinct keys |
| `EventTags.SplitInvertsJoin` | cmd/collect-statse/statse/v2.go:52-88 | cutting a printed tag list yields that list |
| `EventTags.Event.SetTags` | cmd/collect-statse/forwarder/event.go:82-147 | the text becomes the old list with values replaced in place, each by the first new value of its key unless that is nil, then the new tags that replaced nothing, repeated keys included |
| `EventTags.ReplaceTags` | cmd/collect-statse/forwarder/event.go:93-129 | the first loop replaces values in place, but for nil ones, and marks, of every new key, the first occurrence if the old tags hold it |
| `EventTags.AppendMissing` | cmd/collect-statse/forwarder/event.go:131-143 | the second loop appends the new tags that were not marked |
| `EventTags.BothSetTagsAgree` | cmd/collect-statse/forwarder/event.go:82-147 | for any arguments, repeated keys included, both implementations of SetTags refine the same map override; the event keeps every existing position, and the old value where the new one is nil; a point refuses nil values |
| `EventTags.EventSetWellFormedIff` | cmd/collect-statse/forwarder/event.go:82-147 | a text that validateTags accepts still spells the updated list after SetTags, and its keys are distinct if and only if the new keys are |
| `Decimal.AppendInt` | internal/tsdb/codec.go:78-98 | the reversing digit loop prints the decimal text of every int64, and -0 for the least |
| `Decimal.ParseIntLoop` | internal/tsdb/codec.go:146-167 | the digit loop computes the value modulo 2^64 and rejects exactly the texts with a non-digit |
| `Decimal.ReadDigits` | internal/tsdb/codec.go:152-162 | the accumulator is the denoted number wrapped to 64 bits |
| `Decimal.IntRoundTrip` | internal/tsdb/codec.go:78-167 | parsing undoes printing for every int64 but the least |
| `Decimal.ReprintIntNotLonger` | internal/tsdb/codec.go:78-167 | an in-range literal is never longer when printed again |
| `Codec.ParseTimeLoop` | internal/tsdb/codec.go:112-130 | seconds or thirteen digits of milliseconds, wrapped to 64 bits and truncated to a second |
| `Codec.AppendPoint` | internal/tsdb/codec.go:58-76 | appends the printed point to a buffer |
| `Codec.UnmarshalText` | internal/tsdb/codec.go:17-56 | fills the point with what the line denotes, or returns the error of the first invalid field |
| `Codec.SetTagsFromText` | internal/tsdb/tsdb.go:314-353 | rewrites the tag block from text with duplicate, arity, validity and count checks |
| `Codec.SkipNonSpace` | internal/tsdb/codec.go:190-197 | cuts the first word off |
| `Codec.SkipSpace` | internal/tsdb/codec.go:174-181 | drops leading blanks |
| `TimeText.TimeMeans` | internal/tsdb/codec.go:112-130 | one to ten digits are seconds, thirteen are milliseconds and denote the second of their first ten digits, as long as 64 bits hold them; nothing else is a time |
| `LineText.GapsDoNotMatter` | internal/tsdb/codec.go:17-56 | however the words of a line are set apart by spaces and tabs, it decodes to the same |
| `LineText.LineAcceptedIff` | internal/tsdb/codec.go:17-56 | a line of words is accepted if and only if metric, time and value read and the tags are at most eight of valid text with different keys; it then denotes just these, in order |
| `RoundTrip.RoundTripIff` | internal/tsdb/codec.go:17-98 | among all valid points the parser undoes the printer if and only if the time is a whole second from the epoch, the value is not the least int64 and the line fits 1023 bytes |
| `RoundTrip.AcceptedIsValid` | internal/tsdb/codec.go:17-56 | every accepted line decodes to a valid point with at most eight distinct tags |
| `RoundTrip.ReparseIff` | internal/tsdb/codec.go:17-98 | for every accepted line, printing and parsing again gives the same point if and only if its time fits int64 nanoseconds, the value is not the least int64 and the new line fits |
| `RoundTrip.ReprintNotLonger` | internal/tsdb/codec.go:17-98 | an accepted line with in-range integers is never longer when printed again, and reparses to the same point |
| `RoundTrip.LateTimeIsLost` | internal/tsdb/codec.go:124-129 | the line "x 9999999999 1" is accepted, wraps below the epoch and cannot be read back |
| `Commands.Put` | internal/tsdb/client.go:160-172 | builds the put command of a point |
| `Commands.SeriesBytesIff` | internal/tsdb/client.go:193-210 | the bytes hashed for a put command are the series of the point, whatever its time and value; without tags the slice is out of range |
| `Commands.SameSeriesSameBytes` | internal/tsdb/client.go:193-210 | two commands hash the same bytes if and only if their points have the same metric and tags |
| `Commands.PrintedIsOneLine` | internal/tsdb/codec.go:58-76 | a printed point holds no line end |
| `Wire.ProtocolReader.Read` | cmd/tsp-aggregator/server.go:118-147 | for any buffer size delivers the next pending bytes, loses and adds none, makes progress unless the buffer is empty, and leaves the rest of the buffer alone; it answers exactly the commands before the next put, and reads no further |
| `Wire.Decoder.ScanLine` | internal/tsdb/decoder.go:82-94 | the next line of the stream whatever the read sizes, or end of input, or a full buffer exactly when a line has 4096 bytes or more; between two lines nothing was read ahead |
| `Wire.Decoder.Decode` | internal/tsdb/decoder.go:58-92 | decodes the first line of the stream and leaves the rest, or tells the end of the input from a line that overflows the buffer |
| `Wire.Serve` | cmd/tsp-aggregator/server.go:65-96 | the connection loop, under any chunk sizes: decodes exactly the put lines in order, and writes back, line by line in that order, a complaint for a malformed put, an answer to a version request, a complaint for anything else; it ends early if and only if some line is too long for the buffer |
| `Wire.EveryLineIsAnswered` | cmd/tsp-aggregator/server.go:75-147 | of each kind of reply as many are written as there are lines that call for it: version requests, malformed puts, other commands |
| `EndToEnd.CommandsInFront` | cmd/tsp-aggregator/server.go:118-147 | whatever bytes follow, the commands in front of them are decoded and answered first and in order, and the rest as if it stood alone |
| `EndToEnd.DeliveredInOrder` | cmd/tsp-aggregator/server.go:118-147 | for any interleaving of put and version commands the decoded points are, in order, the printed and parsed ones, and the replies are one per version command |
| `EndToEnd.RereadPrintable` | internal/tsdb/codec.go:17-98 | printable points come back equal |
| `EndToEnd.Deliver` | cmd/tsp-aggregator/server.go:69-147 | end to end: the aggregator gets exactly the printable points that were put, equal and in order |
| `EndToEnd.ReturnsDoNotMatter` | cmd/tsp-aggregator/server.go:118-147 | lines that end in a carriage return and a newline are read as those that end in a newline |
| `EndToEnd.DeliverWithReturns` | cmd/tsp-aggregator/server.go:69-147 | so the aggregator gets the same points from them |
| `Order.OrderCheck.ValidOrder` | internal/tsdb/decoder.go:96-124 | the check with its table update equals the pure one; a rejected point changes no recorded time |
| `Order.OrderCheck.Cleanup` | internal/tsdb/decoder.go:126-138 | every 100000 calls evicts exactly the series at least fifteen minutes behind the clock |
| `Order.AcceptedInStep` | internal/tsdb/decoder.go:96-138 | over every run, between evictions the accepted times of a series strictly increase by at most 24 hours, and the table holds the last of them |
| `Order.TableIsBounded` | internal/tsdb/decoder.go:99-104 | at most 100000 series are ever tracked |
| `Order.RefusedIff` | internal/tsdb/decoder.go:96-124 | over every run: a point of a known series is accepted if and only if it is later than the last accepted, by at most 24 hours, and else the error says which; one of another series is accepted unless 100000 are known |
| `Order.ForgottenIff` | internal/tsdb/decoder.go:126-138 | over every run, a series is forgotten if and only if this is every 100000th point and its last time is at least fifteen minutes behind the clock |
| `Order.ArrivalTouchesLittle` | internal/tsdb/decoder.go:96-138 | an arrival changes no other series, a rejected one changes none, and eviction only forgets series at least fifteen minutes behind |
| `Order.AcceptedRisesIff` | internal/tsdb/decoder.go:94-138 | over every run, evictions included, the accepted times of a series strictly increase (and by at most 24 hours) if and only if the points with which it is readmitted after an eviction do so against the last one accepted |
| `Order.PunctualSeriesRises` | internal/tsdb/decoder.go:94-138 | if the clock never runs backwards and the points of a series are decoded within fifteen minutes of their time, its accepted times strictly increase over the whole run, however often it is evicted |
| `OrderRun.CleanupBreaksTheOrder` | internal/tsdb/decoder.go:94-138 | a run of 100000 points on whole seconds, none from the future, in which a series is accepted with a time before the last one |
| `Client.Client.constructor` | internal/tsdb/client.go:78-84 | dialAll starts one dial per host and allowed connection |
| `Client.Client.Send` | internal/tsdb/client.go:86-103 | queues any command, or drops it when the queue is full |
| `Client.Client.LookupConn` | internal/tsdb/client.go:121-134 | routes by the hash of the series bytes over the list of live connections; a command without series bytes takes the program down |
| `Client.Client.PutOnConn` | internal/tsdb/client_conn.go:121-134 | a written command becomes pending; one whose Write fails does not |
| `Client.Client.AckConn` | internal/tsdb/client_conn.go:136-148 | a due version request acknowledges all that is pending, or fails |
| `Client.Client.RemoveConn` | internal/tsdb/client.go:216-224 | takes exactly the failed connection out of the list |
| `Client.Client.DropAndRedial` | internal/tsdb/client.go:150-158 | reports what was pending and dials the same address again |
| `PoolLaws.InvNext` | internal/tsdb/client.go:78-157 | every step keeps the invariant: conservation, tidy connections, slots, order, bounded queue |
| `PoolLaws.Conservation` | internal/tsdb/client.go:78-157 | in every reachable state each submitted command is in exactly one place (queue, hand, pending of one connection, acknowledged, dropped, lost by a failing Write), and live connections plus dials stay what dialAll began with, host by host |
| `PoolLaws.LostOnePerFailure` | internal/tsdb/client_conn.go:109-134 | commands are lost unreported by failing Writes only, one each |
| `PoolAcks.AnsweredIsAcknowledged` | internal/tsdb/client_conn.go:121-148 | over every run and for every connection: acknowledged is, in order, what it wrote before its last answered version request; what it wrote since is pending, and is what is dropped when it is given up |
| `PoolAcks.OnlyAnswersAcknowledge` | internal/tsdb/client_conn.go:136-148 | a run without an answered version request acknowledges nothing |
| `PoolAcks.AckedSomewhere` | internal/tsdb/client_conn.go:136-148 | whatever is acknowledged is acknowledged on some connection |
| `PoolAcks.FailedIsGivenUp` | internal/tsdb/client.go:109-157 | after a failed Write or version request nothing more is written on the connection, and before the next command it is out of the list and has reported its pending ones |
| `PoolAcks.SameConnectionIff` | internal/tsdb/client.go:121-134 | while the list is unchanged, two commands go to one connection if and only if the hashes of their series agree modulo the number of connections |
| `PoolLaws.SeriesStayTogether` | internal/tsdb/client.go:109-134 | while the list of connections is unchanged, commands of one series go to one connection and appear there in Put order |
| `PoolLaws.FailingWriteLosesACommand` | internal/tsdb/client_conn.go:109-134 | a legal run after which the one command put is nowhere but lost: not queued, pending, acknowledged or reported as dropped |
| `PoolLaws.OnePutPanicsIff` | internal/tsdb/client.go:109-134 | a run from the start, one connection, one command: at its end the sender is down if and only if the series of the command cannot be hashed |
| `PoolLaws.HashableNeverPanics` | internal/tsdb/client.go:109-134 | no run in which all commands can be hashed takes the sender down |
| `ClientPut.HashableIffTagged` | internal/tsdb/client.go:193-210 | the command of a valid point can be hashed if and only if the point has a tag, whatever its time and value |
| `ClientPut.Put` | internal/tsdb/client.go:61-76 | the held point is queued before the current one, and a repeat is not queued |
| `Delivery.QueuedIsAfter` | internal/tsdb/client.go:61-76 | what one Put does to the pool is a legal run of its submissions |
| `Delivery.LogIsSubmitted` | internal/tsdb/client.go:86-103 | over every run the log of the pool is what was submitted, in order, whatever else the pool does |
| `Delivery.EverySentPointHasAPlace` | internal/tsdb/client.go:61-157 | over every interleaving of Put with the steps of the pool, the commands in it are those of the points the suppressor let through, in order, and each is in exactly one place |
| `Delivery.AcceptedIsOrderedIff` | internal/tsdb/decoder.go:94-138 | the order check leaves a series in the order that the suppressor needs if and only if it never readmits it with a point at or before the last one accepted |
| `Delivery.AcceptedIsOrdered` | internal/tsdb/decoder.go:94-138 | it does so for every series whose points are decoded within fifteen minutes of their time, evicted or not |
| `Delivery.RelayedSeriesIsFaithfulIff` | internal/tsdb/repeat.go:35-37 | from the order check to the queue: such a series, evicted by the order check or not, is drawn by what is queued as by what was decoded, if and only if the suppressor never forgets it with a point held back just before its value changes |
| `RepeatSeries.SentWereSeen` | internal/tsdb/repeat.go:38-85 | for every history, in whatever order its points come, only samples that were seen are sent |
| `Transit.SentWerePut` | internal/tsdb/client.go:61-76 | over every run, every point that Put queues is one that was put |
| `Transit.StreamIsBooked` | internal/tsdb/client_conn.go:109-148 | over every run, the commands written on a connection are, in order, those on its books: what it wrote, then the one whose Write failed |
| `Transit.RunWrites` | internal/tsdb/client.go:61-157 | over every interleaving of Put with the pool, the bytes written on a connection are the put commands of the points on its books, in order, with version requests in between |
| `Transit.DeliverCut` | cmd/tsp-aggregator/server.go:65-147 | wherever a stream is cut, the commands that arrive whole are decoded and answered in order, and the part of one more is taken for a command of its own |
| `Transit.TornPutIsAnother` | cmd/tsp-aggregator/server.go:118-147 | a put that breaks off in its last tag is decoded as a point of another series |
| `Transit.Relay` | internal/tsdb/client.go:61-157 | from Put to the aggregator, in every run and on every connection: the points decoded are the first ones on the books of the connection, equal and in order, up to where it breaks, and all of them if all bytes arrive |
| `Drops.LogLost` | internal/relay/relay.go:124-137 | the loop logs line by line, and runs out of range exactly when the buffer does not end in a line end |
| `Drops.PendingIsLogged` | internal/relay/relay.go:117-137 | what a broken connection had pending is counted and logged point by point |
| `Drops.DropsAreTold` | internal/tsdb/client.go:86-103 | over every run of the client, the drop hook is told of exactly the commands that it drops, in order: at a full queue, or the pending ones of a failed connection |
| `Drops.CounterMissesFullQueues` | internal/relay/relay.go:117-122 | over every run of the client, the counter is short of what was dropped by exactly the points that found the queue full |
| `Drops.LoggingSurvivesIff` | internal/relay/relay.go:124-137 | over every run of the client, the logging hook survives if and only if no point found the queue full |
| `Drops.FullQueueIsMissed` | internal/relay/relay.go:117-122 | 100001 commands and no connection: one is dropped, and the counter stays at zero |
| `FilterEngine.Append` | internal/tsdb/filter/filter.go:225-230 | append of a slice: in place while there is room, else in new memory; nothing before the end is changed |
| `FilterEngine.Submatch.Set` | internal/tsdb/filter/filter.go:215-220 | keeps a copy of the matched text that later writes to the point cannot reach |
| `FilterEngine.Submatch.ExpandInto` | internal/tsdb/filter/filter.go:222-230 | appends the expansion of a template against the held text, read piece by piece |
| `FilterEngine.RuleEngine.Match` | internal/tsdb/filter/filter.go:133-165 | matches as the pure rule does, crash included, and holds the first match with groups |
| `FilterEngine.RuleEngine.ExpandValues` | internal/tsdb/filter/filter.go:176-189 | the expanded tag values, sharing one scratch buffer, are all intact at the end, for any lengths |
| `FilterEngine.RuleEngine.Rewrite` | internal/tsdb/filter/filter.go:167-195 | metric then tags, templates against the text as matched even after the metric was overwritten in place |
| `FilterEngine.Filter.Eval` | internal/tsdb/filter/filter.go:58-85 | for every filter that can be built and every point: one run with shared scratch memory equals the fold of the rules with fresh captures, on outcome, error, crash and final labels |
| `FilterMeaning.MatchesIff` | internal/tsdb/filter/filter.go:133-165 | a rule matches if and only if its metric expression and each of its tag expressions find something, in the tag or, if there is none, in the empty string |
| `FilterMeaning.CaptureIsFirst` | internal/tsdb/filter/filter.go:133-165 | templates refer to what the first expression with groups found, the metric before the tags |
| `FilterMeaning.RuleRewrites` | internal/tsdb/filter/filter.go:167-195 | a rule that matches and does not block passes if and only if what it sets can be set; then the metric is the one set and the tags override those of the point |
| `FilterMeaning.BlockedIff` | internal/tsdb/filter/filter.go:58-85 | a filter blocks a point if and only if some blocking rule has all of its expressions find something in the labels that the rules before it left; the labels are then those |
| `FilterMeaning.FailedIff` | internal/tsdb/filter/filter.go:58-85 | a filter fails on a point if and only if some rule matches and sets what cannot be set |
| `FilterMeaning.ConfiguredBlockedIff` | internal/tsdb/filter/filter.go:42-85 | the same of rules as they are configured: the expression for the metric, unless empty, and key and expression in turn |
| `FilterCrash.RuleCrashIff` | internal/tsdb/filter/filter.go:133-165 | a rule crashes if and only if its metric expression matches, the point has a tag, and matching comes to a tag expression with an empty key |
| `FilterCrash.FilterCrashIff` | internal/tsdb/filter/filter.go:58-85 | a filter crashes if and only if some rule does on the labels that the rules before it let pass |
| `FilterCrash.NamedKeysNeverCrash` | internal/tsdb/filter/filter.go:58-85 | a filter without empty tag keys never crashes |
| `FilterCrash.AcceptedRuleCrashes` | internal/tsdb/filter/filter.go:258-349 | Match ["", "", "x"] with Set ["m"] is accepted and crashes on a point if and only if it has a tag |
| `FilterEngine.New` | internal/tsdb/filter/filter.go:42-53 | a filter is built exactly from a non-empty list of accepted rules |
| `FilterValidation.ValidateRule` | internal/tsdb/filter/filter.go:258-349 | the loops of validate compute the specified verdict |
| `FilterValidation.ScanLoop` | internal/tsdb/filter/filter.go:285-299 | the loop over Match counts capturing expressions and keeps the group count of the last one |
| `FilterValidation.AcceptedIff` | internal/tsdb/filter/filter.go:258-349 | a rule is accepted if and only if it is well shaped, at most one expression captures, and every reference is within 1 to 9 and within the groups of the last expression |
| `FilterValidation.RefsIff` | internal/tsdb/filter/filter.go:304-345 | the references that validation looks at are exactly the "${N}" in the text |
| `FilterValidation.AcceptedMeans` | internal/tsdb/filter/filter.go:285-345 | accepted if and only if well shaped, references fit the capturing expression, and, if there are references, that expression is the last |
| `FilterValidation.SoundRuleRefused` | internal/tsdb/filter/filter.go:285-303 | Match ["(a)", "host", "x"] with Set ["${1}"] is sound and refused |
| `FilterValidation.AcceptedRuleHasItsGroups` | internal/tsdb/filter/filter.go:135-165 | after an accepted rule matches, every reference of its templates names an existing group of the one recorded match |
| `ForwarderView.DefaultRuleSupplies` | cmd/tsp-controller/control/tsp-forwarder/control.go:102-106 | the "^$" rule adds the tag if and only if the key is absent |
| `ForwarderView.ViewMeans` | cmd/tsp-controller/control/tsp-forwarder/control.go:89-144 | the whole view is the custom rules followed by supplying the missing tags |
| `ForwarderView.PassedPointsAreLabelled` | cmd/tsp-controller/control/tsp-forwarder/control.go:89-144 | whatever the custom rules do, a point that passes has a host tag, and a cluster tag if the host has a cluster: the one the custom rules left if not empty, else the default; every other key keeps its value |
| `ForwarderView.Forward` | cmd/tsp-controller/control/tsp-forwarder/control.go:128-144 | the same for the filter as it runs on a point in memory |
| `Directory.Directory.Diff` | internal/config/directory.go:92-112 | in any iteration order tells exactly the event each path deserves, each once, and remembers the snapshot |
| `Directory.DiffReplays` | internal/config/directory.go:92-112 | the events of a diff are legal one after the other and turn the old path set into the new one, at most one per path |
| `Directory.DiffTells` | internal/config/directory.go:92-112 | a path is created that is new, removed that is gone, and modified that is in both with another mode or another time |
| `Directory.EveryPathHasALife` | internal/config/directory.go:92-112 | replaying events gives every path a life of create, modify any number of times, remove |
| `Directory.RunReplays` | internal/config/directory.go:78-112 | over any run of snapshots the whole stream is legal and ends at the last snapshot |
| `Processes.Process.constructor` | internal/collect/process.go:50-96 | a failed start has its exit at once, a successful one is alive and waits |
| `Processes.Process.Kill` | internal/collect/process.go:98-105 | requests death without blocking, however often it is called |
| `Processes.ExactlyOneExit` | internal/collect/process.go:154-191 | whatever the order of steps, at most one exit is ever received, only after the program ended, and sending it never blocks |
| `Processes.KilledProcessExits` | internal/collect/process.go:154-191 | a process asked to die can always step towards its exit, and each of its steps brings it closer |
| `Plugins.DirectoryEntry.OnModify` | internal/collect/pool.go:141-148 | kills and waits, or cancels the restart and starts at once |
| `Plugins.DirectoryEntry.OnRemove` | internal/collect/pool.go:149-157 | kills and waits, or returns |
| `Plugins.DirectoryEntry.OnWaitOver` | internal/collect/pool.go:144-148 | consumes the one exit and restarts or returns |
| `Plugins.EntryIsSafe` | internal/collect/pool.go:132-166 | in every reachable state at most one process of an entry is alive, none after mainloop returned, and RestartDelay is nil exactly when the current process has one exit undelivered |
| `Plugins.WaitsEnd` | internal/collect/pool.go:144-156 | every wait on Exit can be satisfied: the exit is there or the process can step closer to it |
| `PluginLife.RestartsRun` | internal/collect/pool.go:132-166 | over every run of an entry: a restart leaves it at its select, without a timer, with a new process that is alive unless it could not be started; there were as many processes as restarts, and one |
| `PluginLife.DeadPluginReturns` | internal/collect/pool.go:159-164 | from every reachable state in which the process is dead and nothing is waited for, at most three steps without directory events run it again |
| `PluginLife.ModifiedPluginReturns` | internal/collect/pool.go:141-148 | a modified plugin that is waited for can be driven to its exit and is started again |
| `PluginLife.EventActs` | internal/collect/pool.go:63-98 | a created file gets a process unless there are 128 entries, a modified one has its process stopped to be started again, a removed one has it stopped and leaves the table; no other entry changes |
| `PluginLife.EntriesArePresent` | internal/collect/pool.go:63-98 | as long as there are never more than 128 files, the pool has an entry for every file and for no other path |
| `Plugins.PluginPool.Handle` | internal/collect/pool.go:63-76 | one directory event on the table of entries keeps the pool invariant |
| `Plugins.PluginPool.Add` | internal/collect/pool.go:90-98 | adds an entry unless there are 128 |
| `Plugins.WatchedPoolIsSafe` | internal/collect/pool.go:58-103 | for any snapshots, event order and process behaviour no entry sees an unexpected event, and byPath is within the present paths and 128 entries |
| `ProcessLimit.WatchedPoolIsBounded` | internal/collect/pool.go:15-34 | in every such run the processes alive are at most as many as the entries, of which there are at most 128, and the removed entries whose process is not dead yet |
| `ProcessLimit.NoLimit` | internal/collect/pool.go:15-34 | for every n a run with n processes alive and no entry left: a program that is created and removed n times before its processes die |
| `PoolKill.KillFinishes` | internal/collect/pool.go:123-130 | Kill can get through its entries in any order while the removed ones do not move |
| `PoolKill.KillReapsIff` | internal/collect/pool.go:51-56 | Kill returns with no process alive, in all its runs, if and only if no process of an entry removed earlier is alive when it is called |
| `PoolKill.KillMissesRemoved` | internal/collect/pool.go:73-86 | create, remove, Kill: it returns with the process alive |
| `Hosts.Hosts.AddGroup` | cmd/tsp-controller/config/config.go:326-355 | accepts a group if and only if it is well formed and its ids are new and distinct; then appends the preorder of its hosts with their paths; restores the tag stack on success and on error |
| `Hosts.Hosts.AddCluster` | cmd/tsp-controller/config/config.go:357-377 | the same for a cluster |
| `Hosts.Hosts.Add` | cmd/tsp-controller/config/config.go:379-392 | registers a host with a copy of the stack that later pushes do not disturb |
| `Hosts.Hosts.Push` | cmd/tsp-controller/config/config.go:450-450 | append on the shared stack, over what a Pop left behind |
| `HostPaths.TagsAreRootToHost` | cmd/tsp-controller/config/config.go:326-392 | a host is flattened with certain tags if and only if they are the ids on the way from the root to it |
| `HostPaths.AcceptedIff` | cmd/tsp-controller/config/config.go:315-355 | any number of trees is accepted one after the other if and only if each is well formed and no id is declared twice anywhere |
| `HostPaths.WellFormedIff` | cmd/tsp-controller/config/config.go:326-392 | a group is well formed if and only if nothing is misplaced in it and nothing in it is without an id |
| `HostPaths.RegistryOfAll` | cmd/tsp-controller/config/config.go:326-392 | for any number of accepted trees, from the empty registry on: host ids are pairwise distinct, the tags of each host are distinct, and all of them are declared ids |
| `HostPaths.DecodeGroups` | cmd/tsp-controller/config/config.go:315-324 | handing the trees to one registry accepts exactly such lists, and leaves exactly their hosts and ids |
| `QueryGroups.Validate` | cmd/tsp-controller/control/collect-jmx/control.go:158-199 | accepts exactly the groups with an id, declared targets, at most one hit on every host, each process named at most once, and valid queries |
| `QueryGroups.ValidateQuery` | cmd/tsp-controller/control/collect-jmx/control.go:422-442 | accepts exactly the queries with id and object, distinct attributes, and complete KPIs |
| `QueryGroups.AcceptedTargetsCoverOnce` | cmd/tsp-controller/control/collect-jmx/control.go:158-199 | on a registry, targets are accepted if and only if all are declared, no two of them cover one host and no process is named twice |
| `HostTag.HostTagIff` | cmd/collect-statse/aggregator/store.go:162-189 | for every list of tags and every text that spells it: a host is found if and only if the first tag with "host=" in its text is a host tag with a value; the rest is then the text of the other tags, with the space behind a host tag in front of others, and with the space that trailed |
| `HostTag.HiddenHostIsRefused` | cmd/collect-statse/aggregator/store.go:165-168 | "vhost=a host=a" has a host tag and is refused |
| `HostTag.LeftIsOthersIff` | cmd/collect-statse/aggregator/store.go:178-187 | for every text in which a host is found: what is left is the text of the other tags if and only if no space trailed and the host tag was not in front of others |
| `HostTag.SameKeyIff` | cmd/collect-statse/aggregator/store.go:178-187 | two texts in which a host is found leave the same rest if and only if their other tags are the same in the same order, and both or none have a trailing space, and both or none have the host tag in front of others |
| `HostTag.SameTagsOtherKeys` | cmd/collect-statse/aggregator/store.go:178-187 | "x=w host=v" leaves "x=w", with the host tag in front " x=w", with a trailing space "x=w " |
| `StatseStore.Append` | cmd/collect-statse/aggregator/store.go:145-151 | keeps every value up to 10000, then overwrites one at a random position with a value that was seen |
| `StatseStore.Store.Write` | cmd/collect-statse/aggregator/store.go:35-72 | every entry, by metric, tags without the host, and host, holds exactly what was written for it: counts modulo 2^64, values up to the limit; every event loses its host tag, and one that is given twice is met the second time without it |
| `StatseStore.WrittenIsCounted` | cmd/collect-statse/aggregator/store.go:35-72 | for every key: as many events as came for it without and with an error, and every value as often as the former brought it |
| `StatseStore.DifferentAreEntered` | cmd/collect-statse/aggregator/store.go:35-72 | for different events that is the sum of their contents as given, and each ends stripped of its host tag once |
| `StatseStore.Store.Cleanup` | cmd/collect-statse/aggregator/store.go:129-140 | deletes exactly the entries not written to for longer than the timeout |
| `Percentiles.SumLoop` | cmd/collect-statse/aggregator/snapshot.go:108-114 | the loop computes the sum, rounded after every step |
| `Percentiles.PercentilesMean` | cmd/collect-statse/aggregator/snapshot.go:102-106 | for any non-empty buffer more than 95% (99%) of the values are at most p95 (p99) |
| `Percentiles.PercentilesAreTight` | cmd/collect-statse/aggregator/snapshot.go:102-106 | at least 5% (1%) of the values are at least p95 (p99) |
| `Percentiles.ExactAverage` | cmd/collect-statse/aggregator/snapshot.go:102-114 | without rounding the average is the total divided by the number of values |
| `Percentiles.StatisticsAreOrdered` | cmd/collect-statse/aggregator/snapshot.go:102-106 | min <= p95 <= p99 <= max, all are values of the buffer, and all values lie between min and max |
| `Percentiles.AverageIsBetween` | cmd/collect-statse/aggregator/snapshot.go:102-114 | for every rounding that keeps order: if it keeps the first n multiples of the smallest and the largest of n values, their average lies between the two, even where partial sums are rounded |
| `Percentiles.IntegerAverageIsBetween` | cmd/collect-statse/aggregator/snapshot.go:102-114 | in float32 the average lies between the smallest and the largest value if these are integers and n times each is within 2^24 |
| `Percentiles.AverageLeavesTheRange` | cmd/collect-statse/aggregator/snapshot.go:103-114 | with the rounding of float32, the average of 12428030, three times over, is 12428029 |
| `Snapshot.Calc` | cmd/collect-statse/aggregator/snapshot.go:78-100 | the statistics of an entry, with the dummy zero for a buffer that saw nothing |
| `Snapshot.SummaryMeans` | cmd/collect-statse/aggregator/snapshot.go:78-100 | the five numbers of a buffer are its least and largest value, its percentiles, bounded from both sides, and its average |
| `Snapshot.QuietKindReportsZero` | cmd/collect-statse/aggregator/snapshot.go:83-90 | a kind that was ever updated is reported in every later cycle, with zeros if nothing came, and no other kind is |
| `Snapshot.AddHost` | cmd/collect-statse/aggregator/snapshot.go:30-45 | adds the counts modulo 2^64 and appends the buffers of a host to its cluster |
| `Snapshot.TotalAdd` | cmd/collect-statse/aggregator/snapshot.go:27-55 | sums over hosts do not depend on the order of iteration |
| `Snapshot.Do` | cmd/collect-statse/aggregator/snapshot.go:26-64 | in any iteration order every host reports its entry and ends with empty buffers and its counts, and every cluster holds the sums and the union of its hosts |
| `Snapshot.ClusterSeesEverything` | cmd/collect-statse/aggregator/snapshot.go:26-64 | the counts of a cluster are the true totals modulo 2^64, and when the values since the last snapshot number at most 10000 its buffer is their multiset union |
| `Ticker.Ticker.OnTick` | internal/tsdb/ticker.go:75-93 | truncates, overwrites the pending tick, and enables the channel only past the last tick passed on |
| `Ticker.Ticker.OnSend` | internal/tsdb/ticker.go:66-73 | passes the pending tick on and disables the channel |
| `Ticker.SteadyRun` | internal/tsdb/ticker.go:64-93 | the loop invariant: an enabled channel means that the pending tick is past the last one passed on |
| `Ticker.ReadyTicksPass` | internal/tsdb/ticker.go:57-93 | on a clock that advances by a second or more each time, the ticks passed on are exactly those at which the consumer was ready |
| `Ticker.FallingClock` | internal/tsdb/ticker.go:64-93 | on the seconds 5, 6, 5, with a consumer that is late for the second tick, 5 is passed on twice and 6 never |
| `Ticker.NonDecreasingIsSteady` | internal/tsdb/ticker.go:64-93 | a clock that never runs backwards meets the condition |
| `Ticker.TicksInOrderIff` | internal/tsdb/ticker.go:57-99 | for every consumer schedule the ticks are whole seconds and strictly increasing, if and only if the clock never falls back to or below the second of an earlier tick right after it was past it |

## Left out

- Text beyond ASCII: `validText` accepts letters and digits of all of Unicode; here every byte from 128 up counts as
  text. What the proofs use is that text holds no space, tab, line end or `=`.
- Float text: printing and parsing a float32 are a parameter that must read back what it printed; NaN, infinities and
  the difference between 0.0 and -0.0 are not modelled, and interpolation is over exact numbers.
- `Point.NewPoint`, `XAppendTags`, `SetValue` and the normalising word reader: other ways into the same point.
- Point pooling (`getPoint`, `Free`) and command pooling: memory management only.
- `Event.Tag` looks at the first substring hit only and is not a lookup; statse version 1 keeps tags of an earlier line.
- bufio.Scanner's limit of 64 KB on a line: a longer line ends the connection in the program.
- Dialing with back-off, sockets, deadlines and the reading of version responses: outcomes of a step, ok or failed.
- The hash function: any function of the series bytes.
- PoolLaws.LostOnePerFailure: that the lost command is reported is false of the code, see above.
- Regular expressions: a parameter with a group count, a match function and the pieces of a template's expansion.
  Validation sees `${N}` references only; `$N` and `${name}` are expanded by Go as well.
- The relay map and the aggregator and poller views; the host lookup with its short names and scope restrictions.
- How events are delivered at ten a second, and the walk of the directory: a snapshot is a map of paths.
- Plugins.PluginPool.Handle: entries are values in the pool's table; the objects with their processes are proved
  against the same step functions.
- Shutdown liveness: `Directory.Stop` may wait for a watcher that is blocked sending an event.
- XML decoding; `hostQueries` and `appendObject`.
- Sorting: Go's `sort.Sort`, here any sorted permutation; entries are values in the maps of store and snapshot.
- Snapshot.Do: formatting the statistics as points, and their order of emission.
- Percentiles.AverageIsBetween: one direction only; a multiple that is rounded may still divide back into the range.
- The start-up alignment of the ticker, whose second `Add` has no effect (`internal/tsdb/ticker.go:49-52`).
- JSON, HTTP handlers, the NetScaler collector, the ZeroMQ binding, expvar counters and logging.

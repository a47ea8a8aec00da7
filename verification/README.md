# SisyphusGate: verified model

SisyphusGate is a honeypot front end: it detects the protocol of a connection, scores it, routes it by a
rule list, and records events. This project models the parts that carry logic and proves what they guarantee
over whole runs.

- **Windows and buckets.** `SlidingLog`, `LogTable`, `TokenBucket`, `Histories`, `RateLimiter`,
  `Admissions`, `FrequencyTracker`. Both trackers are classes over Python dictionaries in insertion order. Every answer is
  proved equal to one computed from the full history of calls, with no log, bucket or eviction in sight.
- **Analysis and routing.** `Protocols`, `Engine`, `Rules`, `StableSort`, `Dispatcher`, `Gate`,
  `ShippedPolicy`. The sorted scan refines the declared choice; routing is monotone in the evidence; the shipped
  policy escalates over any run.
- **Event pipeline.** `Collector`, `TextLines`, `JsonlStorage`, `SqliteStorage`, `Pipeline`, `LogBridge`. The
  collector is a step system with one step per await point; published events reach the disk exactly once and
  in order.
- **Proxy and tarpit.** `Relay`, `Tarpit`.

Times are `real`, clocks never run backwards, and windows and thresholds are at least 1. Regular expressions,
`ipaddress`, `int(str)`, `str(value)` and `strftime` are arbitrary functions. Proofs that only chain lemmas
start with `hide *`.

## What the proofs found

- `cleanup_all` and `get_top_ips` delete from the dictionary they iterate (`rate_limiter.py:63`,
  `frequency.py:49`, `frequency.py:59`). They raise exactly when some log has expired, having deleted one log;
  otherwise `cleanup_all` removes nothing and returns 0. As written no bucket is ever evicted. The intended
  sweep is `CleanupSnapshot`, and it is proved unobservable.
- `FrequencyTracker.get_count` puts an empty log back for an IP whose log it has just deleted, so queries
  never shrink the dictionary, and every such IP makes the next sweep raise.
- The tarpit rule is configured with 15 connections, but the high-frequency flag satisfies it from 10.
- The list in `README.md:45-50` is not the order of priorities; the model follows the priorities.
- The flag of a connection reports the first clock read and its score the second. A flagged connection can score
  below 80 (`ShippedPolicy.FlaggedBelowEighty` has a run); `Gate.ScoresHighExactlyAt` gives the exact condition.
- More evidence can turn routing into an exception when a threshold is configured as text that is no number
  (`Dispatcher.MoreEvidenceMayRaise`). With numbers it never de-escalates.
- A half-close cuts a proxied connection short: a relay that ends closes the connection the other one reads from
  (`server.py:158-163`), so the rest of the other side's stream is lost. `Relay.HalfCloseCutsShort` shows that any
  part of it may be.
- As shipped, Telnet traffic for Cowrie is proxied to its SSH port, and HTTP traffic for SNARE is dropped.
- A truncated log is re-read from the start exactly when it is smaller than the saved position. Lines are lost
  otherwise (`LogBridge.UnnoticedRewrite`), and when a file is replaced before they were read.
- A shutdown whose `join` times out loses exactly the events still queued (`Pipeline.LostIsQueued`).

## Model

| member | source | states |
|---|---|---|
| TokenBucket.LevelIsLeastCredit | src/sisyphusgate/router/rate_limiter.py:38-43 | the lazily refilled bucket has a closed form: at each call it is the minimum, over all earlier calls, of capacity less calls admitted since plus tokens accrued since |
| TokenBucket.AdmissionCriterion | src/sisyphusgate/router/rate_limiter.py:16-26 | a call is admitted if and only if every interval ending at it leaves room for one more under capacity plus accrual |
| TokenBucket.IntervalBound | src/sisyphusgate/router/rate_limiter.py:16-26 | every interval of a run admits at most the capacity plus what the interval refills |
| TokenBucket.IdleBucketIsFull | src/sisyphusgate/router/rate_limiter.py:38-43 | a bucket idle for longer than the window is full, as a forgotten one would be |
| SlidingLog.DropRefinesHistory | src/sisyphusgate/router/rate_limiter.py:49-57 | popping expired entries leaves a suffix of the full history whose length is the number of entries of the whole history inside the window |
| RateLimiter.RateLimiter.Allow | src/sisyphusgate/router/rate_limiter.py:16-26 | whatever was evicted or swept before, admission follows the exact criterion on this IP's own full history; refused calls are recorded too |
| RateLimiter.RateLimiter.IsHighFrequency | src/sisyphusgate/router/rate_limiter.py:28-31 | the flag compares the threshold with the window count over the full history |
| RateLimiter.RateLimiter.GetAccessCount | src/sisyphusgate/router/rate_limiter.py:33-36 | the count is that of all requests ever made, refused ones included, that lie in the window |
| RateLimiter.RateLimiter.CleanupAll | src/sisyphusgate/router/rate_limiter.py:59-71 | raises if and only if some log has expired, with exactly one log deleted; otherwise removes nothing; no bucket is touched and the history stands |
| RateLimiter.RateLimiter.CleanupSnapshot | src/sisyphusgate/router/rate_limiter.py:59-71 | the intended sweep evicts log, bucket and refill time of exactly the expired IPs, and every later answer still follows the full history |
| RateLimiter.RateLimiter.Replay | src/sisyphusgate/router/rate_limiter.py:16-71 | any run of questions interleaved with sweeps of either kind is answered as the full history says |
| RateLimiter.CountsInRun | src/sisyphusgate/router/rate_limiter.py:28-36 | every count and flag of a new limiter in any run goes by the requests of the same IP among the operations before, counted in the run itself |
| RateLimiter.EvictionUnobservable | src/sisyphusgate/router/rate_limiter.py:59-71 | two limiters with the same history, of which only one evicted, answer every future run alike |
| RateLimiter.FirstSweep | src/sisyphusgate/router/rate_limiter.py:59-71 | on a limiter that has seen one request the sweep raises if and only if that request has left the window |
| Admissions.AdmissionsBounded | src/sisyphusgate/router/rate_limiter.py:16-71 | among the answers a limiter gives in any run, sweeps included, no stretch admits an IP more often than the capacity plus what the stretch refills |
| Admissions.AllowedIsAdmitted | src/sisyphusgate/router/rate_limiter.py:16-26 | the admitting answers to one IP in a run are as many as the calls of that run the exact bucket admits |
| RateLimiter.NonInterference | src/sisyphusgate/router/rate_limiter.py:16-71 | what a limiter tells one IP in an interleaved run with sweeps is what a second limiter tells it on the sub-run restricted to that IP |
| FrequencyTracker.NonInterference | src/sisyphusgate/analyzer/frequency.py:13-64 | what a tracker tells one IP in an interleaved run with sweeps and rankings is what a second tracker tells it on the sub-run restricted to that IP |
| RateLimiter.SweepsUnobservable | src/sisyphusgate/router/rate_limiter.py:59-71 | a limiter that sweeps anywhere in a run gives the answers of one that never does |
| FrequencyTracker.SweepsUnobservable | src/sisyphusgate/analyzer/frequency.py:45-64 | a tracker that sweeps and ranks anywhere in a run gives the answers of one that never does |
| LogTable.SweepMeaning | src/sisyphusgate/analyzer/frequency.py:45-54 | iterating a dictionary while trimming it raises if and only if a visited log has expired, and then exactly one entry is gone |
| LogTable.TrimAllMeaning | src/sisyphusgate/router/rate_limiter.py:59-71 | a sweep over a snapshot of the keys keeps exactly the unexpired logs |
| FrequencyTracker.FrequencyTracker.Record | src/sisyphusgate/analyzer/frequency.py:13-17 | returns the number of recorded connections of the IP in the window, this one included, over the full history |
| FrequencyTracker.FrequencyTracker.GetCount | src/sisyphusgate/analyzer/frequency.py:19-24 | counts the full history in the window, and leaves the set of known IPs as it was |
| FrequencyTracker.FrequencyTracker.IsHighFrequency | src/sisyphusgate/analyzer/frequency.py:26-27 | compares the threshold with the window count over the full history |
| FrequencyTracker.FrequencyTracker.GetFrequencyScore | src/sisyphusgate/analyzer/frequency.py:29-35 | scores the window count over the full history |
| FrequencyTracker.FrequencyTracker.CleanupAll | src/sisyphusgate/analyzer/frequency.py:45-54 | raises if and only if some log has expired, empty logs included; otherwise removes nothing |
| FrequencyTracker.FrequencyTracker.GetTopIps | src/sisyphusgate/analyzer/frequency.py:56-64 | raises if and only if some log has expired; otherwise lists the first n (or, for negative n, all but the last) of exactly the IPs with a connection in the window, each once with its exact count, the counts falling and nobody left out who counts more, ties in dictionary order |
| FrequencyTracker.FirstSweep | src/sisyphusgate/analyzer/frequency.py:45-64 | on a tracker that has seen one connection sweep and ranking raise if and only if that connection has left the window |
| FrequencyTracker.FrequencyTracker.Replay | src/sisyphusgate/analyzer/frequency.py:13-64 | any run of records, queries and scores, with sweeps and rankings in between, is answered as the full history says |
| FrequencyTracker.CountsInRun | src/sisyphusgate/analyzer/frequency.py:13-35 | every answer of a new tracker in any run, scores included, goes by the connections of the same IP among the operations before, counted in the run itself |
| FrequencyTracker.FrequencyScoreLaws | src/sisyphusgate/analyzer/frequency.py:29-35 | the score is monotone in the count, in 0..39 below the threshold and in 80..140 from it |
| FrequencyTracker.PointsExactly | src/sisyphusgate/analyzer/frequency.py:29-35 | the score in whole numbers: 40 by the share of the threshold below it, from it on 50 and 30 for every multiple of it, up to 140 |
| StableSort.SortedStable | src/sisyphusgate/router/dispatcher.py:40 | sorting is descending and keeps the elements of each key in their old order |
| StableSort.SortedIsPermutation | src/sisyphusgate/router/dispatcher.py:40 | sorting keeps every element as often as it was there |
| StableSort.StableUnique | src/sisyphusgate/router/dispatcher.py:40 | these two properties determine the sorted list |
| Protocols.DetectionExact | src/sisyphusgate/gateway/protocol.py:35-52 | each protocol is detected exactly for payloads with its prefix, so the order of the tests is irrelevant |
| Protocols.LabelExact | src/sisyphusgate/gateway/protocol.py:8-52 | the label that rules and signatures see names the prefix of the payload, and is raw without one |
| Protocols.PrefixBytes | src/sisyphusgate/gateway/protocol.py:29-32 | the SSH, TLS and Telnet prefixes byte by byte |
| Protocols.RequestIsHttp | src/sisyphusgate/gateway/protocol.py:30-48 | each of the nine methods followed by a space makes a payload HTTP |
| Rules.AllMeaning | src/sisyphusgate/router/dispatcher.py:61-73 | a rule matches if and only if all its conditions hold, and raises if and only if one does while all before it hold |
| Rules.ActionNames | src/sisyphusgate/router/rules.py:10-27 | every action is configured by its name and any other text means logging |
| Rules.IpConditions | src/sisyphusgate/router/rules.py:66-71 | the blacklist matches literal entries and networks that contain the IP, the whitelist literal entries only, other text as a network or the IP itself |
| Rules.TagAndPortConditions | src/sisyphusgate/router/rules.py:52-76 | when tag, port and protocol conditions hold |
| Rules.ThresholdConditions | src/sisyphusgate/router/rules.py:55-61 | thresholds are inclusive, the flag meets any frequency threshold, and a float is cut off toward zero |
| Rules.UnknownConditions | src/sisyphusgate/router/rules.py:51-78 | a condition of an unknown kind never holds |
| Rules.RaisesExactly | src/sisyphusgate/router/rules.py:55-61 | a condition raises if and only if its threshold is no number and is read, which the high-frequency flag prevents |
| Rules.AllMonotone | src/sisyphusgate/router/rules.py:51-78 | a rule that matches still matches when score, count, flag or tags rise |
| Dispatcher.BestIsGreatest | src/sisyphusgate/router/dispatcher.py:55-85 | the declared choice is a decisive rule of greatest priority, the earliest among equals, and none exactly when no rule is decisive |
| Dispatcher.RoutingMeaning | src/sisyphusgate/router/dispatcher.py:46-85 | a whitelisted IP is only logged whatever the rules say; otherwise the best decisive rule decides or raises; without one the connection is only logged |
| Dispatcher.SortRefinesBest | src/sisyphusgate/router/dispatcher.py:40-82 | the first decisive rule of any stable descending sort is the declared choice, for every rule list and input |
| Dispatcher.OrderIrrelevant | src/sisyphusgate/router/dispatcher.py:25-40 | with pairwise distinct priorities any permutation of the configured rules decides alike |
| Dispatcher.ShadowedByDefault | src/sisyphusgate/router/dispatcher.py:56-59 | rules ranked after a rule without conditions can be removed without effect |
| Dispatcher.MonotoneWhenWellFormed | src/sisyphusgate/router/dispatcher.py:55-85 | if all configured thresholds are numbers, a connection that a rule routes is, under more evidence, routed by a matching rule of no lower priority |
| Dispatcher.MonotoneUnlessRaises | src/sisyphusgate/router/dispatcher.py:55-85 | for any configuration the rule that then decides has no lower priority, and it routes the connection if and only if no condition of it raises after all before it held |
| Dispatcher.MoreEvidenceMayRaise | src/sisyphusgate/router/dispatcher.py:61-69 | a configuration under which a third connection raises where the second was routed |
| Dispatcher.HoneypotRouter.constructor | src/sisyphusgate/router/dispatcher.py:19-40 | the rules end up as a stable descending sort of the configured ones |
| Dispatcher.HoneypotRouter.Route | src/sisyphusgate/router/dispatcher.py:46-85 | the whitelist bypass and the fallback spelled out, and otherwise the declared choice or the exception a condition raises |
| Engine.SignatureOrderIrrelevant | src/sisyphusgate/analyzer/engine.py:89-100 | signature score and tags do not depend on the order of the signatures |
| Engine.SignatureAdds | src/sisyphusgate/analyzer/engine.py:93-98 | a signature adds its score if and only if it is for the protocol or for all and its pattern is found |
| Engine.SignatureTagsExactly | src/sisyphusgate/analyzer/engine.py:95-98 | a tag is reported if and only if such a signature carries it |
| Engine.NothingFound | src/sisyphusgate/analyzer/engine.py:93-100 | where no pattern is found there are no points |
| Engine.ThreatLevelMonotone | src/sisyphusgate/analyzer/engine.py:102-110 | the threat level never falls as the score rises, for any thresholds |
| Engine.LevelCountsThresholds | src/sisyphusgate/analyzer/engine.py:102-110 | with thresholds in order, the level says how many of them the score has reached |
| Engine.LevelExactly | src/sisyphusgate/analyzer/engine.py:102-110 | with thresholds in order each level is reported exactly in its range of scores |
| Engine.HeuristicLaws | src/sisyphusgate/analyzer/heuristics.py:6-46 | the tags account for the points; an empty probe excludes the other findings, so 35 is the most; 0 exactly for 1 to 2048 bytes of which at least half are printable |
| Engine.ScoreIsCappedSum | src/sisyphusgate/analyzer/engine.py:46-100 | the two nested clamps amount to one cap at 100 on the sum of all points, and the score is in 0..100 |
| Engine.AssessReports | src/sisyphusgate/analyzer/engine.py:46-87 | an assessment item by item: the level by the range of its score, the tags by what was found in the payload, flag and count by the window, the score as the capped sum of points in whole numbers |
| Engine.HighFrequencyScoresHigh | src/sisyphusgate/analyzer/engine.py:57-69 | in every configuration that scores the frequency, the score is at least 80 when the window still holds the threshold at the second clock read |
| Engine.ScoresHighExactly | src/sisyphusgate/analyzer/engine.py:52-69 | the score is at least 80 if and only if the second read finds the threshold, or the payload points and the frequency points of the count it finds come to 80 |
| Engine.AssessMonotone | src/sisyphusgate/analyzer/engine.py:46-87 | more connections in the window, at either clock read, never lower score, level or flag |
| Engine.AnalysisEngine.RunSignatures | src/sisyphusgate/analyzer/engine.py:89-100 | the loop yields the capped sum and exactly the tags of the signatures of the protocol whose pattern is found, and nothing where none is |
| Engine.AnalysisEngine.Analyze | src/sisyphusgate/analyzer/engine.py:46-87 | the result reports level, tags, flag, count and score item by item, by counts over the full history at the two clock reads, and score and level are copied into the session |
| Gate.Gateway.Handle | src/sisyphusgate/app.py:113-122 | detecting, analyzing and routing a connection yields the outcome declared for it by the whole run so far |
| Gate.Gateway.HandleAll | src/sisyphusgate/app.py:113-122 | handling a run of connections gives each of them, not only the newest, the outcome declared for it by the whole run |
| Gate.RoutingAt | src/sisyphusgate/router/dispatcher.py:46-85 | the routing of every connection of a run case by case, whitelist bypass and fallback spelled out, under any policy |
| Gate.ReportsAt | src/sisyphusgate/analyzer/engine.py:46-87 | the report on every connection of a run item by item |
| Gate.DispatchMeaning | src/sisyphusgate/app.py:124-160 | what is dropped, proxied and served, for any decision, port map and registry |
| Gate.ScoresHighExactlyAt | src/sisyphusgate/app.py:113-114 | that condition for every connection of a run, by the counts over the full history |
| Gate.MoreTrafficNeverDeescalates | src/sisyphusgate/app.py:113-122 | within any run and under any policy, the rule that decides a repetition of a connection under more traffic has no lower priority; it routes it if and only if its conditions do not raise, as with numbers for thresholds they never do |
| ShippedPolicy.ShippedTable | config/default.yaml:28-82 | the decision table of the shipped rules, by priority rather than by position |
| ShippedPolicy.ShippedRouting | config/default.yaml:28-84 | the shipped decision on every connection of a run, whitelisted IPs and every kind of payload included |
| ShippedPolicy.ShippedLevels | src/sisyphusgate/analyzer/engine.py:102-110 | the shipped threat level of every connection of a run, by the range of its score |
| ShippedPolicy.ShippedHandling | src/sisyphusgate/app.py:124-160 | the endpoint of every connection of a run as shipped, by its prefix, window count, score and blacklist status |
| ShippedPolicy.Escalation | config/default.yaml:28-84 | in any run, a connection of an IP that is not whitelisted is sent to Endlessh if it opens with the SSH prefix, to the tarpit otherwise, by the frequency rules if and only if it is at least the tenth in its window, whatever its payload and the blacklist |
| ShippedPolicy.Ladder | src/sisyphusgate/analyzer/engine.py:46-110 | in any run, a plain SSH connection of an unlisted IP goes to Endlessh if it is at least the tenth in its window, else to Cowrie if the window holds three at scoring, else is logged |
| ShippedPolicy.LadderNeverDescends | src/sisyphusgate/router/dispatcher.py:55-82 | the route never de-escalates from one such connection to a later one while no entry in the window of the first has left that of the second |
| ShippedPolicy.FlaggedBelowEighty | src/sisyphusgate/analyzer/engine.py:57-62 | a run of ten connections whose tenth is flagged and scores 56 |
| Collector.StartConserved | src/sisyphusgate/aggregator/collector.py:37-43 | the bookkeeping holds when the consumer loops have been started |
| Collector.RunConserves | src/sisyphusgate/aggregator/collector.py:30-71 | in every interleaving: published = taken in order + queued, total = queued + in hand + settled, capacity respected, each event with exactly one consumer, settled exactly once |
| Collector.OfferedIsPublished | src/sisyphusgate/aggregator/collector.py:30-35 | every event offered in a run is published, once and in order |
| Collector.PublisherWaits | src/sisyphusgate/aggregator/collector.py:30-35 | after any run a publisher waits if and only if the capacity is positive and the queue holds that many events, and goes on once one is taken |
| Collector.LoopEnds | src/sisyphusgate/aggregator/collector.py:56-71 | unless cancelled a loop ends exactly when it finds an empty queue after shutdown began |
| Collector.SingleConsumerInOrder | src/sisyphusgate/aggregator/collector.py:56-71 | one consumer settles, holds and has yet to take exactly the published events, in publish order |
| Collector.ShutdownDrains | src/sisyphusgate/aggregator/collector.py:37-71 | after any run from the start, once shutdown begins every run of the loops is bounded, and where it stops all loops have ended, the queue is empty and every event is settled |
| TextLines.SplitUnlines | src/sisyphusgate/aggregator/storage.py:56-58 | a file of one-line records reads back as these records |
| JsonlStorage.FlushAccounts | src/sisyphusgate/aggregator/storage.py:48-61 | a flush, failed or not, keeps files in date order followed by the buffer equal to everything written, across day changes |
| JsonlStorage.DiskTextIsUnlines | src/sisyphusgate/aggregator/storage.py:52-58 | in a new directory the file texts in date order are the text of the lines on disk |
| JsonlStorage.WriteAccounts | src/sisyphusgate/aggregator/storage.py:38-42 | so does a write, with the new line last, even when its flush fails |
| JsonlStorage.DueWriteReachesDisk | src/sisyphusgate/aggregator/storage.py:38-61 | a due write whose file opens leaves nothing in the buffer, and everything written is on disk |
| JsonlStorage.JsonlStorage.Write | src/sisyphusgate/aggregator/storage.py:38-42 | when due and the file opens, the file of the day gains exactly buffer and line and the buffer is empty; otherwise the buffer gains the line and no file changes; raises only when a due flush cannot open its file |
| JsonlStorage.JsonlStorage.Flush | src/sisyphusgate/aggregator/storage.py:44-46 | the file of the day, and no other, gains exactly the buffer, which is then empty; or raises and keeps everything |
| JsonlStorage.JsonlStorage.DoFlush | src/sisyphusgate/aggregator/storage.py:48-61 | the text of each file stays its initial text followed by the lines appended to it |
| JsonlStorage.JsonlStorage.ReadBack | src/sisyphusgate/aggregator/storage.py:52-58 | a new file splits back into exactly the lines written to it |
| SqliteStorage.SessionsAreLastConnections | src/sisyphusgate/aggregator/storage.py:163-167 | the sessions table maps an id to the start, source, protocol, honeypot and level of the last connection row with that id, and only such ids |
| SqliteStorage.StoredAsSaid | src/sisyphusgate/aggregator/storage.py:141-161 | a complete event is stored field by field as it is, and absent entries as their defaults |
| SqliteStorage.SqliteStorage.Write | src/sisyphusgate/aggregator/storage.py:126-130 | event rows plus buffer stay the write history, and the sessions table stays that of the rows |
| SqliteStorage.SqliteStorage.DoFlush | src/sisyphusgate/aggregator/storage.py:136-171 | commits every buffered event in order and empties the buffer |
| Pipeline.NothingLost | src/sisyphusgate/app.py:110-111 | in every reachable state files, buffer, event in hand and queue are together the events offered by publishers, in order, even when flushes fail, `join` times out or events are published after shutdown began |
| Pipeline.DueStoreReachesDisk | src/sisyphusgate/app.py:110-111 | after a due store whose file opens everything settled is on disk |
| Pipeline.LostIsQueued | src/sisyphusgate/aggregator/collector.py:45-53 | once the consumer has ended, cancelled after a timed-out join or not, the final flush leaves behind exactly the queue, so everything is on disk if and only if the queue is empty |
| Pipeline.TimedOutShutdown | src/sisyphusgate/aggregator/collector.py:47-53 | a run in which a timed-out shutdown loses its event |
| Pipeline.PublishedToDisk | src/sisyphusgate/app.py:190-204 | once join has returned and the final flush succeeds, the files in date order are exactly the published events in publish order, as lines and as text; closing adds nothing |
| Pipeline.ShutdownToDisk | src/sisyphusgate/app.py:190-204 | after any run, shutdown lets the consumer take a bounded number of steps, and where it stops everything is settled and the final flush puts exactly the published events on disk |
| LogBridge.ParseUnlines | src/sisyphusgate/honeypots/external/log_bridge.py:84-90 | parsing a stretch of clean lines gives back these lines |
| LogBridge.NonBlankMeaning | src/sisyphusgate/honeypots/external/log_bridge.py:89-90 | exactly the lines with a character that is not blank are kept, in order |
| LogBridge.StripBlank | src/sisyphusgate/honeypots/external/log_bridge.py:89-90 | stripping leaves nothing exactly of a blank line |
| LogBridge.BlankCharacters | src/sisyphusgate/honeypots/external/log_bridge.py:89-90 | which ASCII characters are blank |
| LogBridge.ParsedEdges | src/sisyphusgate/honeypots/external/log_bridge.py:89-90 | however ragged a stretch, the first line found does not begin with a blank and the last does not end with one |
| LogBridge.TailsExactlyOnce | src/sisyphusgate/honeypots/external/log_bridge.py:71-90 | over any run of appends, rewrites and polls, each poll delivers exactly the lines not delivered yet that the file still has, in order, if each rewrite is noticed |
| LogBridge.EachLineOnce | src/sisyphusgate/honeypots/external/log_bridge.py:71-90 | for every run of clean lines, those delivered are all lines recorded since the start, each once and in order, if and only if every new file is noticed (the first poll that finds it nonempty finds it smaller than the saved position, or nothing had been read) and no file was replaced while it had unread lines |
| LogBridge.UnnoticedRewrite | src/sisyphusgate/honeypots/external/log_bridge.py:75-82 | a run in which a new file is not noticed and its line is never delivered |
| LogBridge.AppendsDelivered | src/sisyphusgate/honeypots/external/log_bridge.py:45-90 | without rewrites the polls deliver exactly the lines appended since the start |
| LogBridge.TruncationDetected | src/sisyphusgate/honeypots/external/log_bridge.py:75-82 | the first nonempty poll of a new file delivers it whole if and only if it is smaller than the saved position or nothing had been read |
| LogBridge.LogBridge.Start | src/sisyphusgate/honeypots/external/log_bridge.py:45-51 | every source starts at the current end of its file |
| LogBridge.LogBridge.ReadNewLines | src/sisyphusgate/honeypots/external/log_bridge.py:71-90 | the method polls as the runs above do, and leaves the other files alone |
| Relay.RunTransparent | src/sisyphusgate/gateway/server.py:145-169 | transparency and byte accounting hold in every interleaving of the two relays, each of which closes what the other reads from when it ends |
| Relay.ProxyTransparency | src/sisyphusgate/gateway/server.py:97-169 | upstream gets the initial data and a prefix of the client stream, the client a prefix of the answer; a relay that ends at end of file before the other has passed on everything; counters are exact at loop heads and lag by at most one chunk |
| Relay.ConnectionRefused | src/sisyphusgate/gateway/server.py:131-137 | if the server is not reached the proxy ends there and nothing is sent to either side |
| Relay.InitialDataLost | src/sisyphusgate/gateway/server.py:141-143 | if the connection breaks while the initial data drains, that data is all that was ever written |
| Relay.ChunkSize | src/sisyphusgate/gateway/server.py:145-152 | one read passes on up to 64 KiB, and no more |
| Relay.HalfCloseCutsShort | src/sisyphusgate/gateway/server.py:145-169 | for every length there is a run in which one side ends its stream first and just that much of the other side's stream is passed on |
| Tarpit.TarpitHoneypot.Admit | src/sisyphusgate/honeypots/tarpit/server.py:39-45 | admits if and only if there is room; a session is inside and both counters grow by one exactly when it was admitted |
| Tarpit.TarpitHoneypot.Release | src/sisyphusgate/honeypots/tarpit/server.py:62-64 | the session is no longer inside, the active count falls by one and the trapped count stays |
| Tarpit.TarpitHoneypot.Sessions | src/sisyphusgate/honeypots/tarpit/server.py:39-76 | in any interleaving each session is admitted exactly when the admissions less the departures so far leave room, inside are those admitted that have not left, and both counters are these numbers, within capacity |

## Left out

- Rounding of floats: all times, levels and ratios are exact reals, so `int(...)` of a quotient is the exact floor.
- Clocks that run backwards, and windows or thresholds below 1, are excluded by preconditions.
- `Collector`, `Relay` and `Pipeline` are modelled on values, one step per await point; updates in place and the event loop itself are not captured, and a wait that times out never loses an event.
- `Collector.ShutdownDrains`: nobody publishes once shutdown has begun, and a wait times out only while the queue is empty, as the loop would otherwise be handed the next event at once.
- `Relay.HalfCloseCutsShort`: bytes that had already arrived when a connection is closed may still be read; the model lets a read find end of file at any point from then on.
- `Pipeline.PublishedToDisk`: `join` has returned. After a timed-out `join` `Pipeline.LostIsQueued` applies. The consumer's write is one step, since it never suspends, so a cancelled consumer never holds an event; cancellation inside `asyncio.wait_for` is not captured.
- `RateLimiter.RateLimiter.CleanupSnapshot`: the sweep the code intends, beside `CleanupAll`, which is the sweep as written.
- `SqliteStorage`: events without a timestamp, flushes that fail midway, and concurrent readers.
- `LogBridge`: multi-byte text, polls inside a line, and a file that changes during a poll; watching tasks and the mapping of lines to events.
- JSON encoding: a stored event is its encoded line.
- The tarpit's own events never reach the collector, since their callback is not awaited (`src/sisyphusgate/honeypots/base.py:33`).
- Sockets, signals, external honeypot management, GeoIP, reports, the command line and logging have no logic to prove.

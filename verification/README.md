# Raft election, burst harnesses and traffic statistics: a Dafny model

This project models the parts of the repository whose correctness spans many steps, and proves what
they keep over whole runs.

* **Raft leader election** (`dpdk-23.11/app/raft/election.c`; `raft-netelect` has the same text).
  `RaftNode` holds one node twice: as step functions, and as a class that updates the fields of
  `raft_node_t` in place and is proved equal to them. `RaftCluster` puts nodes 1..n on a network that
  may lose, delay, reorder and repeat packets. `RaftInvariant` is the inductive invariant,
  `RaftSafety` the safety theorems over runs, `RaftExact` the exact condition for Election Safety,
  `RaftProgress` the completion of an undisturbed round, `RaftHeartbeat` what receivers of packets do
  and how heartbeats settle a cluster.
* **The compression verify test** (`dpdk-23.11/app/test-compress-perf`). `CompressBuffers` are mbuf
  chains, `CompressSegments` sizes and segmentation, `CompressDevice` the device, `CompressVerify` the
  burst loop of one pass, `CompressRunner` the test from input data to verdict.
* **The crypto burst benchmarks** (`dpdk-23.11/app/test-crypto-perf`). `BurstDevice` is a pool and a
  queue that accepts any prefix and completes in any order; `CryptoCyclecount` and
  `CryptoThroughput` are the two loops.
* **Sense statistics** (`dpdk-23.11/app/sense/stats.c`): `SenseSamples` and `SenseCounters`.
* **RSS traffic crafting** (`dpdk-23.11/usertools/dpdk-rss-flows.py`): `RssHash` and `RssFlows`.
* **RTT estimation** (`dpdk-23.11/app/raft-netelect-backup`): `RttEstimator` and `ClockFilter`.

`dafny verify dfyconfig.toml` checks the project.

## Where code and promise differ

* README.md of the repository calls the application a simple Raft implementation. Section 5.2 of the
  Raft paper promises at most one leader per term. The code keeps that promise only under a
  condition: it does not compare a vote request's term with its own, and it counts response packets
  instead of voters. `RaftExact.SafetyExactly` gives the condition, `RaftExact.StaleRequestsUnsafe` and
  `RaftExact.DuplicatesUnsafe` construct the runs that break it for every cluster of four or more nodes.
* The delay filter is meant to find the least one-way delay. With a peer whose clock runs ahead by
  more than the delay it does not; `ClockFilter.LeastDelayExactly` says exactly when it does.
* The loss counter is pings minus pongs only as long as pongs never get ahead of pings
  (`SenseCounters.LossIsBalance`); otherwise it forgives the difference (`SenseCounters.LossSinceLowest`).
* A key too short for the data makes the hash fail for some packets only, namely those with a set bit
  that lacks its window (`RssHash.ToeplitzHash`).

## How the outside world appears

Timers are flags that say which timer is armed. The network, the device and the clock are arbitrary
within their contracts: a device accepts any prefix of a burst and returns finished operations whenever
it likes, first in first out for compression and in any order for crypto; a clock reading is a
parameter. Loops that wait for hardware carry a bound on the number of polls (`polls`, `rounds`,
`bursts`), and every statement holds for every bound. Giving up is reported as `Waiting`, `Polling` or
`Unfinished`, and proved to happen only when the bound was used up by a device that was idle too often:
each device counts its polls and the calls that asked for something and moved nothing. Operation objects are the numbers a pool hands out, mbufs are values in
tables indexed by buffer number, and times and averages are reals.

## Model

| member | source | states |
|---|---|---|
| RaftExact.SafetyExactly | dpdk-23.11/app/raft/election.c:82-174 | Election Safety (section 5.2 of the Raft paper) holds in every run exactly if the cluster has at most three nodes, or the network neither delivers a packet twice nor a vote request below its receiver's term |
| RaftExact.StaleRequestsUnsafe | dpdk-23.11/app/raft/election.c:119-137 | With four or more nodes and late vote requests, even without any duplicate delivery, some run has two leaders in one term: the vote branch never looks at the request's term |
| RaftExact.DuplicatesUnsafe | dpdk-23.11/app/raft/election.c:140-149 | With four or more nodes and repeated delivery some run has two leaders in one term: the tally counts packets, not voters |
| RaftExact.Campaign | dpdk-23.11/app/raft/election.c:82-100 | Timeouts in a row leave requests of all terms up to m on the wire |
| RaftExact.DuplicatesElect | dpdk-23.11/app/raft/election.c:140-149 | One response, delivered often enough, elects its candidate |
| RaftExact.StaleRequestsElect | dpdk-23.11/app/raft/election.c:107-149 | One voter, answering old requests of one candidate in the newest term, elects it |
| RaftExact.LoneNode | dpdk-23.11/app/raft/election.c:60-68 | A cluster of one sends nothing and never has a leader |
| RaftSafety.SafeIfCountedOnce | dpdk-23.11/app/raft/election.c:82-174 | No term has two leaders in a run in which no candidate counts one voter's response of one term twice |
| RaftSafety.SafeIfFresh | dpdk-23.11/app/raft/election.c:82-174 | At-most-once delivery and no stale requests imply that no response is counted twice, hence Election Safety, with no assumption on counting |
| RaftSafety.SafeIfSmall | dpdk-23.11/app/raft/election.c:82-174 | Two and three nodes are safe on any network |
| RaftSafety.OneVotePerTerm | dpdk-23.11/app/raft/election.c:85-137 | All votes a node ever sends in a term, its own candidacy included, name one candidate, whatever is lost, repeated or reordered |
| RaftSafety.TermsGrow | dpdk-23.11/app/raft/election.c:85-115 | Terms never decrease along a run |
| RaftSafety.TermsAreReached | dpdk-23.11/app/raft/election.c:85-137 | No packet carries a term that its sender has not reached |
| RaftSafety.NodeStateInv | dpdk-23.11/app/raft/election.c:69-189 | In every cluster of every run, auto-fail included: timer armed exactly on non-leaders, a non-follower voted for itself, a candidate's tally is one plus its counted responses and short of a majority, a leader's is the smallest majority, so the clamp at line 160 never acts |
| RaftSafety.LeadersOnRecord | dpdk-23.11/app/raft/election.c:148-159 | Whoever was leader in a term has announced it on the wire |
| RaftSafety.HeartbeatAuthority | dpdk-23.11/app/raft/election.c:159-204 | Every heartbeat on the wire was sent by a step after which its sender was leader of its term |
| RaftSafety.OneHeartbeatAuthor | dpdk-23.11/app/raft/election.c:193-204 | In a safe run all heartbeats of a term carry one id |
| RaftSafety.LeaderStability | dpdk-23.11/app/raft/election.c:101-189 | In a safe run a leader of a term stops leading only by handling, while live, a packet of a newer term |
| RaftHeartbeat.HeartbeatObeyed | dpdk-23.11/app/raft/election.c:104-189 | Over runs: a live node that is not in a newer term becomes a follower of a heartbeat's term with its timer armed, keeps its vote of that term or has none, sends nothing, and no other node changes |
| RaftHeartbeat.OldHeartbeatIgnored | dpdk-23.11/app/raft/election.c:176-189 | An older heartbeat changes nothing |
| RaftHeartbeat.ReignSettles | dpdk-23.11/app/raft/election.c:176-204 | Once the heartbeats of a leader reached every live peer, with nothing else in between, it still leads and every live node not in a newer term follows it with its timer armed: none is a candidate |
| RaftHeartbeat.LeaderCanSettle | dpdk-23.11/app/raft/election.c:176-204 | From every reachable cluster a live leader has such a course of heartbeats |
| RaftHeartbeat.TickSends | dpdk-23.11/app/raft/election.c:193-204 | A heartbeat tick of a live leader sends one heartbeat to each peer, any other tick nothing: a failed leader is mute |
| RaftHeartbeat.Elected | dpdk-23.11/app/raft/election.c:140-172 | A node becomes leader only as a live candidate by the response that completes its majority; it then sends one heartbeat to each peer, and its failure is scheduled exactly if the test asks for it |
| RaftHeartbeat.FailedIsDeaf | dpdk-23.11/app/raft/election.c:104-105 | A failed node drops every packet |
| RaftHeartbeat.FailureFlags | dpdk-23.11/app/raft/election.c:35-50 | In every run exactly the failed nodes have a recovery scheduled, and without the auto-fail test none ever fails |
| RaftHeartbeat.FlagSteps | dpdk-23.11/app/raft/election.c:35-50 | Failing and recovering touch nothing of role, term, vote, tally and election timer |
| RaftSafety.OneLeaderIfDistinct | dpdk-23.11/app/raft/election.c:146-149 | Quorum intersection: two announced leaders of one term share a voter, hence are one |
| RaftSafety.QuorumsMeet | dpdk-23.11/app/raft/election.c:146-146 | Two majorities of one cluster share a node |
| RaftSafety.FreshRun | dpdk-23.11/app/raft/election.c:119-149 | On a fresh network no vote is sent twice, each response answers a delivered request, none is counted twice |
| RaftProgress.RoundCompletes | dpdk-23.11/app/raft/election.c:60-162 | An undisturbed round completes: once every request and half as many responses as nodes arrived, in any order and with any repetition, the opener leads and every other node is its follower |
| RaftProgress.RoundCanComplete | dpdk-23.11/app/raft/election.c:60-162 | From every reachable cluster with no node failed, a node in the newest term has such a round |
| RaftProgress.RoundState | dpdk-23.11/app/raft/election.c:101-162 | After each prefix of the round, opener and voters are in the state that the requests and responses delivered so far determine |
| RaftInvariant.RunInv | dpdk-23.11/app/raft/election.c:82-189 | The inductive invariant (node shapes, one vote, backed announcements, tallies) holds along every run |
| RaftInvariant.TimeoutKeeps | dpdk-23.11/app/raft/election.c:218-241 | A timeout keeps the invariant |
| RaftInvariant.ReceiveKeeps | dpdk-23.11/app/raft/election.c:101-191 | Handling any packet keeps the invariant |
| RaftInvariant.HeartbeatKeeps | dpdk-23.11/app/raft/election.c:193-204 | A heartbeat tick keeps the invariant |
| RaftInvariant.FlagKeeps | dpdk-23.11/app/raft/election.c:35-50 | Auto-fail on or off keeps the invariant |
| RaftNode.BroadcastReaches | dpdk-23.11/app/raft/election.c:60-68 | A broadcast reaches each peer exactly once, and no one else |
| RaftNode.Node.constructor | dpdk-23.11/app/raft/election.c:69-81 | A fresh node is a follower of term 0 without a vote, timer armed |
| RaftNode.Node.BroadcastRaftPacket | dpdk-23.11/app/raft/election.c:60-68 | The loop sends the broadcast of its specification |
| RaftNode.Node.RunElection | dpdk-23.11/app/raft/election.c:82-100 | New term, vote for self, one request per peer, timer restarted |
| RaftNode.Node.ElectionTimeoutCb | dpdk-23.11/app/raft/election.c:218-241 | Opens an election unless the node leads |
| RaftNode.Node.RaftSendHeartbeat | dpdk-23.11/app/raft/election.c:193-204 | Heartbeats from live leaders only |
| RaftNode.Node.RaftHandlePacket | dpdk-23.11/app/raft/election.c:101-191 | The in-place handler does what the step function of the cluster model does: new state and packets sent |
| RaftNode.Node.FailEnableCb | dpdk-23.11/app/raft/election.c:41-50 | The node goes deaf and its recovery is scheduled |
| RaftNode.Node.FailDisableCb | dpdk-23.11/app/raft/election.c:35-39 | The node recovers |
| CompressRunner.VerifyTest | dpdk-23.11/app/test-compress-perf/comp_perf_test_verify.c:24-449 | The whole verify test of a codec pair whose halves undo each other, on any first-in first-out device that takes partial bursts: it succeeds exactly if each compressed chunk of the input fits as many output segments as the chunk has input segments; then both passes went through the device with every buffer once and in order, the decompressed data is the input, and the compressed data is the compressed chunks in order and stays within its buffer. It is left unfinished only by a pass that made all its polls, on a device idle in so many calls that polls < 2 * buffers + idle calls |
| CompressRunner.ChainsAreChunks | dpdk-23.11/app/test-compress-perf/comp_perf_test_common.c:379-466 | Input chain i carries chunk i of the data in as few segments as possible |
| CompressRunner.FirstPassFits | dpdk-23.11/app/test-compress-perf/comp_perf_test_verify.c:100-105 | The output chains have room exactly for data that a caller can check beforehand |
| CompressRunner.SecondPass | dpdk-23.11/app/test-compress-perf/comp_perf_test_verify.c:414-447 | Decompressed chunks always fit where the chunks came from, and joined they are the data |
| CompressRunner.OutputsBound | dpdk-23.11/app/test-compress-perf/comp_perf_test_common.c:252-254 | A pass that fits writes no more than the segments of its chains hold |
| CompressRunner.OutputsPacked | dpdk-23.11/app/test-compress-perf/comp_perf_test_verify.c:227-263 | The output of the compress pass is the compressed chunks of the input, one after another |
| CompressRunner.OutputsJoin | dpdk-23.11/app/test-compress-perf/comp_perf_test_verify.c:245-261 | The outputs of the decompress pass, joined, are the chains of the first |
| CompressVerify.MainLoop | dpdk-23.11/app/test-compress-perf/comp_perf_test_verify.c:51-391 | One pass: the output is the concatenation of all results in buffer order and each chain holds its own; or the output holds the results before the first that does not fit; or all polls were made and were too few for the idle calls of the device |
| CompressVerify.Pass.Run | dpdk-23.11/app/test-compress-perf/comp_perf_test_verify.c:136-374 | For any acceptance pattern the accepted buffer ids are exactly 0, 1, .., total - 1 in order, nothing stays in the slots or the device, and each operation object is back in the pool once. The pass stops early only at the first result without room, or after exactly `polls` polls with polls < 2 * total + idle calls: the drain loop cannot be cut short |
| CompressVerify.Pass.Send | dpdk-23.11/app/test-compress-perf/comp_perf_test_verify.c:147-219 | An enqueue half keeps the invariant: the count of needed operations is never negative, what is lent is unused plus in flight and at most total_bufs, so the pool of twice that never runs out; something is enqueued or the call was idle |
| CompressVerify.Pass.Receive | dpdk-23.11/app/test-compress-perf/comp_perf_test_verify.c:221-289 | A dequeue half keeps the invariant and takes something back or the poll was idle; or the output stops before the first result that does not fit |
| CompressVerify.Pass.MoveToFront | dpdk-23.11/app/test-compress-perf/comp_perf_test_verify.c:156-161 | The memmove keeps the unsent operations in order |
| CompressVerify.Pass.Refill | dpdk-23.11/app/test-compress-perf/comp_perf_test_verify.c:163-173 | New operations are distinct from all operations in use, and the bulk get cannot fail |
| CompressVerify.Pass.Attach | dpdk-23.11/app/test-compress-perf/comp_perf_test_verify.c:175-199 | Each new operation is attached to the next buffer, whose output chain is reset, and no operation in flight is touched |
| CompressVerify.Pass.Offer | dpdk-23.11/app/test-compress-perf/comp_perf_test_verify.c:204-219 | What the device leaves stays in the slots, still numbered consecutively |
| CompressVerify.Pass.CopyOut | dpdk-23.11/app/test-compress-perf/comp_perf_test_verify.c:227-263 | Results are appended in buffer order, up to the first that ran out of space |
| CompressVerify.Pass.SetLengths | dpdk-23.11/app/test-compress-perf/comp_perf_test_verify.c:266-285 | Each finished chain becomes a packet that reads back its result; no other chain changes |
| CompressVerify.Pass.GiveBack | dpdk-23.11/app/test-compress-perf/comp_perf_test_verify.c:286-288 | Finished operations return to the pool, each in one place again |
| CompressVerify.ResetChain | dpdk-23.11/app/test-compress-perf/comp_perf_test_verify.c:183-189 | A reset chain offers all its room |
| CompressVerify.NewObjects | dpdk-23.11/app/test-compress-perf/comp_perf_test_verify.c:164-166 | Objects lent by the pool are distinct and not in use |
| CompressVerify.LedgerOffered | dpdk-23.11/app/test-compress-perf/comp_perf_test_verify.c:204-219 | Moving a prefix of the slots to the device keeps one place per operation and the numbering |
| CompressVerify.LedgerCollected | dpdk-23.11/app/test-compress-perf/comp_perf_test_verify.c:286-288 | Moving finished operations to the pool keeps one place per operation and the numbering |
| CompressBuffers.FillThenRead | dpdk-23.11/app/test-compress-perf/comp_perf_test_verify.c:245-259 | What a device writes across the segments of a chain is what is read back, wherever the boundaries fall |
| CompressBuffers.TrimThenRead | dpdk-23.11/app/test-compress-perf/comp_perf_test_verify.c:266-285 | Setting the data lengths changes nothing that a reader of the result sees |
| CompressBuffers.TrimChain | dpdk-23.11/app/test-compress-perf/comp_perf_test_verify.c:271-283 | The length-setting loop computes the trimmed chain |
| CompressBuffers.ReadChain | dpdk-23.11/app/test-compress-perf/comp_perf_test_verify.c:245-259 | Reads the first bytes of a packet from a contiguous or gathered chain, and nothing if the packet is too short |
| CompressSegments.FindBufSize | dpdk-23.11/app/test-compress-perf/comp_perf_test_common.c:57-78 | The shift loop finds eight for no input, the smallest power of two above a small input, 11/10 of a large one; always more than the input |
| CompressSegments.BufferMemory.AllocateMemory | dpdk-23.11/app/test-compress-perf/comp_perf_test_common.c:234-296 | Numbers of segments and buffers are the rounded-up quotients; each mbuf pool holds total_segs |
| CompressSegments.BufferMemory.PrepareBufs | dpdk-23.11/app/test-compress-perf/comp_perf_test_common.c:365-552 | Lossless and exactly sized: the joined chains are the input, all chains but the last are whole, output chains match them segment by segment, no data remains and both pools are drawn down to nothing |
| CompressSegments.BufferMemory.AddBuffer | dpdk-23.11/app/test-compress-perf/comp_perf_test_common.c:379-549 | One more input chain with its output chain of equally many segments |
| CompressSegments.BufferMemory.BuildInputChain | dpdk-23.11/app/test-compress-perf/comp_perf_test_common.c:380-466 | All segments but the last are full, the last is not empty, at most max_sgl_segs of them, contents the next stretch of input |
| CompressSegments.BufferMemory.BuildOutputChain | dpdk-23.11/app/test-compress-perf/comp_perf_test_common.c:468-548 | As many full-sized output segments as the input chain has |
| CompressSegments.BuffersDone | dpdk-23.11/app/test-compress-perf/comp_perf_test_common.c:241-296 | Rounded-up division: after total_bufs chains the data is used up in exactly total_segs segments |
| CompressSegments.BufferNeeded | dpdk-23.11/app/test-compress-perf/comp_perf_test_common.c:379-379 | While chains are missing, data is left for them |
| CryptoCyclecount.Bench.BenchBurst | dpdk-23.11/app/test-crypto-perf/cperf_test_pmd_cyclecount.c:332-376 | For any partial acceptance and any completion order the pool ends as it began, counters agree and total_ops operations went through the device; it stops for lack of operations exactly if the pool cannot fill the first iteration, and it waits in vain only if polls or rounds were used up by idle calls or the ring has no descriptors |
| CryptoCyclecount.Bench.Iterate | dpdk-23.11/app/test-crypto-perf/cperf_test_pmd_cyclecount.c:339-375 | One iteration returns to the pool exactly what it lent, although finished operations overwrite the slots |
| CryptoCyclecount.Bench.BuildOps | dpdk-23.11/app/test-crypto-perf/cperf_test_pmd_cyclecount.c:197-230 | Succeeds exactly if the pool has enough; a failed build keeps every whole burst it got |
| CryptoCyclecount.Bench.BenchEnq | dpdk-23.11/app/test-crypto-perf/cperf_test_pmd_cyclecount.c:234-260 | What the device holds more is exactly the prefix of the slots reported as enqueued, and the prefix falls short only after one call in which the device took nothing |
| CryptoCyclecount.Bench.BenchDeq | dpdk-23.11/app/test-crypto-perf/cperf_test_pmd_cyclecount.c:264-284 | What came back plus what is still in flight is what was in flight; the slots behind are untouched; it gives up only after all polls, at most as many as operations returned plus idle calls |
| CryptoCyclecount.Bench.FillAndDrain | dpdk-23.11/app/test-crypto-perf/cperf_test_pmd_cyclecount.c:346-362 | Fill and drain leave in the slots a permutation of what they held, or all polls were used up |
| CryptoCyclecount.Returned | dpdk-23.11/app/test-crypto-perf/cperf_test_pmd_cyclecount.c:361-375 | After the drain the slots hold a permutation of what was allocated |
| CryptoThroughput.Bench.Run | dpdk-23.11/app/test-crypto-perf/cperf_test_throughput.c:146-260 | Every operation lent was accepted as often as it was lent, total_ops in all, none is left in slots or device, the pool is whole. It stops for lack of operations only when the next request exceeds what the pool holds, with the books balanced, so that the device and the request together exceed the whole pool; hence never with a pool of total_ops. It waits in vain only if the device used up the iterations or polls by idle calls |
| CryptoThroughput.Bench.Refill | dpdk-23.11/app/test-crypto-perf/cperf_test_throughput.c:158-195 | New operations in front, unsent ones behind them in order: neither the bulk get nor the memmove overwrites a live operation; a failed get changes nothing |
| CryptoThroughput.Bench.MoveUnsent | dpdk-23.11/app/test-crypto-perf/cperf_test_throughput.c:184-195 | The memmove to the tail keeps the unsent operations in order |
| CryptoThroughput.Bench.Send | dpdk-23.11/app/test-crypto-perf/cperf_test_throughput.c:156-220 | The number of new operations is never negative and, with unsent ones left, at most the number sent last time; it fails exactly if the pool holds too few, and then changes nothing |
| CryptoThroughput.Bench.Collect | dpdk-23.11/app/test-crypto-perf/cperf_test_throughput.c:224-240 | Operations taken back return to the pool once |
| CryptoThroughput.Bench.StarvedDevice | dpdk-23.11/app/test-crypto-perf/cperf_test_throughput.c:166-175 | When a bulk get fails, the operations in the device and the next burst together exceed the whole pool |
| CryptoThroughput.BooksRefilled | dpdk-23.11/app/test-crypto-perf/cperf_test_throughput.c:166-175 | A refill keeps lent, accepted and unsent operations in balance |
| CryptoThroughput.BooksOffered | dpdk-23.11/app/test-crypto-perf/cperf_test_throughput.c:209-220 | An enqueue keeps the balance |
| CryptoThroughput.BooksCollected | dpdk-23.11/app/test-crypto-perf/cperf_test_throughput.c:224-232 | A dequeue keeps the balance |
| SenseSamples.Rings.AvgInWindow | dpdk-23.11/app/sense/stats.c:96-121 | On a clock that does not run backwards the backward walk with early exit returns the mean of exactly those of the newest SENSE_MAX_SAMPLES samples that carry a time and are no older than the window, and -1 if there are none |
| SenseSamples.Rings.WalkBack | dpdk-23.11/app/sense/stats.c:105-118 | The loop adds up exactly the samples that count |
| SenseSamples.Rings.Append | dpdk-23.11/app/sense/stats.c:84-94 | One peer's history grows by the sample, and its ring holds the newest of it; an invalid peer changes nothing |
| SenseSamples.Rings.GetRttAvg | dpdk-23.11/app/sense/stats.c:123-128 | -1 for an invalid peer, the window average otherwise |
| SenseSamples.WalkIsExact | dpdk-23.11/app/sense/stats.c:111-118 | Leaving the walk at the first sample that does not count loses none that does |
| SenseSamples.HoldsNext | dpdk-23.11/app/sense/stats.c:88-93 | One append keeps a ring equal to the end of its history, across the wrap |
| SenseSamples.CountedSuffix | dpdk-23.11/app/sense/stats.c:113-114 | In a history split into old and recent samples the recent ones are counted |
| SenseSamples.CountedExactly | dpdk-23.11/app/sense/stats.c:113-114 | Exactly the samples with a time and an age up to the window count, each as often as it occurs |
| SenseSamples.MeanMoves | dpdk-23.11/app/sense/stats.c:115-120 | The mean of n samples and one more moves by an n + 1-st of the distance of that sample |
| SenseSamples.NewestAreLast | dpdk-23.11/app/sense/stats.c:88-93 | A ring stands for the last samples up to its size |
| SenseCounters.RttTable.RecordPing | dpdk-23.11/app/sense/stats.c:48-59 | A ping is recorded for its peer only, with its time and nothing else of the entry changed, and the closed form of the counters persists |
| SenseCounters.RttTable.Update | dpdk-23.11/app/sense/stats.c:61-82 | A pong is recorded for its peer only and the closed form persists: loss_count is pings minus pongs above their lowest value so far, and ping_sent is never below pong_recv |
| SenseCounters.LowestIsLeast | dpdk-23.11/app/sense/stats.c:54-58 | The lowest balance is the least over all moments, and reached |
| SenseCounters.LossIsBalance | dpdk-23.11/app/sense/stats.c:54-58 | loss_count is pings minus pongs exactly if no moment had more pongs than pings |
| SenseCounters.LossSinceLowest | dpdk-23.11/app/sense/stats.c:78-81 | In general it is the balance gained since a moment of least balance |
| SenseCounters.EwmaBounds | dpdk-23.11/app/sense/stats.c:69-74 | The smoothed round trip time stays within the range of positive samples |
| SenseCounters.EwmaFollows | dpdk-23.11/app/sense/stats.c:69-74 | After a jump of the round trip time four fifths of the distance remain after each sample |
| RssHash.ToeplitzHash | dpdk-23.11/usertools/dpdk-rss-flows.py:84-105 | The loops compute the exclusive or of the 32-bit key windows at the set data bits, and fail with an index error exactly if some set bit lacks its whole window |
| RssHash.Keyword | dpdk-23.11/usertools/dpdk-rss-flows.py:93-101 | Four bytes and the start of a fifth, shifted together, are the 32 key bits from that bit on |
| RssHash.Linear | dpdk-23.11/usertools/dpdk-rss-flows.py:84-105 | The hash of a difference is the difference of the hashes, for equal lengths |
| RssHash.KeyLongEnough | dpdk-23.11/usertools/dpdk-rss-flows.py:84-105 | A key four bytes longer than the data never fails |
| RssFlows.GetQueueIndex | dpdk-23.11/usertools/dpdk-rss-flows.py:107-116 | The queue is the table entry at the hash modulo the table size, or the hash fails |
| RssFlows.Queue | dpdk-23.11/usertools/dpdk-rss-flows.py:107-116 | The queue is the table entry at the hash modulo the table size, below the queue count, and defined exactly where the key covers the packet |
| RssFlows.MaskIsRemainder | dpdk-23.11/usertools/dpdk-rss-flows.py:114-114 | Masking with the table size minus one takes the remainder by the table size, for every hash and every power of two |
| RssFlows.ValueConcat | dpdk-23.11/usertools/dpdk-rss-flows.py:105-114 | Bits are positional notation, most significant first |
| RssFlows.QueueReached | dpdk-23.11/usertools/dpdk-rss-flows.py:114-116 | No queue is out of reach: for a table no smaller than the queue count some hash leads to each |
| RssFlows.ReverseSwaps | dpdk-23.11/usertools/dpdk-rss-flows.py:32-45 | A reversed packet hashes destination before source, for addresses and ports alike |
| RssFlows.RetaCovers | dpdk-23.11/usertools/dpdk-rss-flows.py:80-80 | The table names exactly the queues below both the queue count and the table size |
| RssFlows.BalancedTraffic | dpdk-23.11/usertools/dpdk-rss-flows.py:119-152 | Pairwise distinct queues, and reverse queues when checked; no packet looked at could be added; without the reverse check each queue is represented by its first packet; with all flows nothing is left out; it stops early exactly with all queues filled, and fails only at a packet one of whose needed hashes fails |
| RssFlows.FilledServes | dpdk-23.11/usertools/dpdk-rss-flows.py:150-152 | After the early stop, too, no template packet could be added |
| RssFlows.FlowsCountQueues | dpdk-23.11/usertools/dpdk-rss-flows.py:119-152 | Without the reverse check there are as many flows as queues the template can hit |
| RssFlows.ChosenAdd | dpdk-23.11/usertools/dpdk-rss-flows.py:136-148 | Taking a packet keeps the choice distinct and maximal so far |
| RttEstimator.Timeouts.SenseUpdate | dpdk-23.11/app/raft-netelect-backup/timeout.c:21-31 | The arrays hold the estimate of the peer's whole sample history; other peers keep theirs |
| RttEstimator.Timeouts.GetRto | dpdk-23.11/app/raft-netelect-backup/timeout.c:34-37 | Mean plus four deviations of the history |
| RttEstimator.Timeouts.ComputePenalty | dpdk-23.11/app/raft-netelect-backup/timeout.c:38-52 | The loop averages the known means of the other peers |
| RttEstimator.EstimateBounds | dpdk-23.11/app/raft-netelect-backup/timeout.c:21-37 | Samples in [lo, hi] with lo > 0 keep the mean in [lo, hi], the deviation in [0, max(hi/2, hi - lo)] and the timeout at most hi plus four times that |
| RttEstimator.MeanFalls | dpdk-23.11/app/raft-netelect-backup/timeout.c:21-31 | On samples that never increase the mean never increases and never drops below the latest |
| RttEstimator.PenaltyBounds | dpdk-23.11/app/raft-netelect-backup/timeout.c:38-52 | The penalty lies between the means it averages and is zero exactly if no other peer is known |
| RttEstimator.PenaltyExactly | dpdk-23.11/app/raft-netelect-backup/timeout.c:38-52 | With three nodes: the average of both other means, the one that is known, or zero |
| RttEstimator.SampleWeights | dpdk-23.11/app/raft-netelect-backup/timeout.c:28-37 | A sample moves the mean by an eighth and the deviation by a quarter of the distance, as section 2.3 of RFC 6298 has it, and the timeout is the mean plus four deviations |
| RttEstimator.MeanFollows | dpdk-23.11/app/raft-netelect-backup/timeout.c:21-31 | After a jump of the round trip time seven eighths of the distance remain after each sample |
| RttEstimator.TimeoutSettles | dpdk-23.11/app/raft-netelect-backup/timeout.c:21-37 | On a constant round trip time the deviation shrinks by a quarter with each sample and the timeout approaches the round trip time |
| ClockFilter.Receiver.OnBroadcast | dpdk-23.11/app/raft-netelect-backup/networking.c:244-277 | The peer's estimate is fed the best delay after the filter step, as a round trip time; fed so alone, its mean never increases and is never below its latest sample |
| ClockFilter.Receiver.Filter | dpdk-23.11/app/raft-netelect-backup/networking.c:252-272 | The branch computes the filter step of its specification, for this peer only |
| ClockFilter.LeastDelayExactly | dpdk-23.11/app/raft-netelect-backup/networking.c:252-272 | best_owd is the least delay the two clocks show exactly if they never show a negative one |
| ClockFilter.FirstStamp | dpdk-23.11/app/raft-netelect-backup/networking.c:253-261 | The first broadcast fixes the scale to the ratio of the clock rates, best_owd to the absolute raw delay, and the offset to zero or, for a negative raw delay, to twice that delay |
| ClockFilter.LaterStamp | dpdk-23.11/app/raft-netelect-backup/networking.c:263-272 | A later broadcast leaves the smaller of its absolute corrected delay and the best one, and moves the offset by twice its corrected delay exactly if that is negative and nearer to zero than the best |
| ClockFilter.BestIsMet | dpdk-23.11/app/raft-netelect-backup/networking.c:252-272 | The offset is that of the broadcast that set the best delay: some broadcast, corrected by it, shows exactly best_owd |
| ClockFilter.LeastCorrectedExactly | dpdk-23.11/app/raft-netelect-backup/networking.c:252-272 | Also with negative raw delays: best_owd is the least raw delay minus the first offset exactly if no raw delay lies below that offset |
| ClockFilter.ReportsFall | dpdk-23.11/app/raft-netelect-backup/networking.c:263-276 | The round trip times fed to the estimator never increase and are never negative |
| ClockFilter.ImproveFacts | dpdk-23.11/app/raft-netelect-backup/networking.c:263-272 | A broadcast never worsens the best delay and never raises the offset; it moves the offset exactly for a corrected delay below zero and nearer to it than the best |
| ClockFilter.SettledForm | dpdk-23.11/app/raft-netelect-backup/networking.c:263-272 | While no delay falls below the offset, the offset stays and best_owd is the least corrected delay |

## Left out

- CompressRunner.VerifyTest: ends unfinished when its polls are used up, where the source would go on polling; the two transforms of one device appear as two devices.
- CompressVerify.Pass.Run: bounds the polls in place of the source's unbounded loops, which end only if the hardware makes progress.
- CryptoCyclecount.Bench.BenchBurst: bounds rounds and polls in place of the source's unbounded loops; the allocation benchmark before the main loop (lines 306-319) is not modelled.
- CryptoThroughput.Bench.Run: bounds bursts and polls in place of the source's unbounded loops.
- ClockFilter.Receiver.OnBroadcast: requires a peer id within the tables and a clock rate above zero, which the branch does not check; what C does otherwise (access outside the table, division by zero) is not modelled.
- SenseSamples.Rings.AvgInWindow: requires that the time stamp counter does not run backwards; the unsigned wrap of a negative age is not modelled.
- In place update of mbufs and operations through pointers: chains and operation records are entries of tables that the pass reassigns, so aliasing between two chains is not expressible.
- Integer widths: terms, time stamps, counters and sizes are unbounded; wrap of 16, 32 and 64 bit fields is not modelled, except that the hash works on 32 bits.
- Floating point rounding: averages, estimates and the 11/10 expansion are exact.
- Raft: node restart, forged or misaddressed packets, several lcores in lcore_main at once, failed sends, last_heard_us and latency logging; when timers fire is left to the steps of a run, so rand_in_range and the timeout bounds do not appear.
- The earlier election handler of raft-netelect-backup: the same branches with three fixed nodes and without auto-fail, so it would repeat the same statements.
- Compression: decompress-only mode, external mbufs, allocation failures of rte_malloc and mbuf pools, the force-stop flag, device error statistics, statuses other than success and out of space (the source leaves its loop with result 0 there), and the bulk put after the end label.
- comp_perf_test_throughput.c and comp_perf_test_cyclecount.c: the burst discipline of the verify test repeated over iterations, without data checks.
- Crypto: filling operations with data, linearization, time measurement and csv output.
- Sense: the snapshot timer, the all-peers variants and the report packet, which only loop over the average.
- RSS: the iteration over address and port ranges; the template is an arbitrary sequence of packets. Argument parsing, driver tables and output are left out; table sizes are powers of two, as parsing and driver tables enforce.
- RTT: record_ps_rx and the ping and pong branches, whose send functions are commented out.
- DPDK library code, NIC setup, headers and checksums, config loaders, the other applications and scripts of the repository.

# Cloudping, modelled and proved

Cloudping measures networks from many vantage points: agents ping, trace and scan on request, a hub passes requests and
events on, and a browser front end shows them. This project models the parts of it whose correctness is not obvious from
one function at a time, and proves what they promise on all inputs, all runs and all interleavings.

## What is modelled

**Prefixes and blocks.** `IPAddr.dfy`, `Segments.dfy`, `TrieRouter.dfy` and `LongestPrefix.dfy` model the browser's route
table: the bit-field extractor, the derivation of the strides, insertion by path copying, and lookup. `GroupRouter.dfy`
is the agent's router, which groups routes by prefix length. `Subnets.dfy` and `SubsetCheck.dfy` decide whether a block
lies in a union of blocks, `BlockMembers.dfy` enumerates a block and indexes into it. `Bits.dfy`, `Bytes.dfy` and
`Masks.dfy` hold the arithmetic they share: bitwise operations on numbers defined digit by digit, big-endian values,
prefix masks.

**Rate limiters.** `SlidingWindow.dfy` is the lock-free limiter: threads interleave loads, computations and swaps under a
monotone clock, and the full log of admissions is what the pruned list must stand for. `TokenPool.dfy` is the pool of
tokens behind an actor, `Throttle.dfy` any number of pipelines that share it.

**Probing.** `Tracker.dfy` models the probe tracker: each request to its actor is one atomic step, and running timers, due
timeouts and scheduled clean-ups are steps that may come at any time. `Pinger.dfy` (stop and wait) and `Scanner.dfy` (the
pipelined block scan) run their goroutines over it, `BlockScan.dfy` ties a scan to the block it was asked for, and
`Progress.dfy` bounds the number of steps.

**Streams, requests, statistics, cache.** `WordStream.dfy` and `LineStream.dfy` are the chunk-wise parsers; `Text.dfy`,
`Counting.dfy`, `IntList.dfy`, `Request.dfy`, `RequestRoundTrip.dfy` and `QueryFields.dfy` the ping request and its query form; `StableSort.dfy` and
`TraceStats.dfy` the traceroute statistics; `IpInfoCache.dfy` the copy-on-write cache.

Objects whose methods change their fields are classes, loops are loops with their invariants, and both are proved against
functions or relations about which the main results are then stated. Loops that run concurrently (the swap loop of the
sliding window, the throttling pipelines, the goroutines of ping and scan, overlapping cache calls) are state machines with
one step for each point where another goroutine can come between; where a class and a state machine describe the same
object (`Tracker`, `TokenPool`, `IpInfoCache`) they share the functions that say what a request does. Histories (what was
admitted, granted, sent, answered) are part of the state so that results can speak about whole runs.

## Where the code does not do what it is meant to

The model follows the code; each of these is proved.

- The stride loop (web/utls/router.ts:100-102) subtracts a predecessor it has already overwritten. The route table is a
  longest-prefix router for given prefix lengths if and only if every length is zero or a sum p[i] + p[i-2] + p[i-4] + ...
  of the sorted lengths p, repeated lengths included (`LongestPrefix.LoopRoutesIffAlternateSums`). So any three different
  positive lengths without repetition go wrong, and so do two /8 routes with one /16. True consecutive differences of the
  sorted lengths are right for every table.
- A ping with a packet limit below 1 never stops by itself (pkg/pinger/ping.go:260; `Pinger.StopsOnlyAtPositiveLimit`).
- The counting loop of a range wraps at the largest int (pkg/utils/parse.go:25-64). With a <= b, `range(a;b;s)` never ends
  if and only if MAX - (MAX - a) mod g <= b, where g is the largest power of two dividing s, and 2^64 for s = 0: so for s = 0
  and, with odd s, for b = MAX. When it ends after wrapping the list is wrong: `range(1;2;9223372036854775807)` is accepted
  as 1, -9223372036854775808, -1 (`Counting.EndsIff`, `IntList.RangeStepText`, `IntList.WrappedRangeText`). A three-number
  range accepts any text behind its closing parenthesis.
- The link-local check of a scan looks only at the address as written (pkg/pinger/scaner.go:140-143): 169.0.0.0/8 is
  admitted. `BlockScan.AdmittedHoldsLinkLocal` says exactly which admitted blocks hold link-local addresses.
- Overlapping cache updates lose entries (pkg/ipinfo/cache.go:105-151; `IpInfoCache.OverlapLosesUpdate`), though they never
  mix addresses or serve an expired entry.
- A printed request does not come back when a name holds a comma or outer blanks, an optional string is empty, the TTL list
  is empty or absent (it reads as 64), an automatic TTL starts below zero, or an HTTP protocol is unknown
  (pkg/pinger/request.go:119-364; `RequestRoundTrip.PrintedParses`).
- A line that ends in a carriage return loses it when printed with a bare newline (web/apis/globalping.ts:284).

## Model

| member | source | states |
|---|---|---|
| IPAddresses.IPAddr.GetMaskedValue | web/utls/ipaddr.ts:29-66 | the byte loop returns the bit field at the offset, cut off at the end of the address, for every address, offset and length |
| Bytes.FieldAsArithmetic | web/utls/ipaddr.ts:29-66 | that field in closed form: floor(A / 2^(T-off-n)) mod 2^n of the big-endian value A of T bits |
| IPAddresses.CutFromByte | web/utls/ipaddr.ts:48-51 | masking a byte on both sides and shifting cuts the field out of it |
| IPAddresses.AppendFromByte | web/utls/ipaddr.ts:54-61 | shifting the high bits of the next byte in appends them to the value |
| Bytes.FieldConcat | web/utls/ipaddr.ts:29-66 | adjacent fields concatenate to the field that spans both |
| Bytes.PrefixAgreement | web/utls/ipaddr.ts:29-66 | two numbers agree on m + n leading bits if and only if they agree on m and on the field of the next n |
| IPAddresses.IPAddr.ToMask | web/utls/ipaddr.ts:68-81 | every bit past the prefix is cleared, as a number and byte by byte |
| Segments.SubtractPredecessors | web/utls/router.ts:100-102 | the in-place loop leaves at every index the length less the entry already overwritten before it |
| Segments.OverwrittenEntries | web/utls/router.ts:100-102 | on sorted lengths s[i] = p[i] - s[i-1], and no entry is negative or above its length |
| Segments.GetTrieTreeSegmentLengths | web/utls/router.ts:91-107 | sort, overwrite, keep what is positive; the strides of the table |
| Segments.SortAscending | web/utls/router.ts:96-98 | lowest first, every length with its multiplicity |
| Segments.LargestCutIsExact | web/utls/router.ts:91-107 | a length is filed at its own depth if and only if it is a prefix sum of the strides |
| Segments.DifferencesCutEverywhere | web/utls/router.ts:96-106 | true consecutive differences of the sorted lengths have every length among their prefix sums |
| Segments.OverwriteMisses24 | web/utls/router.ts:96-106 | lengths 8, 16, 24 give strides 8, 8, 16, whose prefix sums miss 24 |
| TrieRouter.InsertFiles | web/utls/router.ts:110-146 | an insertion adds its route at the node its own fields lead to, behind the routes there, and changes no other node |
| TrieRouter.InsertKeepsShape | web/utls/router.ts:110-146 | insertion keeps the stride of every level and never reaches past the address |
| TrieRouter.InsertAllFiles | web/utls/router.ts:184-196 | after any insertions a node holds, in insertion order, exactly the routes whose fields spell its path |
| TrieRouter.LookupFindsDeepest | web/utls/router.ts:48-89 | lookup never throws and returns the deepest non-empty node on the path of the address, or the start node |
| TrieRouter.FieldsArePrefixes | web/utls/router.ts:70-73 | two addresses take the same path if and only if they agree on the bits the path covers |
| TrieRouter.TrieRefinesDeepestMatches | web/utls/router.ts:48-146 | for all routes and all positive strides lookup succeeds and returns, in insertion order, the matching routes of the largest cut |
| TrieRouter.DeepestMatchesAre | web/utls/router.ts:48-89 | route by route: those that agree with the address up to their cut, with no such route of a larger cut |
| TrieRouter.LongestMatchesAre | web/utls/router.ts:48-89 | longest match route by route: those that contain the address, with no longer route that does |
| TrieRouter.OfFamilyAppend | web/utls/router.ts:177-182 | the routes of one family are kept in the order given |
| TrieRouter.FamiliesPartition | web/utls/router.ts:177-182 | every route is filed in the table of its own family and in no other, as often as it was given |
| LongestPrefix.CutsGiveLongestMatch | web/utls/router.ts:48-199 | when every prefix length is a cut, lookup is the linear-scan longest match of section 5.1 of RFC 4632 |
| Segments.LoopCuts | web/utls/router.ts:96-106 | the prefix sums of the strides in closed form: q is one if and only if q = 0 or q = p[i] + p[i-2] + p[i-4] + ... for some i of the sorted lengths p |
| LongestPrefix.MissedCutMisroutes | web/utls/router.ts:91-107 | when some length is not a cut, there are routes of those lengths and an address for which lookup returns the route of that length although it does not contain the address |
| LongestPrefix.LongestMatchIffAllCuts | web/utls/router.ts:91-199 | arbitrary strides route every address of every table by longest match if and only if every prefix length is a cut |
| LongestPrefix.LoopRoutesIffAlternateSums | web/utls/router.ts:91-199 | the strides the loop derives do so if and only if every prefix length is zero or a sum p[i] + p[i-2] + ... of the sorted lengths |
| LongestPrefix.DifferentLengthsIff | web/utls/router.ts:91-199 | for lengths that all differ: if and only if at most two of them are positive |
| LongestPrefix.DifferencesRouteByLongestMatch | web/utls/router.ts:96-106 | strides taken from true consecutive differences always route by longest match |
| LongestPrefix.LoopMisroutesSlash24 | web/utls/router.ts:100-102 | with 0.0.0.0/8, /16 and /24, lookup of 0.0.128.0 returns the /16 and the /24, which does not contain it |
| LongestPrefix.LoopMisroutesTwoSlash8 | web/utls/router.ts:100-102 | two /8 routes and one /16 are enough to go wrong |
| LongestPrefix.BuildTable | web/utls/router.ts:173-199 | the table answers every valid address: a route is returned if and only if it is among the given routes, is of the family of the address, agrees with it up to its cut, and no such route is filed deeper; in the order given |
| GroupRouter.SimpleRouter.constructor | pkg/routing/routing.go:49-55 | a new router has no routes |
| GroupRouter.SimpleRouter.DoAddRoute | pkg/routing/routing.go:57-72 | the IPv4 table is that of the history with this route appended; the other table is untouched |
| GroupRouter.SimpleRouter.DoAddRoute6 | pkg/routing/routing.go:74-89 | the same for the IPv6 table |
| GroupRouter.SimpleRouter.AddRoute | pkg/routing/routing.go:91-102 | fails and changes nothing on text that is not a block, otherwise appends to the history |
| GroupRouter.SimpleRouter.GetRoute | pkg/routing/routing.go:104-136 | fails on text that is not an address; otherwise returns the value last added for the longest block that contains the four bytes of an IPv4 address, given in either form, or the sixteen of any other address, or nil |
| Subnets.To4Exactly | pkg/routing/routing.go:105-127 | the four-byte form: the last four bytes of ::ffff:a.b.c.d, four bytes themselves, and of nothing else |
| GroupRouter.BestAddedIsLongest | pkg/routing/routing.go:104-136 | the scan specification picks a containing block of greatest length, with the value added last for it |
| GroupRouter.FoundIsBest | pkg/routing/routing.go:122-133 | the first group from the top that holds the masked address has the best entry |
| GroupRouter.CoveringIsMasked | pkg/routing/routing.go:127 | a block contains an address if and only if the address masks to the network address |
| GroupRouter.AgreesWithLongestMatch | pkg/routing/routing.go:57-136 | the grouped router returns the value of the last of the routes that longest-match forwarding selects, so both routers agree |
| SubsetCheck.IpNetToRange | pkg/utils/addr.go:123-142 | the ends are the network address and the address with all host bits set, also for a block given with host bits |
| Subnets.BlockIsInterval | pkg/utils/addr.go:121-142 | an address is in the block if and only if it lies between those ends |
| Subnets.NetworkContains | pkg/utils/addr.go:124 | masking the host bits of a block away does not change what it contains |
| Subnets.MaskedIsPlain | pkg/utils/addr.go:124 | masking makes no IPv4 address in IPv6 form out of an address that was none |
| SubsetCheck.EndValue | pkg/utils/addr.go:130-136 | OR-ing the inverted mask byte by byte adds exactly the host bits |
| SubsetCheck.SortByStart | pkg/utils/addr.go:190-193 | sorted by start, same ranges with multiplicity |
| SubsetCheck.MergeSorted | pkg/utils/addr.go:195-206 | the merge keeps the union and leaves ranges with at least one address between neighbours |
| SubsetCheck.OneRangeCovers | pkg/utils/addr.go:208-213 | such ranges cover an interval if and only if a single one of them does |
| SubsetCheck.FamilyRanges | pkg/utils/addr.go:176-184 | the collected ranges cover exactly the allowed blocks of the same family |
| SubsetCheck.IsSubset | pkg/utils/addr.go:168-216 | true if and only if every address of the block lies in an allowed block of its family, host bits in any of them masked away |
| BlockMembers.GetMemberAddresses32 | pkg/utils/get_member_addrs.go:36-93 | address i is the network address plus i, 2^(host bits) of them, with no wrap and no carry into the prefix, also for a block given with host bits |
| BlockMembers.EnumerationIsBlock | pkg/utils/get_member_addrs.go:36-93 | the enumerated addresses are exactly the block, each once |
| BlockMembers.OffsetIsHostBits | pkg/utils/offset.go:20-44 | the offset is the host bits of the address; the only failure is an IPv6 prefix shorter than /64 |
| BlockMembers.OffsetOfMember | pkg/utils/offset.go:9-20 | the offset of the i-th enumerated address is i |
| BlockMembers.BasePlusOffset | pkg/utils/offset.go:9-11 | network address plus offset gives the address back |
| BlockMembers.MaskIsComplement | pkg/utils/offset.go:27-28 | the prefix mask as a number is all ones less the host bits |
| SlidingWindow.FirstInWindow | pkg/ratelimit/sliding_window_rl.go:33-35 | the index of the first timestamp inside the window, or -1 when all are before it |
| SlidingWindow.DecisionIsExact | pkg/ratelimit/sliding_window_rl.go:20-58 | the decision on the pruned list is that on the full log: admitted if and only if fewer than the limit of past admissions lie in the window |
| SlidingWindow.AppendRefines | pkg/ratelimit/sliding_window_rl.go:31-57 | the published list stays a faithful tail of the log, and any limit + 1 consecutive admissions span more than a window |
| SlidingWindow.SpacedLimitsEveryWindow | pkg/ratelimit/sliding_window_rl.go:20-58 | a log spaced like that has at most the limit of admissions in every closed window |
| SlidingWindow.NextKeepsInv | pkg/ratelimit/sliding_window_rl.go:93-116 | every load, compute, swap, first use or clock tick of any thread keeps every stored and every loaded list a faithful tail of its log |
| SlidingWindow.NoWindowExceedsLimit | pkg/ratelimit/sliding_window_rl.go:93-116 | over all interleavings the logged times are those of the successful swaps, stay sorted, and no closed window holds more than the limit of admissions for a key |
| SlidingWindow.RefusalIsJustified | pkg/ratelimit/sliding_window_rl.go:96-100 | a refusal, though it may see a stale list and does no swap, is made only when the window that ends then is full |
| SlidingWindow.AdmissionIsJustified | pkg/ratelimit/sliding_window_rl.go:101-103 | an admission takes effect only when fewer than the limit lie in the window that ends at its timestamp |
| SlidingWindow.RetryMeansProgress | pkg/ratelimit/sliding_window_rl.go:101-105 | a failed swap means another request of the key was admitted since the load |
| SlidingWindow.FailedSwapsArePaid | pkg/ratelimit/sliding_window_rl.go:93-107 | in every run the failed swaps of a thread for a key are at most the requests of that key admitted so far |
| SlidingWindow.ThreadsFollowTheCode | pkg/ratelimit/sliding_window_rl.go:93-116 | in every run every thread goes through its calls in the order of the code: one begin, then load and compute, and unless refused a swap at the time computed, again from the load if the swap fails; a call ends with its first refusal, returning false, or its first successful swap, returning true |
| SlidingWindow.CallsAreAccounted | pkg/ratelimit/sliding_window_rl.go:93-116 | for every key: calls begun = admissions + refusals + calls under way, and the log is that of the successful swaps |
| SlidingWindow.CallAlone | pkg/ratelimit/sliding_window_rl.go:93-116 | a call that is not disturbed, made at any time, is admitted if and only if fewer than the limit of the requests of its key lie in the window that ends then |
| SlidingWindow.CallCanEnd | pkg/ratelimit/sliding_window_rl.go:93-107 | whatever the others have done, every call under way can end within five steps of its own |
| TokenPool.MemoryBasedRateLimitPool.constructor | pkg/ratelimit/pool.go:36-38 | a new pool has no tokens taken and no listeners |
| TokenPool.MemoryBasedRateLimitPool.DoConsume | pkg/ratelimit/pool.go:25-34 | tokens left are NumTokensPerKey less the calls for the key since the last refresh |
| TokenPool.MemoryBasedRateLimitPool.Tick | pkg/ratelimit/pool.go:52-57 | tokens are restored, every listener is closed, the list starts over |
| TokenPool.ConsumeKeeps | pkg/ratelimit/pool.go:25-34 | the k-th Consume of a key after a refresh succeeds if and only if k <= NumTokensPerKey, kept by every Consume |
| TokenPool.EpochGrants | pkg/ratelimit/pool.go:93-111 | in every epoch a key is granted min(calls, NumTokensPerKey) calls |
| TokenPool.RateBound | pkg/ratelimit/pool.go:36-64 | over any stretch of history a key is granted at most NumTokensPerKey for each refresh in it and as many more |
| Throttle.ApplyKeepsInv | pkg/ratelimit/ratelimit.go:20-70 | every step of every pipeline, of the pool and of its ticker keeps the invariant |
| Throttle.OutputIsPrefixOfInput | pkg/ratelimit/ratelimit.go:20-70 | for any number of pipelines: what came out is a prefix of what went in, less at most one item in hand, with exactly one grant per item out |
| Throttle.SharedRate | pkg/ratelimit/ratelimit.go:39-64 | all pipelines together are granted the first NumTokensPerKey requests of a key after each refresh and no other |
| Throttle.NoLostWakeup | pkg/ratelimit/pool.go:66-91 | one tick after a pipeline has begun to wait it can go on, whatever came between |
| Throttle.ItemCanPass | pkg/ratelimit/ratelimit.go:29-64 | with at least one token per refresh, a pipeline that holds an item can pass it on from every reachable state, and is then ready to take any other |
| Throttle.ItemsCanPass | pkg/ratelimit/ratelimit.go:27-64 | from every reachable state a ready pipeline can pass on any list of items and is ready again |
| Throttle.EveryListPasses | pkg/ratelimit/ratelimit.go:20-70 | with at least one token per refresh there is for every list of items a schedule that takes it in and gives it out whole, and then ends |
| Throttle.HistoryOfActions | pkg/ratelimit/ratelimit.go:27-64 | what went in are the items taken, in order; a pipeline is done if and only if its input was ended; the pool was asked for each item when it was in hand, in order, and by nobody else |
| Throttle.NoEarlyWakeup | pkg/ratelimit/pool.go:66-91 | a pipeline that begins to wait cannot go on until the next tick |
| Throttle.NothingWithoutTokens | pkg/ratelimit/ratelimit.go:44-61 | with no tokens per refresh nothing ever comes out |
| Tracker.ICMPTracker.constructor | pkg/raw/tracker.go:149-159 | a new tracker is empty, open and running |
| Tracker.ICMPTracker.Exit | pkg/raw/tracker.go:162-183 | the loop has ended; conservation and single settlement stay |
| Tracker.ICMPTracker.MarkSent | pkg/raw/tracker.go:307-350 | fails exactly when closed or no longer running, otherwise stores a fresh entry with the number, TTL, address and time given and a timer; a fresh number keeps conservation and single settlement |
| Tracker.ICMPTracker.MarkReceived | pkg/raw/tracker.go:352-402 | fails exactly when closed or no longer running; a stored number gets the reply, loses its timer, is counted on its first reply, emits an event and schedules a clean-up; conservation and single settlement are kept |
| Tracker.ICMPTracker.HandleTimeout | pkg/raw/tracker.go:210-242 | settles an unanswered entry and forgets the entry either way; conservation and single settlement are kept, for any number and however late |
| Tracker.ICMPTracker.CleanupEntry | pkg/raw/tracker.go:185-208 | forgets the entry; for a number that does not wait conservation and single settlement are kept |
| Tracker.ICMPTracker.GetUnAcked | pkg/raw/tracker.go:244-277 | the number of entries without a reply, or 0 once the loop has ended |
| Tracker.ICMPTracker.GetAckedSeq | pkg/raw/tracker.go:279-305 | the numbers sent that no longer wait, or 0 once the loop has ended |
| Tracker.ICMPTracker.ForgetAllAndClose | pkg/raw/tracker.go:404-445 | closes once and stops the timers of the stored entries; conservation and single settlement are kept |
| Tracker.ApplyKeepsInv | pkg/raw/tracker.go:185-402 | every step keeps: sent = acked + unacked, and one settling event for every number that no longer waits |
| Tracker.ConservationAndSettlement | pkg/raw/tracker.go:185-402 | in every reachable state the number sent is ackedSeq plus the unacked, and a number is settled once if it was sent and no longer waits, else not at all |
| Tracker.NeverSettledTwice | pkg/raw/tracker.go:210-402 | no two settling events carry one number: never both a timeout and a first reply, despite stale timers, late clean-ups and duplicates |
| Tracker.ReachableWatched | pkg/raw/tracker.go:320-338 | until the tracker is closed every number that waits has its timer running or its timeout due |
| Tracker.StateTellsHistory | pkg/raw/tracker.go:185-445 | in every reachable state: stored are exactly the numbers sent and neither timed out nor cleaned up since, with the time of their own send and their own replies in order; emitted are exactly one event for each reply to a number then stored and one for each timeout of an unanswered one; closed if and only if it was closed |
| Tracker.EventHasSources | pkg/raw/tracker.go:315-402 | every event: its number was sent to its address at its time, its replies came behind that in order, each at its time, and without any a timeout of its number did |
| Tracker.TimersAndCleanups | pkg/raw/tracker.go:329-445 | in every reachable state a timer runs only for a number that waits, every answered entry has a clean-up to come, an open tracker can be closed, and closing stops all timers for good |
| Progress.TrackerCanSettle | pkg/raw/tracker.go:185-402 | nothing is kept for ever: from every reachable state of an open tracker the timers, timeouts and clean-ups already there empty it |
| BlockScan.AdmitBlock | pkg/pinger/scaner.go:124-150 | a scan is admitted if and only if the block parses, lies in the configured range, the address as written is not link-local, and it has at most 32 host bits |
| BlockScan.LinkLocalBlocks | pkg/pinger/scaner.go:140-143 | the link-local addresses are those of 169.254.0.0/16 and 224.0.0.0/24, in either form, of fe80::/10 and of ffX2::/16 |
| BlockScan.AdmittedHoldsLinkLocal | pkg/pinger/scaner.go:140-150 | an admitted block holds a link-local address all the same if and only if it is an IPv4 block that properly contains 169.254.0.0/16 or 224.0.0.0/24 |
| Scanner.ApplyKeepsInv | pkg/pinger/scaner.go:188-294 | every step of the send loop, the drain, the receiver and the timers keeps the invariant |
| Scanner.InFlightIsSentMinusDelivered | pkg/pinger/scaner.go:224-275 | the in-flight counter is sent minus delivered (one more until Done runs) and never negative |
| Scanner.NothingAfterClose | pkg/pinger/scaner.go:94-108 | once the output is closed nothing is or can be sent on it |
| Scanner.FinishedScanIsComplete | pkg/pinger/scaner.go:85-298 | a closed output holds exactly one event for each address, whatever the interleaving |
| Scanner.OutputTellsOutcome | pkg/pinger/scaner.go:244-313 | every output: some n-th address was taken at some time, the output names that address, and tells the whole milliseconds from then to a reply to probe n that came later, or -1 when probe n timed out later |
| Scanner.ScanRunsTracker | pkg/pinger/scaner.go:244-291 | the n-th address taken is marked under number n at that time, every other request reaches the tracker as it comes, and each probe is written once; when the output closes all addresses have been taken and written |
| Scanner.ReplyCanBeTold | pkg/pinger/scaner.go:188-232 | a reply to a waiting probe can come at any time and its round-trip time is then delivered |
| Scanner.ScanWatches | pkg/pinger/scaner.go:271-275 | all through a scan every waiting probe has a timer running or a timeout due |
| Scanner.NeverStuck | pkg/pinger/scaner.go:85-298 | until the output is closed some step other than a reply can be taken |
| Progress.ScanTerminates | pkg/pinger/scaner.go:85-298 | a scan of n addresses takes at most 8 n + 2 steps besides replies, so every scan finishes |
| Progress.ScanCanFinish | pkg/pinger/scaner.go:85-298 | from every reachable state a scan can be brought to its closed output with no further reply |
| Progress.ScanCanSettle | pkg/pinger/scaner.go:85-298 | a finished scan leaves nothing behind: the clean-ups due empty the tracker and change no output |
| BlockScan.FinishedBlockScan | pkg/pinger/scaner.go:85-298 | end to end: a finished scan of an admitted block reports every address of the block exactly once and none outside the configured range |
| Pinger.ApplyKeepsInv | pkg/pinger/ping.go:188-340 | every step keeps one token going round: a signal, a packet in flight, an event, or the generator at work |
| Pinger.StopAndWait | pkg/pinger/ping.go:188-275 | the packets sent are 1, 2, ..., k in order, at most one is outstanding, and events come in the same order |
| Pinger.StopsAtLimit | pkg/pinger/ping.go:258-264 | with a limit n >= 1 the stop test holds exactly at the n-th event, so exactly n packets are sent |
| Pinger.StopsOnlyAtPositiveLimit | pkg/pinger/ping.go:260-264 | with no limit, or one below 1, the loop never stops by itself |
| Pinger.NeverStuck | pkg/pinger/ping.go:188-344 | until a ping stops some step other than a reply can be taken |
| Pinger.OutputTellsOutcome | pkg/pinger/ping.go:258-340 | the n-th event out is about the n-th packet sent, to its address with its TTL at its time, and each of its replies came behind that at its time; without any the packet timed out |
| Pinger.PingRunsTracker | pkg/pinger/ping.go:315-340 | packets are marked under the numbers 1, 2, 3, ... as they are sent; every other request reaches the tracker as it comes |
| Pinger.ReplyCanBeTold | pkg/pinger/ping.go:293-302 | a reply to the waiting packet can come at any time and is the next event out |
| Progress.PingTerminates | pkg/pinger/ping.go:188-344 | a ping limited to n >= 1 packets takes at most 9 n steps besides replies |
| Progress.PingCanFinish | pkg/pinger/ping.go:188-344 | from every reachable state a ping with a limit can be brought to its stop with no further reply |
| Progress.PingCanGoOn | pkg/pinger/ping.go:188-344 | a ping without a limit, or with one below 1, can send its next packet from every reachable state with no further reply |
| Progress.PingCanSettle | pkg/pinger/ping.go:188-344 | a ping that has stopped leaves nothing behind: the clean-ups due empty the tracker |
| IpInfoCache.CacheIPInfoProvider.constructor | pkg/ipinfo/cache.go:53-65 | a new cache is empty |
| IpInfoCache.CacheIPInfoProvider.GetCache | pkg/ipinfo/cache.go:91-103 | the value stored for the address if and only if one is stored that has not expired |
| IpInfoCache.CacheIPInfoProvider.UpdateCache | pkg/ipinfo/cache.go:105-151 | undisturbed, an update adds its entry and keeps all others |
| IpInfoCache.CachedAfterInsert | pkg/ipinfo/cache.go:91-151 | an entry is found from its insertion until its lifetime is over, and an insertion touches no other address |
| IpInfoCache.CacheIPInfoProvider.GetIPInfo | pkg/ipinfo/cache.go:153-188 | a hit does not ask upstream; a miss passes the answer on and caches it unless it failed or was empty |
| IpInfoCache.ApplyKeepsFresh | pkg/ipinfo/cache.go:91-188 | every interleaved step keeps every stored or cloned entry true to upstream |
| IpInfoCache.HitsAreFresh | pkg/ipinfo/cache.go:91-188 | for every interleaving a hit returns what some answer of upstream to a call for that same address gave, cached at or after that answer and less than maxExpireTime before the hit |
| IpInfoCache.MissesAreAnswered | pkg/ipinfo/cache.go:153-188 | a call that misses returns nothing, or what upstream answered to a call for that address before it returned |
| IpInfoCache.CallsAreAccounted | pkg/ipinfo/cache.go:153-188 | for every address: look-ups = calls returned + calls under way |
| IpInfoCache.CallAlone | pkg/ipinfo/cache.go:91-188 | an undisturbed call returns the stored value exactly when it has not expired, and otherwise the answer of upstream, which it caches unless empty |
| IpInfoCache.CacheShowsOrigin | pkg/ipinfo/cache.go:105-151 | the cache shows for an address the entry of the nearest ancestor version that inserted it: an update is lost if and only if the current version does not descend from it |
| IpInfoCache.SerialUpdatesLoseNothing | pkg/ipinfo/cache.go:105-151 | on every run whose updates do not overlap the cache holds every address published, with the entry published last, and no other |
| IpInfoCache.OverlapLosesUpdate | pkg/ipinfo/cache.go:105-151 | whenever two calls hold answers for different addresses some schedule drops an unexpired entry just published and leaves for its address what the store held before, an expired entry included |
| WordStream.MergeArrayBuffers | web/utls/streams.ts:13-23 | the new buffer is the concatenation of the chunks |
| WordStream.WordAt | web/utls/streams.ts:43-47 | word i is the big-endian value of bytes 4i to 4i + 3, one word per four bytes |
| WordStream.WordsResume | web/utls/streams.ts:35-59 | parsing a then b is parsing a and then what is left over of a followed by b |
| WordStream.Uint32StreamParser.constructor | web/utls/streams.ts:27-33 | a new parser has read nothing |
| WordStream.Uint32StreamParser.DoConsume | web/utls/streams.ts:35-59 | enqueues all whole words of the buffered bytes and keeps the rest |
| WordStream.Uint32StreamParser.Transform | web/utls/streams.ts:61-70 | enqueued are the words of all input so far, kept is the rest; anything but binary data fails the stream and changes nothing else |
| WordStream.Uint32StreamParser.Flush | web/utls/streams.ts:71-73 | the end of the stream enqueues nothing more |
| WordStream.ParseStream | web/utls/streams.ts:26-75 | whatever the chunks, the words are those of the concatenation and fewer than four bytes are left |
| WordStream.ParseUndoesWrite | web/utls/streams.ts:25-59 | words written in network order come back, with nothing left over |
| LineStream.LinesResume | web/apis/globalping.ts:275-291 | tokenizing can stop after any character and go on from the unfinished line |
| LineStream.LineTokenizer.constructor | web/apis/globalping.ts:271-272 | a new tokenizer has read nothing |
| LineStream.LineTokenizer.Transform | web/apis/globalping.ts:275-291 | enqueued are the complete lines of all input so far, buffered is the unfinished one |
| LineStream.LineTokenizer.Flush | web/apis/globalping.ts:293-300 | an unfinished last line counts unless it is empty |
| LineStream.TokenizeStream | web/apis/globalping.ts:270-303 | whatever the chunks, the tokens are those of the joined text |
| LineStream.LinesHaveNoNewline | web/apis/globalping.ts:281-287 | no token holds a newline |
| LineStream.PrintedLinesComeBack | web/apis/globalping.ts:281-300 | text printed one line per "\n" comes back if and only if no line ends in a carriage return |
| LineStream.CrLfLinesComeBack | web/apis/globalping.ts:281-300 | text printed with "\r\n" comes back whatever its lines end in |
| LineStream.TokensOfText | web/apis/globalping.ts:275-300 | the tokens of any lines with their newlines and an unfinished last line: the lines, each less a carriage return at its end, and the last one unless it is empty |
| LineStream.EveryTextHasLines | web/apis/globalping.ts:275-300 | every text is of that form |
| Text.SplitUndoesJoin | pkg/pinger/request.go:191-209 | splitting undoes joining when no part holds the separator |
| Text.JoinUndoesSplit | pkg/pinger/request.go:191-209 | joining undoes splitting for every text |
| Text.TrimSpaceTrims | pkg/pinger/request.go:193 | trimming gives a trimmed text and leaves exactly the trimmed ones alone |
| Text.TrimSpaceCuts | pkg/pinger/request.go:193 | only white space is cut off, before and behind one part of the text: what is left is its longest trimmed part |
| Text.AtoiUndoesItoa | pkg/pinger/request.go:303-304 | reading undoes writing for every 64-bit int |
| Text.AtoiReads | pkg/pinger/request.go:171-214 | every way of writing a number, with a plus sign or leading zeros, reads as that number if it is a 64-bit int and else not at all |
| Text.AtoiReadsOnlyWritten | pkg/pinger/request.go:171-214 | and nothing else reads as an int, but a zero with a minus sign |
| Counting.AtNext | pkg/utils/parse.go:51 | the counter after k increments is start + k step wrapped to 64 bits |
| Counting.NoneAboveHighest | pkg/utils/parse.go:51 | no value of the counter lies above the greatest int that is a whole number of strides from the start, a stride being the largest power of two that divides the step (2^64 for step 0) |
| Counting.HighestIsReached | pkg/utils/parse.go:51 | the counter does take that greatest value: going round, it meets every int in step with the start |
| Counting.EndsIff | pkg/utils/parse.go:51-53 | the loop ends if and only if MAX - (MAX - start) mod stride > end, which a caller can check |
| Counting.Count | pkg/utils/parse.go:51-53 | the values are those of the wrapping counter up to the first one behind the end; there is no outcome exactly when there is no such value |
| Counting.ProgressionIff | pkg/utils/parse.go:51-53 | they are the plain progression if and only if the first number behind the end is still an int |
| Counting.WrappedCount | pkg/utils/parse.go:51-53 | from 1 to 2 by the largest int the values are 1, the least int and -1 |
| IntList.ParseInts | pkg/utils/parse.go:10-74 | the result is what the text denotes: a range, a stepped range, or the numbers between commas; errors, wrapped counters and endless loops included |
| IntList.DenotesOne | pkg/utils/parse.go:10-74 | a text denotes one outcome |
| IntList.OnlyTwoMatch | pkg/utils/parse.go:13-14 | only range(digits; digits), with blanks behind the semicolon, matches the first pattern |
| IntList.OnlyThreeMatch | pkg/utils/parse.go:36-38 | only range(digits; digits; digits) with any text behind it matches the second |
| IntList.ListText | pkg/utils/parse.go:66-79 | a list is read part by part from the front: blank parts are skipped, one that is no int spoils it |
| IntList.RangeText | pkg/utils/parse.go:13-34 | range(a;b) counts from a to b by one; it fails exactly when a > b and never ends exactly when a <= b and b is the largest int |
| IntList.RangeStepText | pkg/utils/parse.go:36-64 | range(a;b;s) fails exactly when a > b, never ends exactly when a <= b and no value of the counter lies behind b, and is the plain progression exactly when the number behind b is an int; text behind the parenthesis is ignored |
| IntList.WrappedRangeText | pkg/utils/parse.go:36-64 | range(1;2;9223372036854775807) is accepted as 1, -9223372036854775808, -1 |
| IntList.ParseUndoesPrint | pkg/utils/parse.go:66-74 | parsing undoes RangeTTL.String for every non-empty list of ints |
| Request.AutoTTL.constructor | pkg/pinger/request.go:381-391 | a parsed generator stands at its start |
| Request.AutoTTL.Get | pkg/pinger/request.go:398-403 | the TTL after k steps, in closed form: round the cycle from the start to 64; a start above 64 is kept, but from the largest int the cycle runs through all ints up to 64 |
| Request.AutoTTL.Forward | pkg/pinger/request.go:405-413 | one step on in that cycle, for every start |
| Request.AutoTTL.Reset | pkg/pinger/request.go:415-420 | back to the start |
| Request.RangeTTL.constructor | pkg/pinger/request.go:432-438 | the cursor stands at the first entry |
| Request.RangeTTL.Get | pkg/pinger/request.go:440-444 | the TTL after k steps is entry k modulo the length |
| Request.RangeTTL.Forward | pkg/pinger/request.go:446-454 | one step on, over and over |
| Request.RangeTTL.Reset | pkg/pinger/request.go:456-461 | back to the first entry |
| Request.ToURLValues | pkg/pinger/request.go:286-364 | under every parameter name the values show exactly the field they stand for, and nothing else |
| Request.ParseTTL | pkg/pinger/request.go:239-261 | an absent TTL is 64 once; auto texts give a generator or fail; every other text is a list of ints |
| Request.ParseSimplePingRequest | pkg/pinger/request.go:119-284 | the fields of the query in order, the first one that does not parse reported |
| RequestRoundTrip.ParsesOne | pkg/pinger/request.go:119-284 | a query parses to one outcome |
| QueryFields.ReportsFirstUnreadable | pkg/pinger/request.go:119-284 | a query is accepted if and only if every parameter can be read; otherwise the one reported is the first, in the order of reading, that cannot |
| QueryFields.EmptyQuery | pkg/pinger/request.go:218-261 | without parameters: interval 1000, timeout 3000, TTL 64, and nothing else |
| QueryFields.PacketTypeFallsBack | pkg/pinger/request.go:162-169 | the packet type is read under l4PacketType, and under l3PacketType only when that is missing |
| QueryFields.AutoTexts | pkg/pinger/request.go:381-396 | an automatic TTL is auto, which starts at 1, or auto(n), which starts at n, and no other text |
| QueryFields.NamesText | pkg/pinger/request.go:191-209 | a list of names is read from the front: each is trimmed, a blank one left out |
| QueryFields.DestinationIsFirstTarget | pkg/pinger/request.go:290-302 | the destination printed for old agents is the first name that new agents read as a target, or absent when that is blank |
| QueryFields.ResolveTimeoutShown | pkg/pinger/request.go:323-325 | the resolve timeout is printed as a number that reads as the field |
| QueryFields.UnreadParameters | pkg/pinger/request.go:119-284 | the parser reads neither the resolve timeout nor the destination: a query means the same whatever it holds there |
| QueryFields.ParseBoolSpellings | pkg/pinger/request.go:263-277 | a truth value is a digit, a word or its first letter, in lower case, upper case or, for the word, with a capital |
| QueryFields.AcceptableProtos | pkg/httpprobe/http.go:166-176 | a target may ask for versions 1.1, 2 and 3 of HTTP, or for none |
| RequestRoundTrip.NamesBack | pkg/pinger/request.go:191-209 | joined names come back if and only if each is trimmed, not empty and free of commas |
| RequestRoundTrip.PrintedParses | pkg/pinger/request.go:119-364 | the exact outcome of parsing any printed request: which error, or the normal form of the request |
| RequestRoundTrip.RoundTrip | pkg/pinger/request.go:119-364 | a request comes back, but for ResolveTimeoutMilliseconds and the TTL cursor, if and only if it is canonical |
| StableSort.SortSorts | web/apis/trace.ts:175 | the sort is a rearrangement in ascending order that keeps the order of equals |
| StableSort.SortOfSorted | web/apis/trace.ts:175 | sorting a sorted list with one more element is sorting it all |
| TraceStats.PeerEvents | web/apis/trace.ts:174-210 | the events of a peer are those written, sorted by sequence number, equal numbers in the order of arrival |
| TraceStats.PeerNumbers | web/apis/trace.ts:166-210 | received, lost, min, max and total are those of the replies, received + lost is the number of events, the average is the whole part of total over received, and lies between min and max |
| TraceStats.PeerAttributes | web/apis/trace.ts:193-208 | name, network, place and PMTU are the last non-empty ones a reply carried; a timeout changes none |
| TraceStats.PeerNamedFirst | web/apis/trace.ts:174-210 | statistics carry the first name that came with an event, reply or timeout |
| TraceStats.GroupShowsPeers | web/apis/trace.ts:223-249 | a peer is listed exactly when it has events, with the statistics of its own events only; PeerOrder is a permutation of the peers by descending latest number |
| TraceStats.OrderStep | web/apis/trace.ts:276-292 | HopOrder stays strictly increasing and equal to the keys of Hops |
| TraceStats.TraceShowsRecentEvents | web/apis/trace.ts:261-293 | a hop is shown exactly when it had events since a last-hop event below it, with the fold of those; after a last-hop event no higher hop is left |
| TraceStats.TraceShowsPeerEvents | web/apis/trace.ts:174-293 | end to end: the events shown for a peer at a hop are its events there since the hop was last cut off, each once, in order, under the name of the peer |
| TraceStats.EventShownAtItsHop | web/apis/trace.ts:223-293 | an event is shown at the hop of its TTL, or the first when that is below 1, under its peer, or * for a timeout or a nameless one: as soon as it is written, and nowhere else at any time |

## Left out

- Sockets, raw packets, the transceivers, DNS, HTTP and WebSocket traffic: replies and timer firings are steps that may
  come at any time.
- Context cancellation, and the transceiver failing under way.
- Duplicate replies in the two pingers: a number is answered at most once there; the tracker itself is proved with
  duplicates.
- ConservationAndSettlement: does not cover a sequence number sent twice, because the senders of the repository use fresh ones.
- NeverStuck: does not model the blocking of a full event channel. Events wait without limit and may be received in any
  order, which allows every order the goroutines allow; the drain and the event loop never wait for the tracker while an
  event waits for them.
- The choice of TTL and path MTU for the next packet, and the resolving of names and IP information, in the ping loop.
- The rate limiter in front of the sends, and the pauses between packets: they only delay steps that may be late anyway.
- ItemCanPass: does not say that a waiting pipeline is served eventually, because under contention the code does not ensure it;
  likewise for a retrying thread of the sliding window.
- Pointer reuse in the compare-and-swap loop: an entry is never reused while a thread holds it, as the garbage collector
  ensures.
- Overflow of the token counts after 2^63 calls in one epoch.
- IsSubset: does not cover masks that are not prefix masks, masks of another length than the address, or IPv4 addresses in
  IPv6 form, because only blocks whose address and mask are of one family stand for an interval; likewise for enumeration.
- AddRoute: does not cover a block of IPv4 addresses in IPv6 form, such as ::ffff:10.0.0.0/104, because the source files it in
  the IPv4 table under a length that no IPv4 mask has, where no lookup finds it.
- AdmitBlock: does not cover such a block either, because its address counts as IPv4 and its 128-bit mask as IPv6.
- GetOffset: does not cover a network with host bits set, because parsed blocks carry none; likewise for the grouped router.
- The B-trees of the grouped router and the cache: finite ordered maps, with an immutable snapshot as the clone.
- JSON and URL encoding: DNS and HTTP targets are encoded by a pair of functions of which one undoes the other, and query
  values are taken decoded; a target that cannot be encoded does not occur.
- The distinction of nil from empty in the slices of a request other than From, which neither the printer nor the parser makes.
- DeriveAsPingRequest and its siblings, which copy fields.
- Count: does not model the memory that a long list takes, because the source sets no limit to it either.
- TraceEvent.fromRaw and the rendering of the trace as a table: plain conversions.
- PeerNumbers: does not cover round-trip times below zero, because the tracker never reports any and -1 stands for none.
- The TCP tracker: the same shape as the ICMP tracker with less state.
- Everything else: command line, access control, metrics, proxies, bots and the user interface.

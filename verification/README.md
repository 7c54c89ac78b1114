# Split-compute protocol: a Dafny model

This project models the core of a two-node computation. A coordinator
(`master.cpp`) and one worker (`worker.cpp`) compute together the sum, the
maximum, or the globally sorted sequence of `key(x) = logf(sqrtf(x))` over
the synthetic values `1 .. N`. The coordinator keeps `[0, mid)` with
`mid = N / 2` and sends the worker a 32-byte header asking for
`[mid, N)`. The worker regenerates its values, computes, and replies. The
coordinator then combines:

- sums by `+`;
- maxima by a pairwise max;
- sorts by merging two key-sorted partitions into a sequence of keys.

When the worker is unreachable or the exchange breaks, the coordinator
falls back to computing locally.

The modules follow the source files:

| module | file | what it holds |
|---|---|---|
| `KeyOrder` | cpu_sort.h (shared) | keys of a sequence, sortedness, a canonical reference sort, uniqueness of sorted keys |
| `CpuOps` | cpu_ops.h | the sum and max folds (`cpu_sum_log_sqrt`, `cpu_max_log_sqrt`) as loops, proved equal to recursive folds; how they split over a concatenation |
| `CpuSort` | cpu_sort.h | Hoare-partition quicksort on an array; the two-pointer merge `merge_to_transformed` |
| `Generator` | worker.cpp / master.cpp | `init_local`: position `i` of `[begin, end)` holds `begin + i + 1` |
| `Wire` | common.h | `Op` codes, `MAGIC`, little-endian encode/decode of the packed `MsgHeader` |
| `Worker` | worker.cpp | header validation, per-op replies, the session loop as a function of the received headers |
| `Master` | master.cpp | the baselines `sum`, `max_function`, `sort`; the socket cache; `sumSpeedUp`, `maxSpeedUp`, `sortSpeedUp` as total functions of transport outcomes, plus methods running the kernels that compute them |

Abstractions:

- **Key.** The key is a parameter `key`: any function into the reals. No proof needs its shape, so it is not required to be monotone.
- **Arithmetic.** Sums are exact real sums. The maximum lives in the reals extended with negative infinity (`Ext`).
- **Values.** Data values are reals.
- **Transport.** Every socket call is an input: dial, send, and receive outcomes, plus the received values.

## Model

| member | source | states |
|---|---|---|
| KeyOrder.PermutedKeys | cpu_sort.h:14-29 | permuting the values permutes their keys, so a sort that rearranges values keeps the multiset of keys |
| KeyOrder.SortedPermutationKeys | cpu_sort.h:14-29 | any key-sorted permutation of a sequence has exactly the canonical sorted key sequence, so what a sort writes does not depend on how it orders equal keys |
| KeyOrder.SortedKeysSpec | cpu_sort.h:14-29 | the canonical sorted keys are non-decreasing, have the input's length, and are the input's keys as a multiset |
| CpuOps.Greater | cpu_ops.h:19-20 | the step `v > m ? v : m` yields an upper bound of both operands that is one of them |
| CpuOps.MaxKeys | cpu_ops.h:16-23 | the max fold is negative infinity exactly on empty input, bounds every key from above, and when finite equals the key of some element |
| CpuOps.SumKeysAppend | cpu_ops.h:8-14 | the sum over a concatenation is the sum of the two partial sums |
| CpuOps.MaxKeysAppend | cpu_ops.h:16-23 | the max over a concatenation is the pairwise max of the two partial maxima |
| CpuOps.CpuSumLogSqrt | cpu_ops.h:8-14 | the loop computes the sum of the keys of data[0..n); 0 for n = 0 |
| CpuOps.CpuMaxLogSqrt | cpu_ops.h:16-23 | the loop computes the max fold of data[0..n): negative infinity for n = 0, at least every key, attained by some element when n > 0 |
| CpuSort.HoarePartition | cpu_sort.h:15-26 | the partition loop ends with j < i; keys in [l, i) are at most the pivot key and keys in (j, r] at least it; the scans stay in [l, r]; only swaps within [l, r] happen |
| CpuSort.ScanUp | cpu_sort.h:20 | the upward scan stops at a key not below the pivot key, no later than the sentinel, with every key before it at most the pivot key |
| CpuSort.ScanDown | cpu_sort.h:21 | the downward scan stops at a key not above the pivot key, no earlier than the sentinel, with every key after it (up to r) at least the pivot key |
| CpuSort.Exchange | cpu_sort.h:22-25 | the swap keeps the array a permutation, touches nothing outside [l, r], and extends both partition bounds by one |
| CpuSort.Quicksort | cpu_sort.h:14-29 | a[l..r] ends key-sorted, the array is a permutation of what it was, and nothing outside [l, r] changes; the recursion terminates |
| CpuSort.SortCopy | master.cpp:45-46 | the guarded `quicksort_by_key(buf, 0, n-1)` on a copy gives a key-sorted permutation whose keys are the canonical sorted keys |
| CpuSort.MergeSorted | cpu_sort.h:40-47 | merging two sorted key sequences gives a sorted sequence |
| CpuSort.MergePermutation | cpu_sort.h:40-47 | the merged output holds exactly the keys of both inputs, as a multiset |
| CpuSort.PicksResolve | cpu_sort.h:40-47 | the schedule of source positions the merge reads resolves, position by position, to the keys it writes |
| CpuSort.MergeTakesAFirst | cpu_sort.h:43 | when a[i]'s key is at most b[j]'s, a[i] is taken before b[j], so ties go to `a` |
| CpuSort.MergeToTransformed | cpu_sort.h:34-48 | the three loops write exactly the merged keys, one per input element; the output is sorted when both inputs are, and is a permutation of their keys. The keys are taken before the loops, which is equivalent because the key is pure |
| CpuSort.MergeHeads | cpu_sort.h:39-45 | the first loop ends with one input used up, and what it has written followed by the rest of the merge is the whole merge |
| CpuSort.HeadStep | cpu_sort.h:41-44 | one pass of the first loop appends `a`'s head key when it is <= `b`'s (so ties take `a`) and `b`'s otherwise, advancing past it, and keeps the written keys a prefix of the merge |
| CpuSort.DrainA | cpu_sort.h:46 | once `b` is used up, copying the keys of the rest of `a` completes the merge |
| CpuSort.DrainB | cpu_sort.h:47 | once `a` is used up, copying the keys of the rest of `b` completes the merge |
| CpuSort.MergeFromPermutation | cpu_sort.h:39-47 | from any state of the loops, the keys still to be written are exactly the unread keys of both inputs, as a multiset |
| CpuSort.MergeIsSort | cpu_sort.h:34-48 | the merge of two sorted key sequences equals every sorted sequence holding exactly their keys, so it is the sort of their union |
| CpuSort.MergeOfSortedPartitions | master.cpp:242-250 | merging the sorted keys of two partitions gives the sorted keys of their concatenation |
| Generator.Generate | worker.cpp:11-17 | init_local yields end - begin values with position i holding begin + i + 1; master.cpp:57-61 is the same function |
| Generator.GenerateSplit | master.cpp:97-98 | the ranges [a, b) and [b, c) together generate exactly [a, c), so [0, mid) and [mid, N) cover [0, N) without overlap |
| Wire.Code | common.h:12-16 | every op's wire code is one of the three valid codes 1..3 |
| Wire.OpOf | common.h:12-16 | the valid op codes are exactly 1, 2, 3, and each names the op whose code it is |
| Wire.OpCodes | common.h:12-16 | SUM, MAX and SORT are 1, 2 and 3 on the wire, and reading a code back gives the op |
| Wire.Encode | common.h:19-27 | the packed header is 32 bytes: the five fields little-endian, in declaration order, with no padding |
| Wire.Decode | common.h:19-27 | a buffer decodes to a header exactly when it is 32 bytes long |
| Wire.DecodeEncode | common.h:19-27 | decoding an encoded header returns the header |
| Wire.EncodeDecode | common.h:19-27 | every 32-byte buffer is the encoding of the header it decodes to |
| Wire.FromLEToLE | common.h:19-27 | reading back the little-endian bytes of a field gives the field |
| Wire.ToLEFromLE | common.h:19-27 | every field's bytes are the little-endian bytes of the number they denote, so a received header re-encodes to the same bytes |
| Wire.MagicBytes | common.h:29 | a header carrying MAGIC starts with the bytes 'D', 'P', 'C', 'T' |
| Worker.Validate | worker.cpp:48-59 | bad magic, bad op and bad range are told apart in that order; an accepted header has a known op and begin < end |
| Worker.ValidateIgnoresLen | worker.cpp:48-59 | the header's len field does not influence validation |
| Worker.ByteCount | worker.cpp:93 | the announced byte count is 4 per value, wrapping modulo 2^64, exact below 2^62 values |
| Worker.Respond | worker.cpp:67-97 | each accepted op gets a reply of its own kind; a MAX reply over a non-empty range is finite |
| Worker.RespondSort | worker.cpp:82-95 | the SORT reply announces 4 bytes per value, sends end - begin values that are a permutation of the partition, and their keys are its sorted keys |
| Worker.Session | worker.cpp:29-98 | one reply per header, each the Respond of an accepted header, in order; the session stops exactly at the first failed receive or rejected header |
| Worker.SessionAnswersAll | worker.cpp:29-98 | a session whose headers all arrive and pass validation answers every one |
| Worker.SessionStops | worker.cpp:32-59 | after a failed receive or a rejected header nothing more is read: the replies depend only on the headers up to it |
| Worker.Serve | worker.cpp:62-97 | one loop pass run with the kernels: no reply iff the header is rejected; SUM and MAX replies are the folds over [begin, end); the SORT reply's count is ByteCount and its values are a permutation of the partition with sorted keys, whatever the shuffle did |
| Master.SumBaseline | master.cpp:23-27 | `sum` computes the same fold as cpu_sum_log_sqrt over data[0..len); 0 for len <= 0 |
| Master.MaxBaseline | master.cpp:29-41 | `max_function` (and `max`) compute the same fold as cpu_max_log_sqrt; negative infinity for len <= 0 |
| Master.SortBaseline | master.cpp:44-49 | `sort` writes the sorted keys of data[0..len), non-decreasing and a permutation of their keys, leaving data untouched |
| Master.WriteKeys | master.cpp:47 | the write-back loop stores the key of every element of the sorted copy, position by position, as the same loop at master.cpp:213 does |
| Master.Prefix | master.cpp:106-113 | position i of the coordinator's values is data[i] when data is given and the generated i + 1 otherwise; the same choice is made at master.cpp:153-160, 198-203 and 209-210 |
| Master.GetWorkerSock | master.cpp:76-82 | a cached socket is reused; otherwise the dial decides |
| Master.ResetWorkerSock | master.cpp:84-90 | after a reset no socket is cached, so the next call dials again |
| Master.RemoteHeader | master.cpp:122 | the header is {MAGIC, op, N - mid, mid, N} with mid = N / 2, so len = end - begin; the same at master.cpp:168 and 218 |
| Master.RemoteHeaderAccepted | master.cpp:97-98 | every header the coordinator builds passes the worker's validation, and the two halves cover [0, N) |
| Master.SumSpeedUp | master.cpp:93-139 | 0 for len <= 0; a completed round trip returns the local sum plus the worker's value and keeps the socket; every failure returns the sum over [0, mid) alone and leaves no socket |
| Master.MaxSpeedUp | master.cpp:142-185 | negative infinity for len <= 0; a completed round trip returns the pairwise max of the local and remote maxima; every failure returns the max over [0, mid) alone and leaves no socket |
| Master.SumSpeedUpCorrect | master.cpp:93-139 | when the worker answers the header it was sent, the result is the sum over the local half followed by [mid, N); with no data, the sum over [0, N) |
| Master.MaxSpeedUpCorrect | master.cpp:142-185 | the same for the maximum: with no data, the max over [0, N) |
| Master.ReceivedPayload | master.cpp:224-240 | the worker's values are accepted exactly when the count is a multiple of 4 and, if non-zero, that many bytes arrive |
| Master.SortSpeedUp | master.cpp:189-253 | nothing is written for len <= 0 or a null result; otherwise something is written, and the undefined outcome occurs only with null data |
| Master.SortSpeedUpNoWorker | master.cpp:205-222 | when the final round (after any number of failed sends) finds no cached socket and cannot dial, the whole range [0, N) is sorted locally, all N keys are written in order and no socket is left |
| Master.SortSpeedUpFallback | master.cpp:224-240 | when the final round has a socket but the count is lost, is not a multiple of 4, or the values fall short, the socket is reset and `sort(data, len, result)` writes all N keys of data[0..N) in key order; with null data the outcome is the undefined one |
| Master.SortRetry | master.cpp:219-222 | a failed header send resets the socket and runs the whole call again |
| Master.SortMerge | master.cpp:242-250 | after any number of failed sends, the merge path writes the sorted local keys merged with the keys of the received values, and keeps the socket |
| Master.SortSpeedUpLength | master.cpp:234-250 | the merge path writes mid + bytes/4 keys, which is N exactly when the worker announced N - mid values; nothing checks this |
| Master.SortSpeedUpSorted | master.cpp:242-250 | the merge path's output is in key order whenever the worker's values are |
| Master.HonestSortReceived | master.cpp:225-240 | the worker's SORT reply to the coordinator's header passes every check and carries values whose keys are the sorted keys of [mid, N) |
| Master.SortSpeedUpCorrect | master.cpp:189-253 | whatever the number of failed sends, a run that reaches the worker writes the sorted keys of the local half followed by [mid, N); with no data, the sorted keys of [0, N) |
| Master.ReductionSockets | master.cpp:115-136 | sumSpeedUp and maxSpeedUp keep a socket exactly when the round trip completes; every failure path leaves none |
| Master.SortSockets | master.cpp:205-240 | sortSpeedUp keeps a socket exactly on the merge path; every failure path leaves none |
| Master.SumSpeedUpRun | master.cpp:93-139 | sumSpeedUp run with cpu_sum_log_sqrt and `sum` computes SumSpeedUp |
| Master.MaxSpeedUpRun | master.cpp:142-185 | maxSpeedUp run with cpu_max_log_sqrt and `max_function` computes MaxSpeedUp |
| Master.SortSpeedUpRun | master.cpp:189-253 | sortSpeedUp run with quicksort on copies, merge_to_transformed and `sort`, retrying after failed sends, computes SortSpeedUp |

## Left out

- net.cpp and net.h (WinSock setup, listen, accept, connect, and the `send_all`/`recv_all` loops) are not part of this model. Every socket call is an input outcome: `Link` for the reductions and `SortNet` for the sort.
- `tcp_connect` throws on failure instead of returning `INVALID_SOCKET`. The model still treats a failed dial as an input that reaches the no-connection branches.
- Floating point:
  - `logf(sqrtf(x))` is an abstract key;
  - sums are exact, without the double accumulator and the final cast to float;
  - generated values are exact, although `(float)(begin + i + 1)` loses exactness above 2^24.
- `shuffle_fisher_yates` is not part of this model. It appears only as some permutation:
  - `Worker.Serve` takes it as a parameter that preserves the multiset;
  - `Worker.Session` takes the worker's whole shuffle-then-quicksort as a `sorter` that returns a key-sorted permutation.
- Worker.Session: the receive is an input (`None` for a failure), and replies are values, not bytes. Closing the sockets after the loop, and the logging, are not modelled.
- Master.SortSpeedUp:
  - The source retries itself without bound after a failed header send. The model covers every run that ends, through the count `failedSends`; a run whose sends fail forever is not modelled.
  - The result is the key sequence written. When the worker announces more than N - mid values, the source writes past the end of `result`. The model returns the longer sequence; SortSpeedUpLength states when the length is exactly N.
- Master.SortSpeedUpFallback: `sort(nullptr, len, result)` is undefined behaviour in the source. It is reached from `sortSpeedUp(nullptr, …)` after a failed receive, and is modelled as the outcome `NullData`, about which nothing is promised.
- Worker.Respond: allocation failure is not modelled. A count too large to allocate makes `resize` throw at worker.cpp:13; the handler at worker.cpp:104-107 ends the worker with no reply. Respond always produces a reply. The 64-bit wrap-around of the SORT byte count (ByteCount) could only happen for counts that cannot be allocated, so it is unreachable in the source.
- Master.SortSpeedUp: allocation failure is not modelled. A byte count too large to allocate makes `std::vector<float> sortedB((size_t)bN)` throw at master.cpp:236. That exception reaches the handler in `main` at master.cpp:330 and no fallback runs. The model instead waits for the payload, which then fails to arrive, and takes the `sort` fallback.
- Generator.Generate requires begin <= end. The source would wrap `end - begin` modulo 2^64 otherwise, and no caller does that.
- CpuSort.Quicksort: indices are unbounded integers. `(l + r) >> 1` is `(l + r) / 2` for the non-negative indices used, and int64 overflow is not modelled.
- The benchmark harness is not modelled: `main`, `freqInvMs` and the timing in master.cpp, and the logging in both programs.
- `ensure_wsa_inited`, `MASTER_IP`, `WORKER_IP`, `PORT`, `MAX_THREADS`, `SUBDATANUM` and `DATANUM` are configuration and are not modelled.
- Behaviours of the code that the model keeps as written:
  - mid is always N / 2 (master.cpp:98, 147, 194), so N = 1 gives the coordinator no values.
  - The reduction fallbacks return the result over [0, mid) only, not over [0, N) (master.cpp:118, 125, 135, 164, 171, 181).
  - sortSpeedUp never shuffles the coordinator's half; only the worker does (worker.cpp:84). The model sorts the coordinator's half as given.
  - With data given, the worker still regenerates [mid, N) (worker.cpp:64) rather than using the caller's data. The end-to-end lemmas therefore state the result over the local half followed by the generated [mid, N).

# etcd-ydb client protocol, statistics report and benchmark generators in Dafny

This project models three sequential parts of the etcd-ydb repository and proves
properties about each of them.

- **The etcd v3 KV client protocol** (`pkg/etcd`). It covers the closed set of
  request and response variants (Range, Put, Delete, Compact, Txn), the `Compare`
  guard and `KeyValue`. It also covers their field-for-field serialisers into
  wire records, their deserialisers out of them, the `IsWrite`/`GetRevision`
  classification, and the `Do` dispatcher.
  - A Go nil pointer is an `Option`.
  - The wire records (etcdserverpb/mvccpb) are mirror datatypes in module `Wire`.
  - A Go `(value, error)` pair is a `Result`.
  - The transport is a record of five functions (`Wire.KVClient`).
  - The default call policy (wait for ready, 2 MiB send and 4 MiB receive limits) is the constant `Client.DefaultCallOpts`.
  - Each deserialiser has a reference encoder as its partner, and round trips are
    proved in both directions where the code allows it.
- **The statistics report** (`pkg/report/report.go`, `processResults`). The result
  stream is a sequence of `{duration, error}` records. The `report` object is a
  class whose `stats` field is updated in place.
  - The consuming loop, the averaging loop and the percentile loop are methods.
    Each is proved against a specification function.
  - Lemmas show that the counts add up and that Fastest ≤ Average ≤ Slowest.
  - They show there are exactly eight in-bounds, non-decreasing percentiles.
  - They show the stats do not depend on the order in which results arrive.
- **The benchmark workload generators** (`tools/benchmark`):
  - `newClients` fills the connection and client arrays round-robin.
  - The put, range, txn-put and txn-range generators render decimal keys into one
    reused byte buffer. Digits are written least significant first, the prefix is
    reversed in place, and the bytes after the digits keep whatever the previous
    key left there.
  - They build the requests, divide the total by the ops per transaction, and
    add the single-op "key absent" guard.
  - Random draws are an input sequence. The channel of requests is the returned
    sequence, in send order.

Go panics become preconditions:
- a missing response header;
- a `ResponseOp` with no case set;
- a compaction nested in a transaction;
- a compare with no target;
- a zero key space or zero ops per transaction;
- a key whose digits overflow the buffer.

Where the code and the prose design of the repository disagree, the model
follows the code:
- Deserialisation is not total: it panics on a missing header or an unset `ResponseOp`.
- Serialisation does not round-trip every compare: with two or more targets set,
  only the first one in priority order survives. `Compares.CompareRoundTripIffSingleTarget`
  proves the round trip holds exactly when one target is set.
- A delete is a write iff `Deleted != 0`.
- `CompactRequest` also carries `Physical`.
- The percentile index is `floor(n*p/100)`, which is in bounds for every listed point.

## Model

| member | source | states |
|---|---|---|
| KeyValues.DeserializeKeyValue | pkg/etcd/key_value.go:15-26 | nil iff nil; key, value, mod/create revision and version are the wire fields unchanged |
| KeyValues.DeserializeEncodedKeyValue | pkg/etcd/key_value.go:15-26 | deserialising what a server encodes for a key-value gives it back |
| KeyValues.DeserializeKeyValueDropsOnlyLease | pkg/etcd/key_value.go:7-26 | two wire key-values deserialise alike iff they differ at most in the lease, the one dropped field |
| KeyValues.KeyValuesOf | pkg/etcd/range.go:104-108 | the deserialised slice keeps length and order, entry i being `deserializeKeyValue` of wire entry i |
| KeyValues.KeyValuesOfEncoded | pkg/etcd/range.go:104-108 | deserialising an encoded slice gives it back, nil entries included |
| Compares.WithEqual | pkg/etcd/compare.go:16-19 | the copy has Result EQUAL and equals the receiver once the old Result is restored |
| Compares.WithGreater | pkg/etcd/compare.go:21-24 | the copy has Result GREATER and nothing else changes |
| Compares.WithLess | pkg/etcd/compare.go:26-29 | the copy has Result LESS and nothing else changes |
| Compares.WithNotEqual | pkg/etcd/compare.go:31-34 | the copy has Result NOT_EQUAL and nothing else changes |
| Compares.SetModRevision | pkg/etcd/compare.go:36-39 | only the ModRevision target is set, to the argument; key, result and other targets kept |
| Compares.SetCreateRevision | pkg/etcd/compare.go:41-44 | only the CreateRevision target is set, to the argument |
| Compares.SetVersion | pkg/etcd/compare.go:46-49 | only the Version target is set, to the argument |
| Compares.SetValue | pkg/etcd/compare.go:51-54 | only the Value target is set, to the argument |
| Compares.SerializeCompare | pkg/etcd/compare.go:56-78 | requires a target (the panic); key and result copied; the Target enum agrees with the union; priority ModRevision, CreateRevision, Version, Value |
| Compares.CompareRoundTripIffSingleTarget | pkg/etcd/compare.go:61-76 | reading the wire compare back gives the compare iff exactly one target was set |
| Compares.SerializeCompareInjective | pkg/etcd/compare.go:56-78 | single-target compares with equal wire forms are equal |
| Compares.AbsentKeyGuard | pkg/etcd/compare.go:56-64 | `Compare{Key: k}.Equal().SetModRevision(0)` serialises to EQUAL on ModRevision 0 and holds iff the key's mod revision is 0 |
| Ranges.OrderByKey | pkg/etcd/range.go:22-25 | the copy sorts by key and equals the receiver once the old target is restored |
| Ranges.OrderByModRevision | pkg/etcd/range.go:27-30 | the copy sorts by mod revision, nothing else changed |
| Ranges.OrderByCreateRevision | pkg/etcd/range.go:32-35 | the copy sorts by create revision, nothing else changed |
| Ranges.OrderByVersion | pkg/etcd/range.go:37-40 | the copy sorts by version, nothing else changed |
| Ranges.OrderByValue | pkg/etcd/range.go:42-45 | the copy sorts by value, nothing else changed |
| Ranges.RangeRequestRef.Ascending | pkg/etcd/range.go:47-50 | the referenced request's SortOrder becomes ASCEND in place, nothing else changes, the same reference is returned |
| Ranges.RangeRequestRef.Descending | pkg/etcd/range.go:52-55 | the referenced request's SortOrder becomes DESCEND in place, nothing else changes, the same reference is returned |
| Ranges.SerializeRangeRequest | pkg/etcd/range.go:59-77 | nil iff nil; reading the wire request back gives all twelve fields; the wire-only flag is unset |
| Ranges.SerializeRangeRequestInjective | pkg/etcd/range.go:59-77 | distinct requests never serialise alike |
| Ranges.RangeResponseOf | pkg/etcd/range.go:96-110 | nil iff nil; revision from the header; Count and More copied; Kvs keep length and order |
| Ranges.DeserializeRangeResponse | pkg/etcd/range.go:96-110 | the append loop returns RangeResponseOf |
| Ranges.RangeResponseOfEncoded | pkg/etcd/range.go:96-110 | deserialising what a server encodes gives the response back |
| Ranges.Range | pkg/etcd/range.go:112-118 | a transport error comes back unchanged with no response, otherwise the deserialised response |
| Puts.SerializePutRequest | pkg/etcd/put.go:18-28 | nil iff nil; Key, Value, PrevKv, IgnoreValue copied; lease 0, IgnoreLease unset |
| Puts.SerializePutRequestInjective | pkg/etcd/put.go:18-28 | distinct requests never serialise alike |
| Puts.DeserializePutResponse | pkg/etcd/put.go:45-53 | nil iff nil; revision from the header; PrevKv absent iff the wire prev_kv is, otherwise deserialised |
| Puts.DeserializeEncodedPutResponse | pkg/etcd/put.go:45-53 | deserialising what a server encodes gives the response back |
| Puts.Put | pkg/etcd/put.go:55-61 | a transport error comes back unchanged, otherwise the deserialised response |
| Deletes.SerializeDeleteRequest | pkg/etcd/delete.go:15-24 | nil iff nil; Key, RangeEnd, PrevKv copied |
| Deletes.SerializeDeleteRequestBijective | pkg/etcd/delete.go:15-24 | every wire delete request is the image of exactly the request read back from it |
| Deletes.DeleteResponseOf | pkg/etcd/delete.go:42-55 | nil iff nil; revision from the header; Deleted copied; PrevKvs keep length and order |
| Deletes.DeserializeDeleteResponse | pkg/etcd/delete.go:42-55 | the append loop returns DeleteResponseOf |
| Deletes.DeleteResponseOfEncoded | pkg/etcd/delete.go:42-55 | deserialising what a server encodes gives the response back |
| Deletes.Delete | pkg/etcd/delete.go:57-63 | a transport error comes back unchanged, otherwise the deserialised response |
| Compacts.SerializeCompactRequest | pkg/etcd/compact.go:14-19 | total; Revision and Physical copied |
| Compacts.DeserializeCompactResponse | pkg/etcd/compact.go:27-34 | nil iff nil; revision from the header |
| Compacts.DeserializeCompactResponseAt | pkg/etcd/compact.go:27-34 | the response of a server at revision r deserialises to a response at r |
| Compacts.Compact | pkg/etcd/compact.go:36-42 | a transport error comes back unchanged, otherwise the deserialised response |
| Txns.RequestOpOf | pkg/etcd/txn.go:15-28 | requires no compaction (the panic); never an unset op; range, put, delete and txn map to exactly the matching RequestOp case, carrying that request's own serialisation |
| Txns.SerializeRequestOp | pkg/etcd/txn.go:15-28 | the dispatch returns RequestOpOf, so the case correspondence above holds for every serialisable request, multi-target compares included |
| Txns.TxnRequestOf | pkg/etcd/txn.go:30-49 | nil iff nil; compare, success and failure keep their lengths; entry i is `serializeCompare` or `serializeRequestOp` of entry i, nested transactions recursively |
| Txns.SerializeTxnRequest | pkg/etcd/txn.go:30-49 | the three append loops return TxnRequestOf |
| Txns.RequestRoundTrip | pkg/etcd/txn.go:15-28 | a request whose compares set one target each is read back from its wire op, at any nesting depth |
| Txns.TxnRoundTrip | pkg/etcd/txn.go:30-49 | a transaction whose compares set one target each is read back from its wire form |
| Txns.ResponseIsWrite | pkg/etcd/client.go:17-21 | the IsWrite dispatch: put always, delete iff Deleted != 0, range and compact never, txn iff a nested response is a write |
| Txns.TxnIsWrite | pkg/etcd/txn.go:63-69 | the `result = result \|\| IsWrite()` loop is true iff some nested response is a write |
| Txns.EmptyTxnIsNotWrite | pkg/etcd/txn.go:63-69 | a transaction with no nested responses is not a write |
| Txns.TxnResponseOf | pkg/etcd/txn.go:85-98 | nil iff nil; revision from the header; Succeeded copied; responses keep length and order, entry i being `deserializeRequestOp` of wire entry i |
| Txns.DeserializeResponseOp | pkg/etcd/txn.go:71-83 | requires a populated case (the panic); routes it to the matching deserialiser |
| Txns.DeserializeTxnResponse | pkg/etcd/txn.go:85-98 | the append loop returns TxnResponseOf |
| Txns.RevisionFromHeader | pkg/etcd/txn.go:71-83 | the GetRevision of every deserialised response is its wire header's revision |
| Txns.DeserializedHasNoCompaction | pkg/etcd/txn.go:71-83 | deserialisation never produces a compaction response, at any depth |
| Txns.ResponseRoundTrip | pkg/etcd/txn.go:71-98 | deserialising what a server encodes gives the response back through nested transactions |
| Txns.Txn | pkg/etcd/txn.go:100-106 | a transport error comes back unchanged, otherwise the deserialised response |
| Client.Dispatched | pkg/etcd/client.go:72-87 | fails iff the matching remote operation fails, with its error unchanged; otherwise nil iff that operation's deserialised reply is nil, and else exactly that reply (RangeResponseOf, Put, DeleteResponseOf, TxnResponseOf, Compact) in the matching variant |
| Client.Do | pkg/etcd/client.go:72-87 | the type switch returns Dispatched |
| Report.PercentileIndex | pkg/report/report.go:91 | for a point p below 100 percent (written in tenths of a percent) the index floor(n*p/100) lies in [0, n) |
| Report.Tally | pkg/report/report.go:64-71 | the loop leaves the error map and the latency list that TallyErrors and Latencies specify |
| Report.Average | pkg/report/report.go:82-86 | the accumulate-and-divide loop gives the truncated mean of the latencies |
| Report.ReadPercentiles | pkg/report/report.go:90-93 | the loop appends the eight percentiles PercentilesOf reads |
| Report.Report.constructor | pkg/report/report.go:39-46 | a new report has zero stats and an empty error map |
| Report.Report.ProcessResults | pkg/report/report.go:62-94 | the stats after consuming the results are Processed(old stats, results) |
| Report.TallyCounts | pkg/report/report.go:65-69 | each error adds one to its message's count and nothing else does; a message is a key iff it was or failed |
| Report.ErrorsPlusLatencies | pkg/report/report.go:65-71 | every result is an error or a latency, never both |
| Report.MapSumBump | pkg/report/report.go:67 | `Errors[m]++` adds one to the sum of the counts |
| Report.TallyMapSum | pkg/report/report.go:65-69 | the summed counts grow by the number of errors consumed |
| Report.CountsAddUp | pkg/report/report.go:65-78 | from a new report, summed error counts plus Total equal the number of results |
| Report.NoSuccessesKeepsZeros | pkg/report/report.go:74-76 | with no success only the error map changes; from a new report Total, Fastest, Slowest, Average stay 0 and no percentiles |
| Report.ExtremesAreMinMax | pkg/report/report.go:77-80 | Total is the number of successes; Fastest and Slowest are their minimum and maximum |
| Report.GoDivBetween | pkg/report/report.go:86 | a truncated quotient of a sum of n values in [lo, hi] lies in [lo, hi] |
| Report.AverageBetweenExtremes | pkg/report/report.go:82-86 | Fastest <= Average <= Slowest |
| Report.PercentileIndexMonotone | pkg/report/report.go:91 | a larger point never reads an earlier index |
| Report.SortedPercentiles | pkg/report/report.go:90-93 | percentiles of a sorted list: eight, at the listed points, within its ends, non-decreasing |
| Report.PercentilesMonotone | pkg/report/report.go:77-93 | earlier percentiles kept, exactly eight appended in the listed order, between Fastest and Slowest, non-decreasing |
| Report.PermutationKeepsOutcomes | pkg/report/report.go:65-71 | permuted results give the same latency multiset and the same error count per message |
| Report.SameCountsSameTally | pkg/report/report.go:65-69 | equal error counts per message give equal error maps |
| Report.ArrivalOrderIrrelevant | pkg/report/report.go:62-94 | any permutation of the results gives the same stats |
| Sorting.Insert | pkg/report/report.go:77 | inserting into a sorted list keeps it sorted and adds exactly the element |
| Sorting.SortAscending | pkg/report/report.go:77 | the result is sorted and a permutation of the input |
| Sorting.SortedPermutationUnique | pkg/report/report.go:77 | two sorted permutations of one multiset are equal, so every correct sort gives the same list |
| Bench.NewClients | tools/benchmark/root.go:27-44 | the too-few-connections error; the first failed dial's error after successful ones; on success exactly totalClients clients, client i being the connection made by dial number i mod totalConns, to endpoint (i mod totalConns) mod len |
| Bench.RoundRobinCoversAll | tools/benchmark/root.go:28-42 | past the guard every endpoint gets a connection; with enough clients client j takes connection j |
| Bench.KeyNumbers | tools/benchmark/put.go:77 | one number per draw, each below the key space |
| Bench.KeyNumberGroups | tools/benchmark/txn_put.go:82 | one group of numbers per transaction's draws |
| Bench.TxnCountIsQuotient | tools/benchmark/txn_put.go:54 | counting whole transactions by subtraction is unsigned division |
| Bench.DivideTotal | tools/benchmark/txn_put.go:54 | `total /= opsPerTxn` yields TxnCount |
| Bench.SingleOpGuardMeansAbsent | tools/benchmark/txn_put.go:90-93 | the single-op guard serialises to EQUAL on ModRevision 0 and holds iff the key is absent |
| Bench.Outcome | tools/benchmark/put.go:65-67 | the report entry carries the measured duration and Do's error |
| Bench.Drain | tools/benchmark/put.go:58-71 | the report's stats become Processed(old stats, the outcomes of the requests in order) |
| Bench.ErrorCountIsFailures | tools/benchmark/put.go:66-67 | the report's count for a message is the number of requests that failed with it |
| Bench.EveryRequestReported | tools/benchmark/put.go:58-92 | a new report counts every request once: summed counts plus Total equal the requests, each message counted as often as it failed |
| GoTypes.Dashes | tools/benchmark/put.go:74 | n bytes, all '-' |
| KeyBuffer.Reverse | tools/benchmark/put.go:81 | the same length, element i taken from the mirrored position |
| KeyBuffer.ReversedDigits | tools/benchmark/put.go:76-81 | reversing the least-significant-first digits gives the decimal rendering |
| KeyBuffer.DecimalIsCanonical | tools/benchmark/put.go:77-81 | a rendering is all digits, with no leading zero, and is empty iff n is 0 |
| KeyBuffer.DecimalRoundTrip | tools/benchmark/put.go:76-81 | the rendered digits parse back to n |
| KeyBuffer.DigitCount | tools/benchmark/put.go:77-79 | n renders in at most k digits iff n < 10^k |
| KeyBuffer.DefaultKeySizeLimit | tools/benchmark/put.go:40 | with the default key size 8, a number fits iff it is below 10^8 |
| KeyBuffer.ReversePrefix | tools/benchmark/put.go:81 | the prefix of the array is reversed in place and the rest is untouched |
| KeyBuffer.WriteDigits | tools/benchmark/put.go:76-80 | the digit loop writes n's digits least significant first from 0, returns their count, nothing else changes |
| KeyBuffer.RenderKey | tools/benchmark/put.go:76-81 | the buffer becomes Overlay(old buffer, n): its first j bytes are digits parsing back to n, the rest unchanged |
| KeyBuffer.KeysFrom | tools/benchmark/put.go:74-84 | one key per number, each as long as the buffer |
| KeyBuffer.KeyIsOverlay | tools/benchmark/put.go:74-84 | key i is number i rendered over key i-1 (over the blank buffer for the first) |
| KeyBuffer.KeysAreOverlays | tools/benchmark/put.go:74-84 | the same for every key at once |
| KeyBuffer.OverlayRendersOver | tools/benchmark/put.go:76-81 | rendering n over a buffer keeps its length, leads with n's digits and keeps the buffer's stale bytes |
| KeyBuffer.KeysParseBack | tools/benchmark/put.go:74-84 | every key leads with digits parsing back to its number, then repeats the previous key's stale bytes |
| KeyBuffer.ZeroDrawKeepsKey | tools/benchmark/put.go:77 | drawing 0 writes no digit, so the previous key is sent again |
| KeyBuffer.StaleDigitsCollide | tools/benchmark/put.go:74-82 | with an 8-byte key, drawing 123 then 12 sends "123-----" twice though 12 and 123 differ |
| PutBench.PutOps | tools/benchmark/put.go:82 | one put per key, each with only Key and Value set |
| PutBench.GeneratePuts | tools/benchmark/put.go:73-86 | requires a key space and fitting digits (the panics); the loop over the reused buffer sends PutsFor |
| PutBench.GeneratedPuts | tools/benchmark/put.go:74-84 | exactly total puts, each with the dash value and no flags, key rendered over the previous key |
| PutBench.PutsSerialise | tools/benchmark/put.go:82 | every generated put serialises to a wire put with that key, the dash value, lease 0 |
| RangeBench.RangeOps | tools/benchmark/range.go:82 | one single-key range per key, only Key set |
| RangeBench.GenerateRanges | tools/benchmark/range.go:73-86 | requires a key space and fitting digits; the loop over the reused buffer sends RangesFor |
| RangeBench.GeneratedRanges | tools/benchmark/range.go:74-84 | exactly total single-key ranges, each key rendered over the previous key |
| TxnPutBench.TxnPutsFrom | tools/benchmark/txn_put.go:78-97 | one transaction per group, the buffer carried from one to the next |
| TxnPutBench.FillPuts | tools/benchmark/txn_put.go:80-88 | the inner loop fills success with one put per draw, moving the buffer past the group |
| TxnPutBench.NextTxnPut | tools/benchmark/txn_put.go:79-96 | one transaction: its puts, then the guard on the last key iff opsPerTxn is 1 |
| TxnPutBench.GenerateTxnPuts | tools/benchmark/txn_put.go:76-99 | requires nonzero ops per txn, a key space and fitting digits; sends TxnCount transactions as TxnPutsFor |
| TxnPutBench.TxnPutAt | tools/benchmark/txn_put.go:78-97 | transaction t is built over the buffer the earlier transactions left |
| TxnPutBench.TxnPutShape | tools/benchmark/txn_put.go:79-95 | opsPerTxn puts with only Key and the dash Value set and full-length keys, no failure ops, a guard iff one op, on that put's own key, serialisable |
| TxnPutBench.GeneratedTxnPuts | tools/benchmark/txn_put.go:76-99 | total/opsPerTxn transactions, each of opsPerTxn puts with only Key and the dash Value set, full-length keys, no failure ops, a guard iff one op on that put's key, serialisable |
| TxnRangeBench.TxnRangesFrom | tools/benchmark/txn_range.go:84-103 | one transaction per group, the buffer carried from one to the next |
| TxnRangeBench.Numbers | tools/benchmark/txn_range.go:88 | the raw draws, unreduced |
| TxnRangeBench.FillRanges | tools/benchmark/txn_range.go:86-94 | the inner loop fills success with one range per draw, moving the buffer past the group |
| TxnRangeBench.NextTxnRange | tools/benchmark/txn_range.go:85-102 | one transaction: its ranges, then the guard on the last key iff opsPerTxn is 1 |
| TxnRangeBench.GenerateTxnRanges | tools/benchmark/txn_range.go:82-105 | requires nonzero ops per txn and fitting raw draws; sends TxnCount transactions as TxnRangesFor |
| TxnRangeBench.TxnRangeAt | tools/benchmark/txn_range.go:84-103 | transaction t is built over the buffer the earlier transactions left |
| TxnRangeBench.TxnRangeShape | tools/benchmark/txn_range.go:85-101 | opsPerTxn single-key ranges (only Key set) with full-length keys, no failure ops, a guard iff one op, on that range's own key, serialisable |
| TxnRangeBench.GeneratedTxnRanges | tools/benchmark/txn_range.go:82-105 | total/opsPerTxn transactions, each of opsPerTxn single-key ranges (only Key set) with full-length keys, no failure ops, a guard iff one op on that range's key, serialisable |
| TxnRangeBench.DefaultKeySizeNeedsSmallDraws | tools/benchmark/txn_range.go:88-90 | with the default 8-byte key (line 40) a run can render its keys iff every raw 64-bit draw is below 10^8 |

## Left out

- gRPC dialing, logger setup and the KVClient stubs (pkg/etcd/client.go:29-70) are not modelled. The transport is the record of functions `Wire.KVClient`, and dialing in `newClients` is the parameter `dial`, whose first argument numbers the call so that every dial yields a connection of its own.
- Contexts are not modelled. Call signatures are uniform: `Put` and `Do` take a context, while `Range`, `Delete`, `Txn` and `Compact` do not yet call methods that require one.
- Client.Do passes the compaction by value. The Go code passes a `*CompactRequest` to the value-taking `Compact`.
- Txns.IsWrite and Txns.Revision give a compaction response a revision and "not a write". The Go `CompactResponse` has no `GetRevision` or `IsWrite`.
- A non-pointer request value inside a transaction, and a nil interface, are not modelled. The variant set is closed, so `Do`'s default panic cannot occur.
- Goroutines, channels, the WaitGroup, the rate limiter and the progress bar are not modelled. Each generator returns the sequence it would send, and the report consumes a sequence.
- Bench.Drain runs one worker over the whole stream. Report.ArrivalOrderIrrelevant shows any interleaving of workers gives the same stats.
- Randomness and clocks are parameters: the draws are input sequences and the durations an input sequence. `TotalTime` and the floating-point `RPS` are not modelled.
- Report.PercentileIndex reads `int(float64(n)*p/100)` with exact rationals, with p in per-mille (99.9 is 999). Float rounding near 99.9 is not modelled.
- Report.Average does not model int64 wrap-around of the `avgTotal` accumulator. The sum is an unbounded integer.
- Sorting.SortAscending stands in for the in-place `sort.Slice`. It is a functional insertion sort; Sorting.SortedPermutationUnique shows every correct sort yields the same list.
- The connection setup inside txn_range.go (tools/benchmark/txn_range.go:46-57) is not modelled. It dials an undefined `endpoint`; the shared `newClients` is modelled instead.
- The range benchmark's `val-size` flag is not modelled because the generator never reads it.
- The mixed, txn-mixed, txn and kv generators (tools/benchmark/mixed.go, txn_mixed.go, txn.go, kv.go) are not modelled. They choose operations with floating-point ratios; their key loop is the one modelled here.
- The benchmark/benchmark drivers, the Python log parsers and plotters, the C++ server and the Go tests are not part of this model. They wrap external clients, do I/O and plotting, or test a live server.
- Server-side behaviour is not modelled: limits, compaction errors, empty-key validation and the store itself. The encoders and the compare evaluator `Compares.Holds` are reference partners, not part of the client.

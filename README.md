# Ollama host scanner: the decision logic, modelled in Dafny

The scanner (`main.go`) sweeps an address range with zmap. It reads the live
addresses zmap writes, checks each host for an Ollama service on the
configured port, and lists the models the host serves. Unless benchmarking is
disabled, it streams one generation per model and times it. Every host's
models are written as rows of a CSV file.

This project models the sequential logic inside that pipeline. The network,
the JSON decoder, the clock and the IP parser are replaced by the values they
produce:

- **ConfigCheck** (`config.dfy`): `validateConfig`. Four checks run in a fixed order, and each has its own error.
- **Candidates** (`candidates.dfy`): the loop that reads zmap's output. It applies `strings.TrimSpace` to each line, modelled on Go's whitespace set, and submits a line only when `net.ParseIP` accepts it. `net.ParseIP` is an uninterpreted predicate `isIP`.
- **Catalog** (`catalog.dfy`): `checkOllama` and `getModels`, both reading `GET /api/tags`. The reply is a transport error, or a status code with a body. The two functions decode that body into different Go types, so the body carries both decoding outcomes. `checkOllama` reads `models` as a list of arbitrary JSON values, and `getModels` as a list of objects with a string `model` field. Neither decoding is stricter than the other. A body like `{"models":[1]}` passes `checkOllama`, but `getModels` returns nothing for it. A body like `{"models":[{"model":"m","size":1e400}]}` gives `getModels` the list `["m"]`, while `checkOllama` fails: it converts every number to float64, and this one overflows.
- **ModelOrder** (`order.dfy`): `sortModels`, which calls `sort.Strings`. The model sorts an `array<string>` in place with insertion sort. The order is Go's byte-wise string order, which on UTF-8 text is code-point order. `SortedPermutationUnique` shows that only one sorted permutation exists, so which algorithm sorts does not change the result.
- **Benchmark** (`benchmark.dfy`): `benchmarkModel`. This covers the loop over the newline-delimited reply, with its three locals `firstToken`, `lastToken` and `tokenCount`, and the classification after it.
- **CsvOutput** (`csv.dfy`): the header written by `initCSVWriter` and the rows written by `writeCSV`. A class `CsvSink` holds the records written so far. Its invariant is that the header is the first record and every later record is as wide as the header.
- **Decimal** (`decimal.dfy`): `%d` formatting of a Go int. It is used for the port column and for the `"HTTP <code>"` status, and is proved to round-trip.

Behaviour of the code that the model keeps, as written:

- **The clock.** `time.Now()` is a function `clock: nat -> Reading`, where `clock(i)` is the reading returned by the i-th call. The loop calls `time.Now()` twice for the first line (`firstToken`, then `lastToken`) and once for each later line. After `n` lines, `firstToken == clock(0)` and `lastToken == clock(n)`. So a one-line reply is a success whenever the clock moves between the two calls, not a "Zero time interval".
- **Counting.** `tokenCount` counts lines, undecodable ones included, up to and including the first line that decodes with `done == true`. A line json.Unmarshal rejects does not stop the loop, even when its `done` is `true`. An example is an object holding a number outside float64's range, such as `{"done":true,"eval_count":1e400}`.
- **The returned "latency".** It is `firstToken.Sub(time.Time{})`: the wall time since 1 January of year 1. Go's `Sub` saturates to the int64 range, so for any present-day clock the value is the largest `time.Duration`. It is not a first-token delay, and no request start time is recorded.
- **Model list.** `getModels` keeps the catalog order and keeps duplicates: it does not deduplicate.
- **Timeouts.** A stream cut short by the benchmark deadline or a read error simply ends. The lines read until then are classified as usual.
- **Unset durations.** `timeout` and `benchTimeout` (main.go:36, 45) get viper defaults (main.go:174, 181) but are never assigned from viper, so both stay 0. With `benchTimeout` at 0, the context made at main.go:435 has already expired, so the request at main.go:450 fails and every benchmark, as written, ends in "Connection failed". The model takes the reply as an input, so this does not change it.

## Model

| member | source | states |
|---|---|---|
| ConfigCheck.Validate | main.go:136-160 | accepts exactly when 1 ≤ port ≤ 65535, both paths are non-empty, rate > 0 and (benchmarking is disabled or the prompt is non-empty); otherwise the error is that of the first failing check, in the order port, paths, rate, prompt |
| ConfigCheck.PromptIgnoredWhenBenchDisabled | main.go:153-157 | with benchmarking disabled, the prompt never changes the verdict |
| Candidates.TrimLeft | main.go:307 | the result is a suffix of the input; everything dropped is whitespace; it does not start with whitespace |
| Candidates.TrimRight | main.go:307 | the result is a prefix of the input; everything dropped is whitespace; it does not end with whitespace |
| Candidates.TrimSpace | main.go:307 | whitespace is `IsSpace`, the set of unicode.IsSpace; the result is a contiguous slice s[i..j] with only whitespace before i and after j, and neither of its ends is whitespace |
| Candidates.TrimSpaceIdempotent | main.go:307 | trimming twice is trimming once |
| Candidates.Submitted | main.go:305-313 | no more addresses than lines are submitted, and every one is accepted by ParseIP |
| Candidates.SubmitCandidates | main.go:305-313 | the loop submits exactly `Submitted(lines)`: the trimmed lines ParseIP accepts, in line order |
| Candidates.SubmittedAppend | main.go:305-313 | each line is judged on its own: the submissions for a + b are those for a followed by those for b |
| Candidates.SubmittedMembers | main.go:305-313 | an address is submitted iff ParseIP accepts it and some line trims to it |
| Candidates.BlankLinesSkipped | main.go:306-308 | a line made only of whitespace is never submitted, given that ParseIP rejects "" |
| Catalog.CheckOllama | main.go:381-397 | true iff the reply has status 200, the body decodes as `struct{ Models []interface{} }`, and that list is non-empty |
| Catalog.Names | main.go:419-422 | one name per catalog entry, the entry's `model` field, in catalog order, duplicates kept |
| Catalog.ModelList | main.go:400-425 | getModels' return value: on status 200 with a body that decodes into the typed entries, one name per entry, the k-th being the k-th entry's `model`; otherwise empty (nil) |
| Catalog.GetModels | main.go:400-425 | on status 200 with a decodable body, the k-th result is the k-th entry's `model`, and there are as many results as entries; otherwise the result is empty (nil) |
| Catalog.ModelsImplyServiceCheck | main.go:381-425 | on the same reply, when getModels returns a non-empty list, checkOllama passes, for bodies where no entry holds a number outside float64's range (`DecodersAgree`) |
| Catalog.ModelsWithoutServiceCheck | main.go:392-424 | without that proviso it fails: a 200 reply that only the typed decoding accepts (such as `{"models":[{"model":"m","size":1e400}]}`) gives getModels `["m"]` while checkOllama fails |
| Catalog.ServiceCheckWithoutModels | main.go:392-396 | the converse fails: a 200 reply whose list decodes only untyped (such as `{"models":[1]}`) passes checkOllama, and getModels returns nothing |
| Catalog.FailedReplyHasNoModels | main.go:403-417 | a transport error, a non-200 status or a failure of the typed decoding gives no models; the service check fails on a transport error or a non-200 status |
| ModelOrder.LessEq | main.go:429 | Go's string comparison: a prefix is never greater than the whole, and if a non-empty string is at most another, the other is non-empty and its first character is at least as large |
| ModelOrder.LessEqReflexive | main.go:429 | the string order is reflexive |
| ModelOrder.LessEqTotal | main.go:429 | any two strings are comparable |
| ModelOrder.LessEqAntisymmetric | main.go:429 | strings ordered both ways are equal |
| ModelOrder.LessEqTransitive | main.go:429 | the string order is transitive |
| ModelOrder.SortModels | main.go:428-431 | afterwards the array is in non-decreasing lexicographic order and is a permutation of its old contents (the same multiset) |
| ModelOrder.SortedHeadsEqual | main.go:428-431 | two sorted arrangements of one multiset start with the same name |
| ModelOrder.TailsSameMultiset | main.go:428-431 | removing an equal head from two lists with equal multisets leaves equal multisets |
| ModelOrder.SortedPermutationUnique | main.go:428-431 | a sorted arrangement of a multiset is unique, so the sort's result is fully determined by its input |
| ModelOrder.SortIdempotent | main.go:428-431 | sorting an already sorted list gives that list back: applying sortModels twice equals applying it once |
| Benchmark.Sub | main.go:488 | Time.Sub: the difference, saturated to MaxDuration above and to MinDuration below the int64 range; zero iff equal, positive iff later |
| Benchmark.Consumed | main.go:467-482 | a line ends the stream (`EndsStream`) when it decodes with done == true (main.go:479); the number of lines consumed: none before the last consumed one has done == true; if lines remain, the last consumed one has done == true; a non-empty stream consumes at least one line |
| Benchmark.ReadStream | main.go:460-482 | tokenCount == Consumed(lines); when positive, firstToken is the first clock reading and lastToken the (tokenCount+1)-th |
| Benchmark.CountsEveryLineWithoutDone | main.go:472-477 | undecodable lines are counted: without a done line the count is the number of lines |
| Benchmark.ConsumedIgnoresRest | main.go:479-481 | lines after the first done line are never consumed |
| Benchmark.IgnoresLinesAfterDone | main.go:479-481 | appending anything after a done line leaves the result unchanged |
| Benchmark.Classify | main.go:484-494 | "No response data" iff no line was consumed; "Zero time interval" iff lines were consumed but the first and last readings are equal; otherwise "Success". Latency and rate are 0 on both failures, and the rate is positive on success when the last reading is later |
| Benchmark.Measure | main.go:434-495 | benchmarkModel as a function of the reply and the clock. An "HTTP <code>" status never carries 200. Success needs a 200 reply with at least one line. Every failure returns latency 0 and rate 0 |
| Benchmark.StatusText | main.go:452-494 | the returned status strings. Only "HTTP <code>" starts with 'H', and its text after "HTTP " is the code in decimal |
| Benchmark.BenchmarkModel | main.go:434-495 | the method's result is Measure(reply, clock), the function the lemmas below are about |
| Benchmark.StatusByCase | main.go:450-494 | transport error ⇒ "Connection failed"; non-200 ⇒ "HTTP <code>" with that code; no lines ⇒ "No response data"; first and last reading equal ⇒ "Zero time interval"; each iff its condition; every failure returns latency 0 and rate 0 |
| Benchmark.RateIsPositiveOnSuccess | main.go:484-494 | with a monotonic clock the rate is never negative; on success the last reading is strictly after the first and the rate is count·10⁹ / elapsed ns > 0 |
| Benchmark.SingleLineSucceeds | main.go:468-471 | one line whose two clock reads differ gives "Success" at one line per clock gap |
| Benchmark.LatencyIsSaturatedWallTime | main.go:494 | the returned latency is the wall time since year 1, saturated: for any first reading after the year 2000 it is the largest Duration |
| Benchmark.StatusTextInjective | main.go:452-494 | different statuses have different texts (including different HTTP codes) |
| CsvOutput.TextCells | main.go:234-236 | one text cell per column name, in order |
| CsvOutput.Header | main.go:234-237 | four base columns when benchmarking is disabled, otherwise those four followed by the two benchmark columns (width 4 or 6) |
| CsvOutput.Row | main.go:351-357 | every row is as wide as the header under the same setting; it starts with IP, decimal port, model name and status, then (benchmarking on) the delay in ms and the rate |
| CsvOutput.Rows | main.go:350-359 | one row per model, in model order |
| CsvOutput.CsvSink.constructor | main.go:233-238 | the writer's records start with the header alone |
| CsvOutput.CsvSink.WriteResult | main.go:349-360 | appends exactly the host's rows after what was written before, keeping the header first and every row the header's width |
| Decimal.NatText | main.go:351 | a non-empty string of digits, with no leading zero unless the number is 0 |
| Decimal.Format | main.go:351 | non-empty; starts with '-' iff the number is negative |
| Decimal.ParseNatText | main.go:351 | reading the digits back gives the number |
| Decimal.FormatRoundTrip | main.go:351 | reading `%d` text back gives the number |
| Decimal.FormatInjective | main.go:457 | distinct numbers have distinct texts |

## Left out

- WorkerPool, Submit, Wait, resultsChan, resultHandler and worker (main.go:61-91, 303, 315-316, 324-329, 363-368) are left out: they exist for goroutine and channel concurrency. SubmitCandidates records the addresses that are handed to `pool.Submit`.
- maxWorkers is never read from the configuration (main.go:189, 301), and the final flush does not wait for resultHandler (main.go:318). Both are concurrency issues outside the model.
- setupSignalHandler (main.go:242-254) is left out: it handles OS signals and `os.Exit`.
- checkDependencies and execZmap (main.go:119-133, 274-291) are left out: they run subprocesses.
- loadConfig (main.go:163-192) is left out: it loads a file through viper. Its defaults are not modelled either.
- initHTTPClient (main.go:195-206), checkPort (main.go:371-378) and every HTTP request are left out as network I/O. JSON decoding is left out too. Their outcomes are the inputs `HttpReply`, `GenerateReply` and `Line`.
- net.ParseIP is the uninterpreted predicate `isIP`, and `time.Now()` is the `clock` parameter.
- Reading zmap's output is left out. The input lines are given, as are the lines of a generation reply. Such a stream also ends at bufio.Scanner's 64 KiB token limit or at the benchmark deadline, and this is folded into the given lines.
- printResult (main.go:332-346) and float rendering are left out: they are terminal output and floating-point text. A cell keeps its number and the `%.0f` or `%.1f` precision.
- runScanProcess and startScan (main.go:209-223, 257-271) are left out: they only orchestrate. runScanProcess uses `portScanOnly`, which the file never declares.
- processIP is called but not defined in the file, so the per-host pipeline is not modelled. The shape of ScanResult (IP, and Models with Name, Status, FirstTokenDelay and TokensPerSec) comes from how it is used.
- The CSV file, zmap's `-o` output and the file processResults reads all use the same `outputFile` path (main.go:228, 279, 295). The model does not cover how these writes to one file interact: CsvSink is the csv.Writer's record stream, not the file's bytes.
- CsvOutput.CsvSink.constructor models only the case where `os.Create` succeeds, because creating the file is I/O. startScan ignores the error anyway (main.go:213). Buffering, `Flush` and write errors of csv.Writer are not modelled.
- Catalog.ModelsImplyServiceCheck assumes `DecodersAgree`, which fails for a body with an entry field other than `model` holding a number outside float64's range. Catalog.ModelsWithoutServiceCheck shows that case.
- checkOllama and getModels each send their own GET in the source. Catalog.ModelsImplyServiceCheck compares them on one and the same reply.
- Benchmark.BenchmarkModel computes the rate in exact reals rather than float64, so rounding is not modelled.
- Go ints (port, rate, status code) and clock readings are unbounded here. The only int64 effect that matters, the saturation of `Time.Sub`, is modelled explicitly.

# Prefetcher feature pipelines, modelled in Dafny

This project models the Python scripts that turn memory traces into feature tables for
prefetcher training. The traces are written by the `memtrace` Pin tool. The scripts are:

* `parse_trace_file`: turns the tracer's text lines into entries `{timestamp, pc, addr, type, tid}`.
  - Blank lines and `#` lines are skipped.
  - `I Ox<hex>` lines are instructions.
  - Every other line is an access record read token by token (`tid=`, `ip=`, `ea=`).
  - The first bad number ends the parse.
* The rank-`i` GHB pipeline (`ghb_pipeline2.generate_features`). For each read or write access and each rank `i`, it computes the address delta to the `i`-th read and the `i`-th write. The backward scan starts `i` places back and the forward scan starts `i` places ahead.
* The fixed-window GHB pipeline (`ghb_pipeline.generate_features`). It emits `n` past and `n` future address deltas for every address-bearing entry that has a full window.
* The PC-delta script (`pc_delta_features.py`). It collects the PCs, takes their deltas, and streams over them with three bounded deques and an n-gram counter, emitting one integer feature row per position.
* The higher-order GHB summary (`ghb2_pipeline2.process_higher_ghb`). It takes disjoint windows of `n` rows and computes:
  - per delta column: the pattern, the most frequent delta and the stride changes;
  - per window: the segment transitions, the read and write counts and the dominant type subsequence.
* The Markov chain builder (`create_markov_chain.build_markov_chain`). It counts pairs of consecutive values across files, then normalises each row.

## How the model is organised

* Modules follow the scripts:
  - `Wrappers`: Option and Result;
  - `Text`: the Python `str` behaviour the scripts rely on;
  - `Dicts`: insertion-ordered `dict` and `Counter`;
  - `TraceParser`;
  - `RankFeatures`;
  - `WindowFeatures`;
  - `PcFeatures`;
  - `HigherGhb`;
  - `Markov`.
* Each loop of the source is a `method` with a loop (`for` or `while`). The one exception is the `ngram_top` padding loop (pc_delta_features.py:124-125), which is the function `Padded`.
  - The method is proved against a specification function of the inputs, for example `ParseTraceFile` against `Parsed` and `ScanPast` against `PastDelta`.
  - The properties the scripts promise are lemmas about those functions.
* An exception is an `Err` result carrying the position of the offending line or file.
* The scripts have no classes of their own. The containers they mutate (`list`, `dict`, `deque`, `Counter`, `defaultdict`) are values reassigned by the loops.

Where the code and its documentation differ, the model follows the code:

* In the rank-`i` pipeline, the scan for rank `i` starts at position `idx - i`, not at `idx - 1`.
* A scan that meets fewer than `i` accesses of its class does not give `None`. The delta stays at the first access it met. Only a scan that meets nothing gives `None`.
* `R2` counts as a read.
* In the fixed-window pipeline, the past and future loops write the same `Address 1_j` and `Address 2_j` keys, so a finished row holds the future pair. `WindowRow` and `FinishedRow` state this.

## Model

| member | source | states |
|---|---|---|
| Text.StartsWithPrefix | ghb_pipeline2.py:9 | `s.startswith(p)` holds exactly when `p` is a prefix of `s` |
| Text.Strip | ghb_pipeline2.py:8 | `strip()` returns a slice of its input, never longer |
| Text.StripFirst | ghb_pipeline2.py:8 | text starting with a non-space character keeps that first character |
| Text.StripLeftSpaces | ghb_pipeline2.py:8 | left stripping drops only whitespace and keeps a suffix that does not start with whitespace |
| Text.StripRightSpaces | ghb_pipeline2.py:8 | right stripping drops only whitespace and keeps a prefix that does not end with whitespace |
| Text.StripSpec | ghb_pipeline2.py:8 | `strip()` is empty exactly for all-whitespace text; otherwise it starts and ends with a non-space character |
| Text.StripTrimmed | ghb_pipeline2.py:8 | text that starts and ends with non-space characters, followed by whitespace such as a line terminator, strips to itself |
| Text.SplitTokens | ghb_pipeline2.py:11 | every token of `split()` is non-empty and holds no whitespace |
| Text.SplitFirst | ghb_pipeline2.py:11-12 | text starting with a non-space character has a first token, which is its leading word |
| Text.SplitWordThen | ghb_pipeline2.py:11 | a word followed by whitespace is the first token and the rest is split as before |
| Text.SplitJoined | ghb_pipeline2.py:11 | words joined by single spaces split back into the same words |
| Text.Split | ghb_pipeline2.py:11 | `split()` gives at most one token per character, and a non-empty word without whitespace is its only token |
| Text.SecondFieldOf | ghb_pipeline2.py:23-27 | `(key + "=" + value).split("=")[1] == value` when neither part contains `=` |
| Text.Render | source/tools/ManualExamples/memtrace.cpp:28-46 | the tracer's `hex`/`dec` output is a non-empty digit string whose value is the number |
| Text.DigitAppended | source/tools/ManualExamples/memtrace.cpp:28-46 | appending a digit multiplies the value by the base and adds the digit |
| Text.ParseDecimal | ghb_pipeline2.py:23 | `int(str(n)) == n` for the decimal thread id |
| Text.ParseHex | ghb_pipeline2.py:13-14 | `int(h, 16)` reads back the bare hex digits the tracer writes |
| Text.Parse0xHex | ghb_pipeline2.py:25-27 | `int("0x" + h, 16)` reads back the tracer's `0x`-prefixed addresses |
| Text.ParseInt | ghb_pipeline2.py:14 | `int(s, base)` fails on empty text and on a bare sign, is negative only after a `-`, and reads a digit string as its value |
| Text.PyHex | ghb_pipeline2.py:41-43 | `hex(n)` is `0x` and digits of `n`, or `-0x` and digits of `-n` for a negative `n` |
| Text.ParsePyHex | ghb_pipeline2.py:41-43 | `int(hex(n), 16) == n` for every integer, negative ones included |
| Dicts.Put | create_markov_chain.py:75 | `d[k] = v` maps `k` to `v`; a present key keeps its place and a new key goes last |
| Dicts.PutValid | create_markov_chain.py:75 | `d[k] = v` keeps the keys distinct and in step with the mapping |
| Dicts.Increment | create_markov_chain.py:69 | `counter[k] += 1` raises `k` by one, leaves every other count and key alone, adds a new key last, and raises the total by one |
| Dicts.TallyOf | ghb2_pipeline2.py:138 | `Counter(s)` holds every element with its multiplicity, no other key, and total `len(s)` |
| Dicts.MostCommon | ghb2_pipeline2.py:139 | `most_common(1)[0][0]` is an element of maximal count, the first seen among equals |
| Dicts.BestBefore | ghb2_pipeline2.py:139 | the first position among the first `n` whose element has the highest count |
| Dicts.InsertDescAdds | pc_delta_features.py:123 | inserting into the count list adds exactly that count |
| Dicts.InsertDesc | pc_delta_features.py:123 | inserting a count adds one element |
| Dicts.InsertDescSorted | pc_delta_features.py:123 | inserting into a non-increasing list keeps it non-increasing |
| Dicts.SortDescSpec | pc_delta_features.py:123 | sorting the counts gives a non-increasing permutation of them |
| Dicts.SortDesc | pc_delta_features.py:123 | sorting keeps the number of counts |
| Dicts.TopCounts | pc_delta_features.py:123-125 | `most_common(k)` reports `min(k, n)` counts |
| Dicts.TopCountsAreLargest | pc_delta_features.py:123-125 | `most_common(k)` reports `min(k, n)` counts: non-increasing, taken from the counter, and no count left out exceeds a reported one |
| Dicts.SortedPrefix | pc_delta_features.py:123 | a prefix of a non-increasing list is non-increasing and no element left out exceeds it |
| TraceParser.ApplyToken | ghb_pipeline2.py:21-27 | a `tid=`/`ip=`/`ea=` token whose number fails raises with that token's value; any other token changes nothing |
| TraceParser.Ignored | ghb_pipeline2.py:8-10 | a blank line or a `#` line is skipped; a line starting with any other non-space character is kept |
| TraceParser.DropMarker | ghb_pipeline2.py:13 | `parts[1][2:]` drops the first two characters and keeps the rest, or gives empty text |
| TraceParser.AccessFields | ghb_pipeline2.py:21-27 | a failure raises with the value of one of the tokens; tokens without a `tid=`/`ip=`/`ea=` prefix set no field |
| TraceParser.Parsed | ghb_pipeline2.py:3-30 | a parse has at most one entry per line; a failure names a line that is kept |
| TraceParser.LineEntry | ghb_pipeline2.py:11-28 | the entry of a kept line carries its timestamp; an `I` entry has a pc and no address or tid; an error names the line |
| TraceParser.KeptCount | ghb_pipeline2.py:9-10 | at most one kept line per input line |
| TraceParser.ErrorSticks | ghb_pipeline2.py:21-27 | once a token of an access line fails, the line fails with that token |
| TraceParser.ParseAccessFields | ghb_pipeline2.py:17-28 | the token loop of an access line computes `AccessFields` |
| TraceParser.ParsedErrorSticks | ghb_pipeline2.py:7-29 | once a line fails, the whole file fails with that line's error |
| TraceParser.ParseLine | ghb_pipeline2.py:8-28 | the loop body's entry for one kept line is `LineEntry` |
| TraceParser.ParseTraceFile | ghb_pipeline2.py:3-30 | the file loop computes `Parsed`: the entries of the kept lines in order, or the first error |
| TraceParser.ParsedTimestamps | ghb_pipeline2.py:6-29 | a successful parse has one entry per kept line, with timestamps `0, 1, 2, ...` |
| TraceParser.ParsedPrefix | ghb_pipeline2.py:4-29 | the entries of a prefix of the file begin the entries of the whole file |
| TraceParser.ParsedEntry | ghb_pipeline2.py:7-29 | the kept line at position `i` is the entry whose timestamp counts the lines kept before it |
| TraceParser.ParsedLast | ghb_pipeline2.py:28-29 | a successful parse whose last line is kept ends with that line's entry |
| TraceParser.LineOkAnyTime | ghb_pipeline2.py:11-28 | whether a line can be read does not depend on its timestamp |
| TraceParser.ReadableAt | ghb_pipeline2.py:7-29 | in a successful parse, each kept line can be read |
| TraceParser.ParsedAllReadable | ghb_pipeline2.py:7-29 | in a successful parse, every kept line can be read |
| TraceParser.ParsedOkIff | ghb_pipeline2.py:7-29 | the file parses exactly when every kept line can be read |
| TraceParser.ParsedFirstError | ghb_pipeline2.py:7-29 | a failed parse reports the first unreadable kept line, with that line's own error |
| TraceParser.TokensOf | ghb_pipeline2.py:8-11 | a line of words joined by spaces is kept, and its tokens are the words |
| TraceParser.InstructionLine | ghb_pipeline2.py:12-15 | the tracer's `I Ox<hex ip>` line becomes an `I` entry with pc `ip` and no address |
| TraceParser.AccessRecord | ghb_pipeline2.py:16-28 | a line whose first token is not `I` is an access entry of that type with the fields of its tokens |
| TraceParser.AccessFieldsStep | ghb_pipeline2.py:21-27 | reading one more token applies that token |
| TraceParser.ApplyTid | ghb_pipeline2.py:22-23 | `tid=<v>` sets the thread id to `int(v)` |
| TraceParser.ApplyIp | ghb_pipeline2.py:24-25 | `ip=<v>` sets the pc to `int(v, 16)` |
| TraceParser.ApplyEa | ghb_pipeline2.py:26-27 | `ea=<v>` sets the address to `int(v, 16)` |
| TraceParser.KeyOf | ghb_pipeline2.py:22-27 | which of the three prefixes a `key=value` token has |
| TraceParser.AccessTokens | ghb_pipeline2.py:21-27 | the tracer's three tokens after the type set tid, pc and address, in that order |
| TraceParser.AccessFieldsThree | ghb_pipeline2.py:21-27 | three tokens are applied left to right |
| TraceParser.AccessLine | source/tools/ManualExamples/memtrace.cpp:34-46 | the tracer's `R`/`R2`/`W tid=.. ip=0x.. ea=0x..` lines become entries of that type with the tid, pc and address written |
| TraceParser.BannerLine | source/tools/ManualExamples/memtrace.cpp:21 | the banner `Main executable loaded at address:<hex>` is kept as a `Main` entry with no pc, address or tid |
| TraceParser.BannerFields | ghb_pipeline2.py:21-27 | none of the banner's later words sets a field |
| TraceParser.FinishLine | source/tools/ManualExamples/memtrace.cpp:102 | the closing `# Program finished` line is skipped |
| RankFeatures.RwIndices | ghb_pipeline2.py:34 | `rw_indices` lists, in strictly increasing order, exactly the entries with an address and type `R`, `W` or `R2` |
| RankFeatures.IsRW | ghb_pipeline2.py:34 | an entry that takes part has an address and is not an instruction |
| RankFeatures.OpOf | ghb_pipeline2.py:34 | the access type of an entry that takes part spells its `type` |
| RankFeatures.Accesses | ghb_pipeline2.py:37-38 | access `k` is `entries[rw_indices[k]]` |
| RankFeatures.Before | ghb_pipeline2.py:54-56 | the backward scan meets positions of the class in range, nearest first |
| RankFeatures.After | ghb_pipeline2.py:86-88 | the forward scan meets positions of the class in range, nearest first |
| RankFeatures.Pick | ghb_pipeline2.py:57-62 | a rank-`i` scan settles on a position it meets, and on none only when it meets none |
| RankFeatures.PastDelta | ghb_pipeline2.py:46-75 | no past delta before position `i`; a past delta is to an access of the class at or before `idx - i` |
| RankFeatures.FutureDelta | ghb_pipeline2.py:78-107 | no future delta within `i` of the end; a future delta is to an access of the class at or after `idx + i` |
| RankFeatures.BeforeSplit | ghb_pipeline2.py:54 | a backward scan range cut in two meets the upper part first |
| RankFeatures.AfterSplit | ghb_pipeline2.py:86 | a forward scan range cut in two meets the lower part first |
| RankFeatures.BeforeComplete | ghb_pipeline2.py:54-56 | the backward scan meets every position of the class in range |
| RankFeatures.AfterComplete | ghb_pipeline2.py:86-88 | the forward scan meets every position of the class in range |
| RankFeatures.BeforeStep | ghb_pipeline2.py:54-56 | one more backward step adds that position when it is of the class |
| RankFeatures.AfterStep | ghb_pipeline2.py:86-88 | one more forward step adds that position when it is of the class |
| RankFeatures.PastHit | ghb_pipeline2.py:53-62 | the backward delta is taken at the `i`-th match |
| RankFeatures.PastShort | ghb_pipeline2.py:53-62 | with fewer than `i` matches the backward delta is that of the first match, or `None` |
| RankFeatures.FutureHit | ghb_pipeline2.py:85-94 | the forward delta is taken at the `i`-th match |
| RankFeatures.FutureShort | ghb_pipeline2.py:85-94 | with fewer than `i` matches the forward delta is that of the first match, or `None` |
| RankFeatures.PastPass | ghb_pipeline2.py:55-56 | passing an access of the other class changes nothing |
| RankFeatures.PastCount | ghb_pipeline2.py:57-59 | a match before the `i`-th is counted, and the first one sets the delta |
| RankFeatures.PastLast | ghb_pipeline2.py:60-62 | the `i`-th match settles the backward delta |
| RankFeatures.PastVisit | ghb_pipeline2.py:55-62 | one backward step either settles the delta or keeps the scan state |
| RankFeatures.FuturePass | ghb_pipeline2.py:87-88 | passing an access of the other class changes nothing |
| RankFeatures.FutureCount | ghb_pipeline2.py:89-91 | a match before the `i`-th is counted, and the first one sets the delta |
| RankFeatures.FutureLast | ghb_pipeline2.py:92-94 | the `i`-th match settles the forward delta |
| RankFeatures.FutureVisit | ghb_pipeline2.py:87-94 | one forward step either settles the delta or keeps the scan state |
| RankFeatures.ScanPast | ghb_pipeline2.py:52-73 | the backward scan loop computes `PastDelta` (for reads and for writes) |
| RankFeatures.ScanFuture | ghb_pipeline2.py:84-105 | the forward scan loop computes `FutureDelta` |
| RankFeatures.Column | ghb_pipeline2.py:46-75 | a row has one delta per rank `1..n` in each column family |
| RankFeatures.ColumnStep | ghb_pipeline2.py:46 | one more rank appends that rank's delta |
| RankFeatures.RowOf | ghb_pipeline2.py:38-107 | each of the four delta families of a row has `max(0, n)` cells |
| RankFeatures.PastColumns | ghb_pipeline2.py:46-75 | the past rank loop fills the last-read and last-write columns |
| RankFeatures.FutureColumns | ghb_pipeline2.py:78-107 | the future rank loop fills the next-read and next-write columns |
| RankFeatures.RowsUpTo | ghb_pipeline2.py:37-109 | one row per access so far |
| RankFeatures.RowsUpToAt | ghb_pipeline2.py:37-109 | row `k` is the row of access `k` |
| RankFeatures.BuildRow | ghb_pipeline2.py:38-109 | the loop body builds `RowOf` |
| RankFeatures.GenerateFeatures | ghb_pipeline2.py:32-110 | one row per read or write access, in trace order, row `k` being that of access `k` |
| RankFeatures.RankNames | ghb_pipeline2.py:46-49 | the rank loop adds two names per rank, rank by rank |
| RankFeatures.ColumnNames | ghb_pipeline2.py:39-44 | a row has `4 + 4n` columns, starting with `Timestamp, PC, Type, Address` |
| RankFeatures.ColumnNamesAt | ghb_pipeline2.py:116 | the CSV header puts each rank's `last_read, last_write` pair after the fixed columns, then each rank's `next_read, next_write` pair |
| RankFeatures.BeforeEmptyIff | ghb_pipeline2.py:54-56 | the backward scan meets nothing exactly when no access of the class is in range |
| RankFeatures.AfterEmptyIff | ghb_pipeline2.py:86-88 | the forward scan meets nothing exactly when no access of the class is in range |
| RankFeatures.PastNoneIff | ghb_pipeline2.py:50-62 | a past delta is `None` exactly when no access of the class lies at or before `idx - i` |
| RankFeatures.FutureNoneIff | ghb_pipeline2.py:82-94 | a future delta is `None` exactly when no access of the class lies at or after `idx + i` |
| RankFeatures.PastNearest | ghb_pipeline2.py:57-62 | at rank 1, or with fewer than `i` matches, the past delta is to the nearest match |
| RankFeatures.FutureNearest | ghb_pipeline2.py:89-94 | at rank 1, or with fewer than `i` matches, the future delta is to the nearest match |
| RankFeatures.NextNeighbour | ghb_pipeline2.py:79-94 | the rank-1 future delta is to the nearest access of the class after `idx` |
| RankFeatures.RankOneExample | ghb_pipeline2.py:46-75 | a concrete trace: the rank-1 past write and read deltas |
| RankFeatures.RankTwoSkipsExample | ghb_pipeline2.py:47-54 | rank 2 starts two places back and so skips the nearest read |
| RankFeatures.ShortScanExample | ghb_pipeline2.py:57-62 | at rank 2 a single read three positions back still gives its delta, 12, not `None` |
| WindowFeatures.MemCount | ghb_pipeline.py:60-68 | the rank of an entry counts the address-bearing entries before it |
| WindowFeatures.AddrsUpTo | ghb_pipeline.py:55-58 | one address per address-bearing entry so far |
| WindowFeatures.Addrs | ghb_pipeline.py:55-58 | `addrs` has one address per address-bearing entry |
| WindowFeatures.AddrsUpToPrefix | ghb_pipeline.py:55-58 | the addresses of a prefix begin the addresses of a longer prefix |
| WindowFeatures.MemRankAddress | ghb_pipeline.py:58-68 | an entry's rank indexes its own address, and later entries have larger ranks |
| WindowFeatures.MemRankIndex | ghb_pipeline.py:60-68 | an entry's rank indexes its own address in `addrs` |
| WindowFeatures.MemIndexMap | ghb_pipeline.py:61-68 | `timestamp_to_memindex` maps every position to its rank, or to `None` when it has no address |
| WindowFeatures.PastOrder | ghb_pipeline.py:80-86 | after fixed keys and past rounds `n..lo+1`, the row has `3 + 3(n - lo)` keys |
| WindowFeatures.PastDelta | ghb_pipeline.py:83 | the delta back `0` places is 0, and with strictly increasing addresses every past delta is positive |
| WindowFeatures.FutureDelta | ghb_pipeline.py:89 | the delta `j` places ahead of `idx` is the past delta `j` places back from `idx + j` |
| WindowFeatures.PastOrderHas | ghb_pipeline.py:82-86 | the past rounds have written exactly their delta and address keys |
| WindowFeatures.PastOrderDistinct | ghb_pipeline.py:82-86 | no past round writes a key twice |
| WindowFeatures.FutureOrder | ghb_pipeline.py:88-92 | each future round adds one key |
| WindowFeatures.FutureOrderHas | ghb_pipeline.py:88-92 | future rounds add only their delta keys, reusing the address keys |
| WindowFeatures.FutureOrderDistinct | ghb_pipeline.py:88-92 | the future rounds keep the keys distinct |
| WindowFeatures.RowKeys | ghb_pipeline.py:80-92 | a finished row has `3 + 4n` distinct keys |
| WindowFeatures.RowKeyRanks | ghb_pipeline.py:82-92 | every delta and address key of a row has a rank in `1..n` |
| WindowFeatures.WindowRowValid | ghb_pipeline.py:80-92 | a finished row is a well-formed dict |
| WindowFeatures.PastStepKeys | ghb_pipeline.py:83-86 | a past round appends its three new keys |
| WindowFeatures.PastStepCells | ghb_pipeline.py:83-86 | a past round stores its delta and address pair and keeps the other cells |
| WindowFeatures.PastThenFuture | ghb_pipeline.py:82-88 | the future loop starts from the finished past cells |
| WindowFeatures.FutureStepKeys | ghb_pipeline.py:89-92 | a future round appends its delta key; its address keys keep their place |
| WindowFeatures.FutureStepCells | ghb_pipeline.py:89-92 | a future round stores its delta, overwrites its address pair and keeps the other cells |
| WindowFeatures.FinishedRow | ghb_pipeline.py:80-92 | after both loops the dict is `WindowRow`, whose `Address` keys hold the future pair |
| WindowFeatures.FinishedCell | ghb_pipeline.py:80-92 | after both loops every key holds its finished value |
| WindowFeatures.PastRound | ghb_pipeline.py:83-86 | one past round keeps the key order and the cells proved so far |
| WindowFeatures.FillPast | ghb_pipeline.py:82-86 | the past loop writes every past delta and address pair, keys in order |
| WindowFeatures.FutureRound | ghb_pipeline.py:89-92 | one future round keeps the key order and the cells proved so far |
| WindowFeatures.FillFuture | ghb_pipeline.py:88-92 | the future loop leaves the final keys with every future delta and pair |
| WindowFeatures.BuildRow | ghb_pipeline.py:80-92 | building one row gives `WindowRow` |
| WindowFeatures.WindowRow | ghb_pipeline.py:80-92 | a finished row is a well-formed dict with `3 + 4n` keys, holding `addrs[idx] - addrs[idx - j]` at `Delta(i-j)` and `addrs[idx + j] - addrs[idx]` at `Delta(i+j)` |
| WindowFeatures.RowDeltaKeys | ghb_pipeline.py:82-92 | every `Delta(i-j)` and `Delta(i+j)` key for `j` in `1..n` is among a row's keys |
| WindowFeatures.Eligible | ghb_pipeline.py:70-78 | an entry has a row only when it has an address, whose rank indexes that address in `addrs`, and only when `addrs` is longer than `2n` |
| WindowFeatures.EligibleCount | ghb_pipeline.py:70-78 | at most one row per entry |
| WindowFeatures.Rows | ghb_pipeline.py:70-94 | one row per eligible entry so far |
| WindowFeatures.GenerateFeatures | ghb_pipeline.py:42-95 | the rows of the eligible entries in order, or, as `hex(None)` raises, the first eligible entry without a PC |
| WindowFeatures.RowsAt | ghb_pipeline.py:70-94 | the eligible entry at `k` has its row at the count of eligible entries before it |
| WindowFeatures.EligibleCountMono | ghb_pipeline.py:70-78 | the eligible count grows with the prefix |
| WindowFeatures.EligibleCountIs | ghb_pipeline.py:76-78 | the eligible ranks so far are those from `n` up to, not including, `len(addrs) - n` |
| WindowFeatures.RowCount | ghb_pipeline.py:76-78 | the number of rows is `max(0, len(addrs) - 2n)` for `n >= 0` |
| PcFeatures.PcOfLine | pc_delta_features.py:54-58 | a line contributes a PC (or raises) exactly when it starts with `I` |
| PcFeatures.FixMarker | pc_delta_features.py:56-57 | the `Ox` rewrite keeps the length and everything after the marker, and leaves no `Ox` in front |
| PcFeatures.PcsUpTo | pc_delta_features.py:51-58 | an error names a line already read |
| PcFeatures.ICount | pc_delta_features.py:54 | at most one `I` line per line |
| PcFeatures.LinePc | pc_delta_features.py:54-58 | the loop body computes `PcOfLine` |
| PcFeatures.CollectPcs | pc_delta_features.py:51-58 | the PC collection loop computes `PcsUpTo` of all lines, stopping at the first error |
| PcFeatures.CollectLine | pc_delta_features.py:53-58 | one line extends the outcomes read so far |
| PcFeatures.CollectedLines | pc_delta_features.py:53-58 | collecting the outcomes of the first lines is `PcsUpTo` |
| PcFeatures.CollectedError | pc_delta_features.py:53-58 | an error among the first lines is the result for the whole file |
| PcFeatures.ErrorSticks | pc_delta_features.py:53-58 | once a line fails, every longer prefix fails with it |
| PcFeatures.PcsCount | pc_delta_features.py:53-58 | without an error there is exactly one PC per `I` line |
| PcFeatures.PcsAt | pc_delta_features.py:53-58 | without an error, the PC at position `ICount(lines, j)` is what `I` line `j` gives: `int(addr, 16)` of its second token after the `Ox` rewrite |
| PcFeatures.TracerLineTokens | pc_delta_features.py:54-55 | the tracer's instruction line starts with `I` and splits into `I` and `Ox<hex>` |
| PcFeatures.MarkedToken | pc_delta_features.py:55-57 | the `Ox` marker is rewritten to `0x` |
| PcFeatures.TracerLine | pc_delta_features.py:54-58 | the tracer's `I Ox<hex ip>` line yields `ip` |
| PcFeatures.ComputeDeltas | pc_delta_features.py:63-65 | `deltas[i] == pcs[i+1] - pcs[i]`, with one delta fewer than PCs |
| PcFeatures.IsDeltas | pc_delta_features.py:63-65 | there is one delta fewer than PCs, or no PC and no delta |
| PcFeatures.DeltasTelescope | pc_delta_features.py:63-65 | the first PC plus the first `i` deltas is the `i`-th PC |
| PcFeatures.Window | pc_delta_features.py:68-79 | a window holds `min(n, cap)` elements |
| PcFeatures.Push | pc_delta_features.py:77-79 | `append` on a `deque(maxlen=cap)` keeps at most `cap` elements |
| PcFeatures.PushWindow | pc_delta_features.py:77-79 | pushing the next delta into a deque of the last `cap` deltas gives the next window |
| PcFeatures.DequeContents | pc_delta_features.py:68-79 | after delta `t`, each deque holds exactly the last `min(t + 1, cap)` deltas in order |
| PcFeatures.Ngrams | pc_delta_features.py:79-81 | one n-gram per position with a full buffer |
| PcFeatures.NgramsAt | pc_delta_features.py:79-81 | the n-gram counted at `t` is the last `NGRAM` deltas up to `t` |
| PcFeatures.NgramCountsValid | pc_delta_features.py:80-81 | the n-gram counter stays a well-formed counter |
| PcFeatures.TallyStep | pc_delta_features.py:81 | counting one more n-gram increments its count |
| PcFeatures.NgramCountsTally | pc_delta_features.py:70-81 | the streamed counter equals `Counter` of all n-grams seen so far |
| PcFeatures.NgramAt | pc_delta_features.py:79-81 | delta `j` completes an n-gram exactly when `j + 1 >= NGRAM`, and that n-gram is the last `NGRAM` deltas up to `j` |
| PcFeatures.NgramStep | pc_delta_features.py:79-81 | delta `j` either raises the count of the n-gram it completes and records that n-gram, or changes neither |
| PcFeatures.TallyAdvance | pc_delta_features.py:79-81 | if the counter equals `Counter` of the n-grams before delta `j`, it still does after it |
| PcFeatures.TallyCounted | pc_delta_features.py:81 | `Counter` of one more n-gram is the old `Counter` with that n-gram's count raised by one |
| PcFeatures.CountedUnique | pc_delta_features.py:81 | the same counter and the same n-gram give the same raised counter |
| PcFeatures.NgramTotals | pc_delta_features.py:80-81 | the counts add up to the number of full buffers so far |
| PcFeatures.TrailingRun | pc_delta_features.py:98-110 | `runlen` is at least 1, the last `runlen` values are equal, and the run is maximal |
| PcFeatures.RunLength | pc_delta_features.py:98-110 | the `reversed(last_k)` loop computes `TrailingRun` |
| PcFeatures.RunBounds | pc_delta_features.py:98-110 | `1 <= runlen <= K` |
| PcFeatures.Padded | pc_delta_features.py:124-125 | a padded list has the given width and zeros past the data |
| PcFeatures.LastKColumns | pc_delta_features.py:90-92 | the `delta_i` cells are `lk[-K + i]`, which is `lk[i]` once `K` deltas are held |
| PcFeatures.RowDeltas | pc_delta_features.py:89-92 | a row's `delta_i` is `deltas[t - K + 1 + i]`, most recent last |
| PcFeatures.TargetIsNextStep | pc_delta_features.py:127-134 | `target_delta` is `pc_next - pc` when a next delta exists, and empty otherwise |
| PcFeatures.RowAt | pc_delta_features.py:87-136 | row `t` has `pc = pcs[t+1]`, `min(t + 1, K)` deltas, at most three top counts, and a target exactly when `pcs[t+2]` exists, which is then `pcs[t+2] - pcs[t+1]` with `pc_next = pcs[t+2]` |
| PcFeatures.TopCountsFacts | pc_delta_features.py:122-125 | the top counts are `min(3, distinct n-grams)` values, non-increasing, taken from the counter, none exceeded by a count left out, padded with zeros |
| PcFeatures.Advance | pc_delta_features.py:76-81 | one round's appends bring the deques and the counter to their values after delta `t` |
| PcFeatures.EmitRow | pc_delta_features.py:87-136 | the emitted row is `RowAt(t)` |
| PcFeatures.RowsBefore | pc_delta_features.py:83-85 | rows are emitted from position `K - 1` on, and row `r` is the row of position `r + K - 1` |
| PcFeatures.RowsBeforeGrow | pc_delta_features.py:83-136 | from position `K - 1` on, each position appends its own row to those already emitted |
| PcFeatures.RowsBeforeNext | pc_delta_features.py:83-136 | position `t` adds its row once `last_k` is full, and nothing before |
| PcFeatures.StreamStep | pc_delta_features.py:76-136 | one round keeps the streaming state |
| PcFeatures.StreamRows | pc_delta_features.py:67-136 | the streaming loop emits `RowAt(t)` for every `t >= K - 1`, in order |
| PcFeatures.PcDeltaFeatures | pc_delta_features.py:51-136 | the script fails exactly when PC collection fails; otherwise its rows come from the deltas of the collected PCs |
| HigherGhb.Changes | ghb2_pipeline2.py:88 | at most `len - 1` changes |
| HigherGhb.ChangesZeroIff | ghb2_pipeline2.py:88 | no change exactly when every element equals the first |
| HigherGhb.Segments | ghb2_pipeline2.py:79-87 | each address is mapped by `map_segment` |
| HigherGhb.SegmentOf | ghb2_pipeline2.py:79-85 | `stack` only for `0x7...`, `code` only for `0x5...`, and `other` for neither |
| HigherGhb.SegmentTransitions | ghb2_pipeline2.py:77-89 | at most `len - 1` transitions |
| HigherGhb.SegmentTransitionsZeroIff | ghb2_pipeline2.py:77-89 | zero transitions exactly when the whole window is in one segment |
| HigherGhb.ValidDeltas | ghb2_pipeline2.py:132 | `dropna()` keeps at most the cells it is given |
| HigherGhb.NonZeroSigns | ghb2_pipeline2.py:148-155 | the signs the loop remembers are `1` or `-1` |
| HigherGhb.ChangesSnoc | ghb2_pipeline2.py:151-155 | one more sign adds a change exactly when it flips the last one |
| HigherGhb.StrideStep | ghb2_pipeline2.py:151-155 | one round keeps `previous_sign` the last non-zero sign and counts the flips |
| HigherGhb.CountStrideChanges | ghb2_pipeline2.py:144-155 | the stride loop counts sign flips between consecutive non-zero deltas |
| HigherGhb.StrideChangesBound | ghb2_pipeline2.py:146-155 | fewer flips than non-zero deltas; none with at most one delta |
| HigherGhb.StrideChangesZeroIff | ghb2_pipeline2.py:144-155 | no flip exactly when all non-zero deltas have one sign |
| HigherGhb.CalculateDeltaMetrics | ghb2_pipeline2.py:128-157 | computes the most frequent delta and the stride changes |
| HigherGhb.DeltaMetricsEmpty | ghb2_pipeline2.py:134-135 | `None` and 0 exactly when no delta is valid |
| HigherGhb.DeltaMetricsMostFrequent | ghb2_pipeline2.py:137-139 | the reported delta is valid, has the highest count, and is the first seen among equals |
| HigherGhb.DeltaMetrics | ghb2_pipeline2.py:128-157 | no most frequent delta exactly when no delta is valid; otherwise a valid delta; at most `len(valid) - 1` stride changes, and none without valid deltas |
| HigherGhb.Windows | ghb2_pipeline2.py:116 | there are `len - L + 1` windows of length `L` |
| HigherGhb.WindowAt | ghb2_pipeline2.py:116-117 | window `i` of length `L` is `types[i:i+L]` joined with commas |
| HigherGhb.AppendWindows | ghb2_pipeline2.py:116-117 | the inner loop appends the windows of one length |
| HigherGhb.DominantSubsequence | ghb2_pipeline2.py:107-126 | the nested loops and the counter compute `Dominant` |
| HigherGhb.SubsequencesCount | ghb2_pipeline2.py:115-117 | the number of windows of lengths `1..len` |
| HigherGhb.Dominant | ghb2_pipeline2.py:109-121 | no type, or a single one and so no window, gives `'Null'` |
| HigherGhb.DominantShort | ghb2_pipeline2.py:109-126 | at most one type gives `'Null'`; more give a window labelled with a positive count |
| HigherGhb.DominantWinner | ghb2_pipeline2.py:107-126 | with two types or more, the result is the counter's winner labelled with its own count; the winner has the highest count and comes first among equals, and when no type holds a `,` it is a single type |
| HigherGhb.WinnerIsType | ghb2_pipeline2.py:115-125 | when no type holds a `,`, the most common window is a single type |
| HigherGhb.WindowCountBounds | ghb2_pipeline2.py:115-123 | a window with commas is counted at most as often as its first type, and a single type exactly as often as it occurs in each length |
| HigherGhb.SubsCountIs | ghb2_pipeline2.py:115-123 | a window's count in the counter is the sum of its counts over the lengths |
| HigherGhb.SubsequencesCover | ghb2_pipeline2.py:115-117 | with two types or more there is at least one window per type |
| HigherGhb.SubsequencesPrefix | ghb2_pipeline2.py:115-117 | the shorter windows come first |
| HigherGhb.ColumnCells | ghb2_pipeline2.py:189 | `window[col]` holds the window's cells of that column |
| HigherGhb.Pattern | ghb2_pipeline2.py:189 | an empty column gives empty text and a single cell gives its own text |
| HigherGhb.Addresses | ghb2_pipeline2.py:203 | the window's addresses in order |
| HigherGhb.Types | ghb2_pipeline2.py:208 | the window's types in order |
| HigherGhb.ReadCount | ghb2_pipeline2.py:209 | at most one read per type |
| HigherGhb.WriteCount | ghb2_pipeline2.py:210 | at most one write per type |
| HigherGhb.ReadsWritesBound | ghb2_pipeline2.py:209-210 | reads and writes together are at most the window size |
| HigherGhb.ColumnSummaries | ghb2_pipeline2.py:186-197 | one summary per delta column, in column order |
| HigherGhb.Summary | ghb2_pipeline2.py:183-212 | one summary per delta column, and at most `len(window) - 1` segment transitions |
| HigherGhb.SummariseColumns | ghb2_pipeline2.py:186-197 | the column loop computes `ColumnSummaries` |
| HigherGhb.SummariseWindow | ghb2_pipeline2.py:183-229 | one window's summary |
| HigherGhb.SummariesOf | ghb2_pipeline2.py:229 | one output row per window, in order |
| HigherGhb.AppendSummary | ghb2_pipeline2.py:229 | appending extends the summaries by one window |
| HigherGhb.ProcessHigherGhb | ghb2_pipeline2.py:162-229 | the window loop summarises every full window of `n` rows, in order |
| HigherGhb.ChunksAdvance | ghb2_pipeline2.py:178-181 | taking the window at `start` moves it to the finished windows |
| HigherGhb.Chunks | ghb2_pipeline2.py:178-181 | the windows taken from `start` fit within the rows |
| HigherGhb.ChunksCount | ghb2_pipeline2.py:178-181 | the windows cover all but fewer than `n` trailing rows |
| HigherGhb.RowCount | ghb2_pipeline2.py:176-181 | `total_rows div n` output rows; the incomplete window is dropped |
| HigherGhb.ChunkAt | ghb2_pipeline2.py:178-179 | window `w` is rows `w*n .. w*n + n - 1` |
| HigherGhb.SummaryAt | ghb2_pipeline2.py:178-229 | output row `w` summarises input rows `w*n .. w*n + n - 1` |
| HigherGhb.SummaryReadsWrites | ghb2_pipeline2.py:207-212 | `n_reads + n_writes` is at most the window size |
| Markov.DropNa | create_markov_chain.py:59 | `dropna()` keeps exactly the present values |
| Markov.Pairs | create_markov_chain.py:66-68 | pair `i` is `(seq[i], seq[i+1])`, with `len - 1` pairs |
| Markov.CountPairValid | create_markov_chain.py:69 | counting keeps every row a counter with a positive total |
| Markov.CountPairCounts | create_markov_chain.py:69 | counting `(a, b)` raises exactly the count of `(a, b)`, by one |
| Markov.CountPairRow | create_markov_chain.py:69 | counting raises row `a`'s total by one and leaves other rows alone |
| Markov.CountPairKeys | create_markov_chain.py:52-69 | a new source state is added last and the others keep their places |
| Markov.CountsOf | create_markov_chain.py:64-69 | the counts after any pairs are valid |
| Markov.CountsOfSnoc | create_markov_chain.py:66-69 | counting one more pair continues from the counts so far |
| Markov.CountsOfGet | create_markov_chain.py:52-69 | `counts[a][b]` is the number of pairs `(a, b)` |
| Markov.CountsOfTotal | create_markov_chain.py:74 | row `a`'s total is the number of pairs leaving `a` |
| Markov.CountsOfKeys | create_markov_chain.py:52-69 | the states with a row are exactly the sources of pairs |
| Markov.CountsAcrossFiles | create_markov_chain.py:54-69 | one more file adds its own pairs to the counts |
| Markov.PairsWithinFiles | create_markov_chain.py:54-69 | every counted pair is a neighbouring pair of one file; none spans two files |
| Markov.ShortColumn | create_markov_chain.py:60-61 | a column with fewer than two values contributes no pair |
| Markov.ScaledKeys | create_markov_chain.py:75 | the probability row has the count row's keys, in order |
| Markov.ScaledValue | create_markov_chain.py:75 | each entry is `count / total` |
| Markov.SumScaled | create_markov_chain.py:74-75 | dividing every count by the total divides the sum by it |
| Markov.ProbabilitiesSpec | create_markov_chain.py:73-75 | a state's probabilities have its successors in order, each `count / total` |
| Markov.ProbabilitiesSumToOne | create_markov_chain.py:74-75 | a state's probabilities add up to 1 |
| Markov.MatrixUpToKeys | create_markov_chain.py:72-75 | the matrix so far has the first states in counter order |
| Markov.Matrix | create_markov_chain.py:72-75 | the matrix has the counter's states in the counter's order |
| Markov.MatrixUpToValue | create_markov_chain.py:72-75 | each state of the matrix maps to its probabilities |
| Markov.MatrixKeys | create_markov_chain.py:72-75 | the matrix has exactly the counter's states, in order, each with its probabilities |
| Markov.MatrixStates | create_markov_chain.py:52-75 | the chain's states are exactly the sources of pairs |
| Markov.MatrixRowSums | create_markov_chain.py:72-75 | every row of the chain sums to 1 |
| Markov.MatrixProbability | create_markov_chain.py:52-75 | `P(a -> b)` is the number of pairs `(a, b)` over the number leaving `a` |
| Markov.CountFile | create_markov_chain.py:66-69 | one file's loop counts its pairs onto the counts so far |
| Markov.CountNextFile | create_markov_chain.py:54-69 | one iteration of the file loop adds that file's pairs |
| Markov.CountFiles | create_markov_chain.py:54-69 | the file loop counts all files' pairs, or fails at the first file without the column |
| Markov.Normalise | create_markov_chain.py:72-75 | the normalisation loop computes `Matrix` |
| Markov.NormaliseState | create_markov_chain.py:75 | one state's step extends the matrix by that state |
| Markov.BuildMarkovChain | create_markov_chain.py:41-77 | succeeds exactly when every file has the column, with the chain of all files' pairs; otherwise fails at the first file without it |

## Left out

- File input and output, `input()` prompts, `print` messages, the CSV writers (`write_features_csv`, `to_csv`, `DictWriter`) and the `main` functions. Traces and tables are parameters: the lines of a file, or rows of cells.
- The `parse_trace_file` of `ghb_pipeline.py` is the same code as that of `ghb_pipeline2.py`. It is modelled once, as `TraceParser`, for both pipelines.
- The tracer (`memtrace.cpp`) is not modelled. Its output formats appear only as concrete lines in the `TraceParser` and `PcFeatures` lemmas. The sample programs under `codes/` are not part of this model.
- Floating-point features are left out:
  - `win_mean`, `win_std`, `win_entropy`, `autocorr_lag1` and `fft_lowfrac` in the PC-delta script;
  - `mean_abs_delta`, `entropy_of_addresses` and `entropy_of_pc` in the higher-order summary.
  - They need floating point, numpy and `log2`.
- The Markov probabilities are exact Dafny `real` quotients, not floats. `ProbabilitiesSumToOne` therefore does not capture float rounding.
- pandas coercions are abstract:
  - a delta cell of the lower table is either `Null` or a pair of the text `str(x)` and the integer `int(float(x))`;
  - the `Address`, `PC` and `Type` cells are their text;
  - a Markov state is a value of an abstract type compared by equality, with `NaN` as `None`.
- HigherGhb.ProcessHigherGhb: requires every row to have all twelve delta columns (`HasColumns`). A lower table without one of them raises `KeyError` in pandas, and that stop is not modelled. It also requires `n >= 1`, which `main` enforces before calling; `range(0, total, 0)` would raise.
- Markov.BuildMarkovChain: a file without the column prints a message and then raises `KeyError` at `df[column_name]`. This is the `Err` result naming the first such file; the message is left out. The "not enough data" message for a short column only prints, so it leaves the counts unchanged, as `ShortColumn` states.
- Text.ParseInt: Python's `int()` also accepts surrounding whitespace, `_` digit separators and non-ASCII Unicode decimal digits (such as the Arabic-Indic `٣`). `ParseInt` rejects all of these. Whitespace cannot occur, since the tokens come from `split()`; the tracer writes only ASCII digits.
- `Address`/`PC` columns: the rank pipeline renders them with `hex()` (`PyHex`). The fixed-window pipeline renders `PC` with `hex()` and keeps addresses and deltas as integers.
- PcFeatures: the script's constants `K = 8`, `WIN = 32` and `NGRAM = 2` are parameters, and the lemmas hold for every value. The unused `I_RE` regex and `hex_to_int` helper are left out. The `''` written for a missing `target_delta` is `None`.
- PcFeatures.TopCountsFacts: states the top-3 n-gram counts as values only, not which n-grams they belong to, because the script writes only the counts.
- PcFeatures.PcsUpTo: states only that an error names a line already read. `CollectPcs` (the loop computes it), `PcsCount` (one PC per `I` line), `PcsAt` (the value each `I` line contributes, and its position) and `ErrorSticks` (an error persists) state the rest.
- RankFeatures.RowOf: its ensures states only the column lengths. The cells are stated by `PastHit`, `PastShort`, `PastNoneIff`, `FutureHit`, `FutureShort` and `FutureNoneIff` through `Column`.
- WindowFeatures.EligibleCount: states only the bound. `EligibleCountIs` gives the exact count.

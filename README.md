# libRaptorQ benchmark program, modelled in Dafny

This project models the benchmark program that ships with libRaptorQ, a
RaptorQ (RFC 6330) forward-error-correction library. The benchmark does the
following:

- it draws a random payload from one process-wide pseudo-random stream;
- it picks the RaptorQ block size (the number of source symbols, K' of
  Table 2, section 5.6 of RFC 6330) that holds the payload;
- `encode_block` extracts the source symbols and then repair symbols from an
  encoder, and a `RandomDrop` loss simulator throws some of them away;
- the survivors are kept until the block's symbol count plus an overhead of
  four is reached;
- `decode_block` feeds them to a decoder and returns the reconstructed
  bytes, and `test_rq` compares them with the payload, up to five times;
- the `encode` command writes the payload and the surviving symbols (as
  little-endian id + data records) to two files;
- `process_command` picks the command by the FNV-1a hash of the first three
  characters of the first argument.

The RaptorQ engine is not part of this model. An encoder or a decoder is a
value that holds the engine's answer to every call the benchmark makes
(`Engine.Encoder`, `Engine.Decoder`, `Engine.Codec`). The pseudo-random
generator is the class `Loss.Generator`. It holds a stream of raw outputs
fixed by the seed, and the position the process has drawn up to. Every
user of randomness holds a reference to that one object, so payload bytes
and drop decisions come from a single stream.

Files, by module:

| file | module | models |
|---|---|---|
| `types.dfy` | `Types` | bytes, fixed-width integers, `Symbol` = (id, data) |
| `engine.dfy` | `Engine` | the engine's answers, as values |
| `loss.dfy` | `Loss` | the shared generator and `RandomDrop` |
| `block_size.dfy` | `BlockSize` | `calc_symbols_per_block` |
| `transmit.dfy` | `Transmit` | `encode_block` |
| `receive.dfy` | `Receive` | `decode_block` |
| `records.dfy` | `Records` | `operator<<(Symbol)`: the on-disk record, and a parser for it |
| `files.dfy` | `Files` | `bin2file`, `symbols2file` over a map of files |
| `bench.dfy` | `Bench` | `generate_random_data`, `test_rq`, `benchmark` |
| `command.dfy` | `Command` | `fnv1a`, the dispatch, `encode()`, `process_command` |

When no supported block is large enough for the payload,
`calc_symbols_per_block` returns `Block_10` without any error, and
`BlockSize.NoFitFallsBack` states that.

The two defects under "## Findings" are modelled both ways.
`Bench.TestRq`, `Bench.Benchmark`, `Command.EncodeCommand`,
`Command.Perform` and `Command.ProcessCommand` follow the code as written.
The `...Intended` member beside each one uses the corrected `test_rq` and
`encode()`.

## Model

| member | source | states |
|---|---|---|
| Loss.Sample | benchmark/RandomDrop.hpp:23 | a draw of a uniform integer distribution lies in its closed range |
| Loss.Generator.constructor | benchmark/RandomDrop.hpp:26 | the one shared generator starts on its seed-fixed stream with nothing drawn |
| Loss.Generator.Next | benchmark/RandomDrop.cpp:19 | a draw consumes exactly one output of the shared stream and lies in the distribution's range |
| Loss.Decisions | benchmark/RandomDrop.cpp:17-21 | `n` successive decisions of one decider give `n` results |
| Loss.StepIsDecision | benchmark/RandomDrop.cpp:17-21 | a call made after `i` decisions returns decision `i` and leaves the stream where `i + 1` decisions leave it |
| Loss.RandomDrop.constructor | benchmark/RandomDrop.cpp:11-15 | the stored percentage is the argument unchanged (the clamp to 99 assigns the parameter), it defaults to 5, and construction draws nothing |
| Loss.RandomDrop.Decide | benchmark/RandomDrop.cpp:17-21 | percentage 0 returns false and draws nothing; otherwise one draw in [0, 100] is taken and the unit is lost iff the draw is at most the percentage |
| Loss.ZeroNeverDrops | benchmark/RandomDrop.cpp:18 | with percentage 0 no decision drops and none moves the stream |
| Loss.NeverDrops | benchmark/RandomDrop.cpp:17-21 | when no draw of the stream is at most the percentage, no decision drops |
| Loss.NonzeroDrawsOnce | benchmark/RandomDrop.cpp:19-20 | with a nonzero percentage a decision moves the stream by one and drops iff the draw is at most the percentage |
| Loss.AtLeastHundredAlwaysDrops | benchmark/RandomDrop.cpp:11-20 | a percentage of 100 or more, being stored unclamped, drops every unit |
| Loss.DropRate | benchmark/RandomDrop.cpp:12-20 | exactly min(p, 100) + 1 of the 101 possible draws drop, for p > 0 |
| Loss.DroppingDrawsBelow | benchmark/RandomDrop.cpp:20 | of the draws below `n`, min(p + 1, n) are at most `p` |
| BlockSize.MinSymbols | benchmark/benchmark-main.cpp:80-82 | the symbol count is the least `n` with n * symbol_size >= length (the ceiling) |
| BlockSize.CalcSymbolsPerBlock | benchmark/benchmark-main.cpp:77-96 | the result is the first table entry holding the ceiling symbol count, or `Block_10` |
| BlockSize.MinSymbolsBoundary | benchmark/benchmark-main.cpp:80-82 | an exact multiple of the symbol size adds no symbol, one more byte adds exactly one |
| BlockSize.SelectBlockFirstFit | benchmark/benchmark-main.cpp:86-94 | the scan returns the first block that fits and `Block_10` when none fits |
| BlockSize.SelectBlockSmallest | benchmark/benchmark-main.cpp:86-94 | over an ascending table, the chosen block is the smallest supported block that fits |
| BlockSize.NoFitFallsBack | benchmark/benchmark-main.cpp:86 | when even the largest block is too small, the result is `Block_10` |
| Transmit.Fill | benchmark/benchmark-main.cpp:139-143 | a stored symbol buffer has `symbol_size` bytes: what the engine writes, then zeros |
| Transmit.SurvivorsPlusDropped | benchmark/benchmark-main.cpp:144-150 | each decision either keeps or drops a symbol |
| Transmit.KeptIsOrderedSelection | benchmark/benchmark-main.cpp:136-151 | the kept symbols are exactly those whose decision is "keep", each once, in enumeration order |
| Transmit.KeptAll | benchmark/benchmark-main.cpp:136-151 | when nothing is dropped, everything is kept |
| Transmit.RepairStop | benchmark/benchmark-main.cpp:160-162 | the repair loop stops within the repair supply |
| Transmit.RepairStopReachesTarget | benchmark/benchmark-main.cpp:160-177 | the repair loop never overshoots `symbols() + 4`, and it reaches the target exactly when it stops before the supply ends |
| Transmit.RepairStopWithoutLoss | benchmark/benchmark-main.cpp:160-177 | when nothing is dropped, the loop stops after the missing number of symbols, or at the end of the supply |
| Transmit.EncodeSpec | benchmark/benchmark-main.cpp:114-132 | a `set_data` count other than the input size, or a failed `compute_sync`, gives an empty result with no draw taken |
| Transmit.EncodeBlock | benchmark/benchmark-main.cpp:107-192 | the symbols, both drop counters and the new stream position are those of `EncodeSpec` |
| Transmit.Offer | benchmark/benchmark-main.cpp:144-150 | one decision per symbol; the record is appended iff it is not dropped |
| Transmit.SendSources | benchmark/benchmark-main.cpp:136-151 | the source loop keeps the records whose decision is "keep", counts the others, and takes one decision per symbol |
| Transmit.SendRepairs | benchmark/benchmark-main.cpp:155-178 | the repair loop appends the kept repair records up to the stop index, counts the dropped ones, and reports whether the supply ran out |
| Transmit.EncodeSizeExact | benchmark/benchmark-main.cpp:160-187 | a non-empty result has exactly `symbols() + 4` symbols |
| Transmit.EncodeAccounting | benchmark/benchmark-main.cpp:136-177 | the dropped count plus the kept count is the number of symbols offered, for both loops, and the stream moves by one draw per decision |
| Transmit.EncodeOrder | benchmark/benchmark-main.cpp:136-176 | all kept source symbols come first, in order, then the kept repair symbols, in order |
| Transmit.EncodeRecordSize | benchmark/benchmark-main.cpp:139-169 | every returned symbol carries `symbol_size` data bytes |
| Transmit.EncodeWithoutLoss | benchmark/benchmark-main.cpp:107-192 | with percentage 0: no drops, no draws, every source symbol then the first four repair symbols, or empty with at most four repair symbols |
| Transmit.EncodeEmptyOnExhaustion | benchmark/benchmark-main.cpp:178-187 | the result is empty iff the repair iterator reached the end of the supply, even if the target was met on the last repair symbol |
| Transmit.EncodeNeverDropped | benchmark/benchmark-main.cpp:136-177 | when no draw leads to a drop, the result is every source symbol then the first four repair symbols |
| Receive.FeedFrom | benchmark/benchmark-main.cpp:229-251 | the feed loop ends within the received symbols |
| Receive.DecodeSpec | benchmark/benchmark-main.cpp:218-296 | a non-empty result has exactly `data_size` bytes |
| Receive.DecodeBlock | benchmark/benchmark-main.cpp:218-296 | the bytes returned are those of `DecodeSpec` |
| Receive.FeedDecidedBy | benchmark/benchmark-main.cpp:229-251 | symbols are fed in order; after the accepted ones, the next status decides between going on, stopping (`NOT_NEEDED`) and failing |
| Receive.FeedOutcome | benchmark/benchmark-main.cpp:229-251 | how feeding ended tells which statuses came back: all `NONE` before the end, `NOT_NEEDED` at an early stop, another status at a failure |
| Receive.DecodeAddError | benchmark/benchmark-main.cpp:236-249 | a status other than `NONE` and `NOT_NEEDED` gives an empty result |
| Receive.DecodeIgnoresRest | benchmark/benchmark-main.cpp:237-239 | after `NOT_NEEDED` the remaining symbols are never looked at |
| Receive.DecodeSucceeds | benchmark/benchmark-main.cpp:255-295 | the result is non-empty iff feeding succeeded, `can_decode` holds, `wait_sync` reports no error and at least `data_size` bytes are written; it is then the first `data_size` bytes |
| Receive.DecodeAllAccepted | benchmark/benchmark-main.cpp:229-295 | when every symbol is accepted and decoding succeeds, all received symbols are used |
| Records.Le32 | benchmark/benchmark-main.cpp:375 | `htole32` gives four bytes |
| Records.Le32RoundTrip | benchmark/benchmark-main.cpp:375 | the four bytes read back as the id |
| Records.FromLe32RoundTrip | benchmark/benchmark-main.cpp:375 | any four bytes are the little-endian form of the value they read as |
| Records.SerializeSymbolLayout | benchmark/benchmark-main.cpp:373-380 | a record is `4 + data.size()` bytes: the id, which reads back, then the data |
| Records.SerializeConcat | benchmark/benchmark-main.cpp:391-392 | writing two runs of symbols writes the concatenation of their records |
| Records.SerializeLength | benchmark/benchmark-main.cpp:391-392 | symbols of `size` data bytes take `4 + size` bytes each |
| Records.ParseSerialize | benchmark/benchmark-main.cpp:373-380 | records of symbols of one size parse back as those symbols |
| Records.SerializeParse | benchmark/benchmark-main.cpp:373-380 | whatever parses was written by serialising the parsed symbols |
| Files.FileSystem.Open | benchmark/benchmark-main.cpp:385-390 | opening with `trunc` leaves an empty file on success and changes nothing on failure |
| Files.FileSystem.Append | benchmark/benchmark-main.cpp:376-378 | a write appends its bytes to the open file |
| Files.Bin2File | benchmark/benchmark-main.cpp:397-410 | the result is whether the file opened, and on success the file holds exactly the bytes |
| Files.Symbols2File | benchmark/benchmark-main.cpp:383-395 | the result is whether the file opened, and on success the file holds exactly the records of the symbols, in order |
| Bench.Payload | benchmark/benchmark-main.cpp:64-75 | the payload has `size` bytes |
| Bench.PayloadAt | benchmark/benchmark-main.cpp:71-73 | byte `i` is the byte drawn from the `i`-th stream output after the start |
| Bench.GenerateRandomData | benchmark/benchmark-main.cpp:64-75 | the bytes are the payload drawn from the shared stream, which moves by `size` |
| Bench.SendPayload | benchmark/benchmark-main.cpp:328 | `encode_block(enc, input, 10)` |
| Bench.GenerateAndEncode | benchmark/benchmark-main.cpp:315-328 | the payload is the one drawn at the current position, the decoder is the block's, the symbols are what `encode_block` sends with percentage 10 right after the payload, and together they give the verdict of the trial at that position |
| Bench.TrialsShape | benchmark/benchmark-main.cpp:314-346 | between 1 and 5 trials run; the loop stops early only on a failure, and a failure is never a match |
| Bench.TestRq | benchmark/benchmark-main.cpp:308-348 | the returned flag is always false, and the stream ends where the trials leave it |
| Bench.TestRqIntended | benchmark/benchmark-main.cpp:308-348 | with the shadowing removed, the flag is true iff all five trials ran and matched |
| Bench.Benchmark | benchmark/benchmark-main.cpp:350-370 | as written, `benchmark()` never succeeds, and the stream ends where the `BLOCK_SIZE` trials at `SYMBOL_SIZE` leave it |
| Bench.BenchmarkIntended | benchmark/benchmark-main.cpp:350-370 | over the corrected `test_rq`, `benchmark()` succeeds iff the `BLOCK_SIZE` test at `SYMBOL_SIZE` passes |
| Bench.EchoTrialMatches | benchmark/benchmark-main.cpp:314-346 | with an engine that sends the block as one symbol and a stream that never drops, every trial matches |
| Bench.TrialsAllMatch | benchmark/benchmark-main.cpp:314-346 | when every trial matches, all of them run and no failure is recorded |
| Bench.ShadowedPass | benchmark/benchmark-main.cpp:341 | there are an engine and a stream where all five trials match, so the intended result is true where `test_rq` returns false |
| Command.CharValue | benchmark/benchmark-main.cpp:455 | a signed `char` enters the xor sign-extended: low byte the character, upper 24 bits all ones iff the byte is at least 0x80 |
| Command.Fnv1aCString | benchmark/benchmark-main.cpp:454-456 | the hash looks only at the bytes before the first NUL |
| Command.Fnv1aConcat | benchmark/benchmark-main.cpp:454-456 | FNV-1a is a left fold: hashing a NUL-free string and then more is hashing their concatenation |
| Command.CString | benchmark/benchmark-main.cpp:461 | `std::string(argv[1])` is the NUL-free prefix up to the first NUL |
| Command.CommandWord | benchmark/benchmark-main.cpp:461 | `substr(0, 3)` is the first three characters, or all when fewer |
| Command.BenHash | benchmark/benchmark-main.cpp:463 | `fnv1a("ben")` is 0x5AAE56AA |
| Command.EncHash | benchmark/benchmark-main.cpp:466 | `fnv1a("enc")` is 0x658E6DCB |
| Command.DecHash | benchmark/benchmark-main.cpp:469 | `fnv1a("dec")` is 0xC25979D3 |
| Command.CommandHashes | benchmark/benchmark-main.cpp:462-473 | the three case labels are distinct and differ from the hash of the empty word |
| Command.DispatchPrefix | benchmark/benchmark-main.cpp:461-471 | any argument starting with "ben", "enc" or "dec" selects that command, whatever follows |
| Command.EmptyIsUsage | benchmark/benchmark-main.cpp:472-473 | an empty argument prints the usage |
| Command.EncodeCommand | benchmark/benchmark-main.cpp:412-445 | as written: the flag is true only when the symbols file cannot be opened; the files and the stream end as `EncodeCommandSpec` says |
| Command.EncodeCommandIntended | benchmark/benchmark-main.cpp:412-445 | with the last test corrected: the flag is true iff both files were written; the files and the stream end as `EncodeCommandSpec` says |
| Command.InvertedWriteCheck | benchmark/benchmark-main.cpp:440 | there are an engine, a stream and files with which both files are written, so `encode()` reports failure after succeeding |
| Command.Perform | benchmark/benchmark-main.cpp:462-475 | the switch as written: the result, files and stream are those of `benchmark()` (never true, files untouched) or `encode()` (true only when the symbols file cannot be opened); the decode and usage actions change nothing and return false |
| Command.PerformIntended | benchmark/benchmark-main.cpp:462-475 | the switch over the corrected commands: the benchmark action returns whether the test passed, the encode action whether both files were written; the others change nothing and return false |
| Command.ProcessCommand | benchmark/benchmark-main.cpp:458-476 | as written: "ben" returns false with the files untouched, "enc" returns true only when the symbols file cannot be opened, "dec" and anything else change nothing and return false |
| Command.ProcessCommandIntended | benchmark/benchmark-main.cpp:458-476 | with both findings corrected: "ben" returns whether the test passed, "enc" whether both files were written, "dec" and anything else change nothing and return false |

## Left out

- Timing (`Timer`) and all diagnostic output to `std::cerr` and
  `std::cout`, including the drop counters `encode_block` prints. The
  counters are still results of `Transmit.EncodeBlock`, even on the paths
  where the source returns without printing them: the `set_data` and
  `compute_sync` failures and an exhausted repair supply.
- The RaptorQ engine's mathematics (`set_data`, `compute_sync`, the symbol
  iterators, `add_symbol`, `wait_sync`, `decode_bytes`,
  `local_cache_size`). Each is an answer held by the engine value. In
  `test_rq` the encoder is built before the payload is drawn. Here it is
  taken from the codec once the payload is known, because its answers
  depend on the data it is given.
- The `mt19937_64` algorithm, the mapping inside `uniform_int_distribution`
  and the seeding from `/dev/urandom`. The stream is a parameter of the
  generator, and a draw over [lo, hi] is `lo + raw % (hi - lo + 1)`.
- The debug `assert(written == symbol_size)` in `encode_block` is not an
  abort. The buffer is zero-filled or truncated to `symbol_size`, as in a
  release build.
- Stream failures after a file has been opened. Opening either succeeds or
  fails, and the set of names that can be opened is a parameter.
- `usage`, the `#if 0` code (`reduction`, `precompute_sync`) and `main`'s
  argument-count check. `ProcessCommand` takes the first argument directly.
- Copy and move are deleted in `RandomDrop`. That is the reference semantics
  of a Dafny class and needs no statement of its own.
- `Command.Dispatch`: other strings whose FNV-1a hash collides with one of
  the three labels also select that command. No lemma rules such
  collisions out.
- `Command.CharValue` assumes that `char` is signed, as on x86. Where
  `char` is unsigned (common on ARM), bytes from 0x80 up are xored in
  without sign extension. The three command words are ASCII, so their
  hashes are the same either way.
- RFC 6330's table of block sizes is not reproduced. It is a parameter
  (`Engine.Codec.blocks`), and `BlockSize.SupportedBlocks` describes its
  shape.

## Findings

| source | as written | input that shows it | evidently intended | confidence | as-written member | corrected member |
|---|---|---|---|---|---|---|
| benchmark/benchmark-main.cpp:341 | `bool ok = std::equal(...)` declares a new `ok` inside the loop, so the function's `ok` is only ever set to `false` and `test_rq` (and so `benchmark()`) never succeeds | an engine that sends the block as one source symbol and decodes it back, with a stream that never drops (`Bench.ShadowedPass`) | assign the comparison to the outer `ok`, so the result is true iff all five trials match | not executed | Bench.TestRq | Bench.TestRqIntended |
| benchmark/benchmark-main.cpp:440 | `if (symbols2file(...) != 0) return false;` returns false when the symbols file was written, and `encode()` reports success only when it could not be opened | every file openable and a transmission that is not empty (`Command.InvertedWriteCheck`) | `if (!symbols2file(...)) return false;`, as for the payload file at line 421 | not executed | Command.EncodeCommand | Command.EncodeCommandIntended |

/** The command line of the benchmark: the first argument is reduced to its
    first three characters, hashed with 32-bit FNV-1a, and the hash selects
    `benchmark`, `encode` or `decode`; anything else prints the usage. */
module Command {
  import opened Types
  import opened Loss
  import opened Engine
  import opened BlockSize
  import opened Transmit
  import opened Records
  import opened Files
  import opened Bench

  /** The 32-bit FNV prime. */
  const FnvPrime: bv32 := 16777619
  /** The 32-bit FNV offset basis, the hash of the empty string. */
  const FnvOffset: bv32 := 2166136261

  /** A `char` of the string as it enters the xor with the 32-bit hash: the
      compiler's `char` is signed, so the byte is read as a value in
      [-128, 127] and converted to unsigned 32-bit, i.e. a byte from 0x80 up
      is sign-extended. */
  function CharValue(c: byte): (v: bv32)
    ensures v & 0xFF == c as bv32
    ensures v >> 8 == if c < 0x80 then 0 else 0xFF_FFFF
  {
    if c < 0x80 then c as bv32 else c as bv32 | 0xFFFF_FF00
  }

  /** One step of FNV-1a: xor the character in and multiply by the prime,
      keeping the low 32 bits (the product is taken in 64 bits and passed on
      as a 32-bit parameter, so it wraps around as `bv32` does). */
  function FnvStep(hash: bv32, c: byte): bv32
  {
    (hash ^ CharValue(c)) * FnvPrime
  }

  /** `fnv1a(str, hash)`: the hash of the NUL-terminated string starting at
      `s`, continuing from `hash`. The recursion stops at the terminator or,
      when there is none, at the end of the bytes. */
  function Fnv1a(s: seq<byte>, hash: bv32 := FnvOffset): bv32
    decreases |s|
  {
    if s == [] || s[0] == 0 then hash else Fnv1a(s[1..], FnvStep(hash, s[0]))
  }

  /** The recursion of `fnv1a`: the empty string hashes to the starting
      value, and a non-NUL character is one step followed by the rest; a
      character below 0x80 is xored in as itself. */
  lemma Fnv1aSteps(c: byte, s: seq<byte>, hash: bv32)
    ensures Fnv1a([], hash) == hash
    ensures c != 0 ==> Fnv1a([c] + s, hash) == Fnv1a(s, FnvStep(hash, c))
    ensures c < 0x80 ==> CharValue(c) == c as bv32
  {
    assert ([c] + s)[1..] == s;
  }

  /** `std::string(argv[1])`: the bytes before the first NUL. */
  function CString(b: seq<byte>): (s: seq<byte>)
    ensures s <= b && 0 !in s
    ensures |s| < |b| ==> b[|s|] == 0
    decreases |b|
  {
    if b == [] || b[0] == 0 then [] else [b[0]] + CString(b[1..])
  }

  /** `.substr(0, 3)` of the argument: its first three characters, or all of
      them when it is shorter. */
  function CommandWord(arg: seq<byte>): (w: seq<byte>)
    ensures w <= CString(arg) && |w| == Min(|CString(arg)|, 3)
  {
    var s := CString(arg);
    s[..Min(|s|, 3)]
  }

  /** What the hashes look only at: a string and its part before the first
      NUL hash alike. */
  lemma {:induction false} Fnv1aCString(s: seq<byte>, hash: bv32)
    ensures Fnv1a(s, hash) == Fnv1a(CString(s), hash)
    decreases |s|
  {
    if s != [] && s[0] != 0 {
      Fnv1aCString(s[1..], FnvStep(hash, s[0]));
      assert CString(s)[1..] == CString(s[1..]);
    }
  }

  /** FNV-1a is a left fold of `FnvStep`: hashing a NUL-free string and then
      more bytes is hashing the concatenation. */
  lemma {:induction false} Fnv1aConcat(a: seq<byte>, b: seq<byte>, hash: bv32)
    requires 0 !in a
    ensures Fnv1a(a + b, hash) == Fnv1a(b, Fnv1a(a, hash))
    decreases |a|
  {
    if a != [] {
      assert (a + b)[0] == a[0] && (a + b)[1..] == a[1..] + b;
      Fnv1aConcat(a[1..], b, FnvStep(hash, a[0]));
    } else {
      assert a + b == b;
    }
  }

  /** "ben", "enc" and "dec" as bytes. */
  const Ben: seq<byte> := [0x62, 0x65, 0x6E]
  const Enc: seq<byte> := [0x65, 0x6E, 0x63]
  const Dec: seq<byte> := [0x64, 0x65, 0x63]

  /** The hash of a three-character word is three steps. */
  lemma Fnv1aOfThree(w: seq<byte>, hash: bv32)
    requires |w| == 3 && 0 !in w
    ensures Fnv1a(w, hash) == FnvStep(FnvStep(FnvStep(hash, w[0]), w[1]), w[2])
  {
    var h1, h2 := FnvStep(hash, w[0]), FnvStep(FnvStep(hash, w[0]), w[1]);
    assert w[1..][0] == w[1] && w[1..][1..][0] == w[2] && w[1..][1..][1..] == [];
    assert Fnv1a(w, hash) == Fnv1a(w[1..], h1);
    assert Fnv1a(w[1..], h1) == Fnv1a(w[1..][1..], h2);
  }

  /** The hash of "ben", the label of the `benchmark` case. */
  lemma BenHash()
    ensures Fnv1a(Ben) == 0x5AAE56AA
  {
    Fnv1aOfThree(Ben, FnvOffset);
    assert FnvStep(FnvOffset, 0x62) == 0xE70C2DE5;
    assert FnvStep(0xE70C2DE5, 0x65) == 0x382BA080;
    assert FnvStep(0x382BA080, 0x6E) == 0x5AAE56AA;
  }

  /** The hash of "enc", the label of the `encode` case. */
  lemma EncHash()
    ensures Fnv1a(Enc) == 0x658E6DCB
  {
    Fnv1aOfThree(Enc, FnvOffset);
    assert FnvStep(FnvOffset, 0x65) == 0xE00C22E0;
    assert FnvStep(0xE00C22E0, 0x6E) == 0x411A658A;
    assert FnvStep(0x411A658A, 0x63) == 0x658E6DCB;
  }

  /** The hash of "dec", the label of the `decode` case. */
  lemma DecHash()
    ensures Fnv1a(Dec) == 0xC25979D3
  {
    Fnv1aOfThree(Dec, FnvOffset);
    assert FnvStep(FnvOffset, 0x64) == 0xE10C2473;
    assert FnvStep(0xE10C2473, 0x65) == 0x5C1CCEA2;
    assert FnvStep(0x5C1CCEA2, 0x63) == 0xC25979D3;
  }

  /** The three case labels of the dispatch, computed at compile time, are
      distinct (a repeated label would not compile) and differ from the hash
      of the empty command word. */
  lemma CommandHashes()
    ensures Fnv1a(Ben) != Fnv1a(Enc) && Fnv1a(Ben) != Fnv1a(Dec) && Fnv1a(Enc) != Fnv1a(Dec)
    ensures Fnv1a([]) !in {Fnv1a(Ben), Fnv1a(Enc), Fnv1a(Dec)}
  {
    BenHash();
    EncHash();
    DecHash();
  }

  /** What `process_command` does for a command word. */
  datatype Action = RunBenchmark | RunEncode | ReportDecode | Usage

  /** The `switch` on the hash of the command word. */
  function Dispatch(arg: seq<byte>): Action
  {
    var h := Fnv1a(CommandWord(arg));
    if h == Fnv1a(Ben) then RunBenchmark
    else if h == Fnv1a(Enc) then RunEncode
    else if h == Fnv1a(Dec) then ReportDecode
    else Usage
  }

  /** Only the first three characters count: any argument that starts with
      "ben", "enc" or "dec" selects that command, whatever follows. */
  lemma DispatchPrefix(arg: seq<byte>)
    requires |arg| >= 3
    ensures arg[..3] == Ben ==> Dispatch(arg) == RunBenchmark
    ensures arg[..3] == Enc ==> Dispatch(arg) == RunEncode
    ensures arg[..3] == Dec ==> Dispatch(arg) == ReportDecode
  {
    CommandHashes();
    if arg[..3] in {Ben, Enc, Dec} {
      var s := CString(arg);
      assert 0 !in arg[..3];
      CStringPrefix(arg, 3);
      assert CommandWord(arg) == arg[..3];
    }
  }

  /** The part before the first NUL extends over any NUL-free prefix. */
  lemma {:induction false} CStringPrefix(b: seq<byte>, n: nat)
    requires n <= |b| && 0 !in b[..n]
    ensures |CString(b)| >= n && CString(b)[..n] == b[..n]
    decreases n
  {
    if n > 0 {
      assert b[0] == b[..n][0];
      assert b[1..][..n - 1] == b[..n][1..];
      CStringPrefix(b[1..], n - 1);
    }
  }

  /** An empty argument, or one that starts with NUL, prints the usage. */
  lemma EmptyIsUsage(arg: seq<byte>)
    requires arg == [] || arg[0] == 0
    ensures Dispatch(arg) == Usage
  {
    CommandHashes();
  }

  /** The two files the `encode` command writes. */
  const DataFile: string := "raptor_test_data.bin"
  /** `"raptor_test_data." + std::to_string(SYMBOL_SIZE) + ".enc"` */
  const SymbolFile: string := "raptor_test_data.62.enc"

  /** How far the `encode` command got: the payload file could not be
      opened, the transmission came out empty, the symbols file could not be
      opened, or everything was written. */
  datatype EncodeStage = DataNotWritten | NothingEncoded | SymbolsNotWritten | Written

  /** The stage reached, the files afterwards and where the shared stream
      stands. */
  datatype EncodeRun = EncodeRun(stage: EncodeStage, files: map<string, Binary>, position: nat)

  /** The `encode` command with the stream at `pos` and the files `files`: a
      `BLOCK_SIZE` payload is written raw, encoded with the block size for
      `SYMBOL_SIZE` and percentage 10, and the surviving symbols are written
      as records. */
  function EncodeCommandSpec(codec: Codec, canOpen: string -> bool, files: map<string, Binary>,
                             raw: nat -> nat, pos: nat): EncodeRun
  {
    var input := Payload(raw, pos, BlockLength);
    var at := PayloadEnd(pos, BlockLength);
    if !canOpen(DataFile) then EncodeRun(DataNotWritten, files, at)
    else
      var stored := files[DataFile := input];
      var block := SelectBlock(codec.blocks, MinSymbols(BlockLength, SymbolSize));
      var t := EncodeSpec(codec.encoder(block, SymbolSize, input), input, TrialDropProbability, raw, at);
      if t.encoded == [] then EncodeRun(NothingEncoded, stored, t.position)
      else if !canOpen(SymbolFile) then EncodeRun(SymbolsNotWritten, stored, t.position)
      else EncodeRun(Written, stored[SymbolFile := SerializeSymbols(t.encoded)], t.position)
  }

  /** `encode()` as written. The test after writing the symbols is
      `symbols2file(...) != 0`, which holds when the file was written: the
      command reports failure after writing both files, and success only
      when the symbols file cannot be opened. */
  method EncodeCommand(codec: Codec, gen: Generator, fs: FileSystem) returns (ok: bool)
    modifies gen, fs
    ensures var r := EncodeCommandSpec(codec, fs.canOpen, old(fs.files), gen.raw, old(gen.position));
      ok == (r.stage == SymbolsNotWritten) && fs.files == r.files && gen.position == r.position
  {
    ghost var pos := gen.position;
    var input := GenerateRandomData(gen, BlockLength);
    var written := Bin2File(fs, DataFile, input);
    if !written {
      return false;
    }
    var block := CalcSymbolsPerBlock(BlockLength, SymbolSize, codec.blocks);
    var enc := codec.encoder(block, SymbolSize, input);
    ghost var at := gen.position;
    var encoded := SendPayload(enc, input, gen, at);
    if |encoded| == 0 {
      return false;
    }
    var stored := Symbols2File(fs, SymbolFile, encoded);
    if stored {
      return false;
    }
    return true;
  }

  /** `encode()` with the last test reading `!symbols2file(...)`: success
      exactly when both files were written. */
  method EncodeCommandIntended(codec: Codec, gen: Generator, fs: FileSystem) returns (ok: bool)
    modifies gen, fs
    ensures var r := EncodeCommandSpec(codec, fs.canOpen, old(fs.files), gen.raw, old(gen.position));
      ok == (r.stage == Written) && fs.files == r.files && gen.position == r.position
  {
    ghost var pos := gen.position;
    var input := GenerateRandomData(gen, BlockLength);
    var written := Bin2File(fs, DataFile, input);
    if !written {
      return false;
    }
    var block := CalcSymbolsPerBlock(BlockLength, SymbolSize, codec.blocks);
    var enc := codec.encoder(block, SymbolSize, input);
    ghost var at := gen.position;
    var encoded := SendPayload(enc, input, gen, at);
    if |encoded| == 0 {
      return false;
    }
    var stored := Symbols2File(fs, SymbolFile, encoded);
    if !stored {
      return false;
    }
    return true;
  }

  /** What a command leaves behind: its result, the files and where the
      shared stream stands. */
  datatype Outcome = Outcome(result: bool, files: map<string, Binary>, position: nat)

  /** The `switch` of `process_command` as written, with the files `files`
      and the stream at `pos`: "ben" runs `benchmark()`, which never
      succeeds; "enc" runs `encode()`, which succeeds only when the symbols
      file cannot be opened; "dec" only prints a line and anything else
      prints the usage. */
  function Switch(codec: Codec, canOpen: string -> bool, files: map<string, Binary>,
                  raw: nat -> nat, pos: nat, action: Action): Outcome
  {
    match action
    case RunBenchmark => Outcome(false, files, TestSpec(codec, BlockLength, SymbolSize, raw, pos).position)
    case RunEncode =>
      var r := EncodeCommandSpec(codec, canOpen, files, raw, pos);
      Outcome(r.stage == SymbolsNotWritten, r.files, r.position)
    case _ => Outcome(false, files, pos)
  }

  /** The `switch` over the corrected `benchmark()` and `encode()`: the
      result is whether the command selected succeeded. */
  function SwitchIntended(codec: Codec, canOpen: string -> bool, files: map<string, Binary>,
                          raw: nat -> nat, pos: nat, action: Action): Outcome
  {
    match action
    case RunBenchmark =>
      var c := TestSpec(codec, BlockLength, SymbolSize, raw, pos);
      Outcome(Passed(c), files, c.position)
    case RunEncode =>
      var r := EncodeCommandSpec(codec, canOpen, files, raw, pos);
      Outcome(r.stage == Written, r.files, r.position)
    case _ => Outcome(false, files, pos)
  }

  /** The `switch` of `process_command` once the command word is known. */
  method Perform(codec: Codec, gen: Generator, fs: FileSystem, action: Action) returns (rv: bool)
    modifies gen, fs
    ensures Outcome(rv, fs.files, gen.position) == Switch(codec, fs.canOpen, old(fs.files), gen.raw, old(gen.position), action)
  {
    rv := false;
    match action
    case RunBenchmark =>
      rv := Benchmark(codec, gen);
    case RunEncode =>
      rv := EncodeCommand(codec, gen, fs);
    case ReportDecode =>
    case Usage =>
  }

  /** The `switch` calling the corrected commands. */
  method PerformIntended(codec: Codec, gen: Generator, fs: FileSystem, action: Action) returns (rv: bool)
    modifies gen, fs
    ensures Outcome(rv, fs.files, gen.position) == SwitchIntended(codec, fs.canOpen, old(fs.files), gen.raw, old(gen.position), action)
  {
    rv := false;
    match action
    case RunBenchmark =>
      rv := BenchmarkIntended(codec, gen);
    case RunEncode =>
      rv := EncodeCommandIntended(codec, gen, fs);
    case ReportDecode =>
    case Usage =>
  }

  /** `process_command(argv)` for the first argument `arg`: the command
      selected by the hash of its first three characters, as written. */
  method ProcessCommand(codec: Codec, gen: Generator, fs: FileSystem, arg: seq<byte>) returns (rv: bool)
    modifies gen, fs
    ensures Dispatch(arg) == RunBenchmark ==>
      !rv &&
      gen.position == TestSpec(codec, BlockLength, SymbolSize, gen.raw, old(gen.position)).position &&
      fs.files == old(fs.files)
    ensures Dispatch(arg) == RunEncode ==>
      var r := EncodeCommandSpec(codec, fs.canOpen, old(fs.files), gen.raw, old(gen.position));
      rv == (r.stage == SymbolsNotWritten) && fs.files == r.files && gen.position == r.position
    ensures Dispatch(arg) in {ReportDecode, Usage} ==>
      !rv && gen.position == old(gen.position) && fs.files == old(fs.files)
  {
    rv := Perform(codec, gen, fs, Dispatch(arg));
  }

  /** `process_command` over the corrected commands. */
  method ProcessCommandIntended(codec: Codec, gen: Generator, fs: FileSystem, arg: seq<byte>) returns (rv: bool)
    modifies gen, fs
    ensures Dispatch(arg) == RunBenchmark ==>
      rv == Passed(TestSpec(codec, BlockLength, SymbolSize, gen.raw, old(gen.position))) &&
      gen.position == TestSpec(codec, BlockLength, SymbolSize, gen.raw, old(gen.position)).position &&
      fs.files == old(fs.files)
    ensures Dispatch(arg) == RunEncode ==>
      var r := EncodeCommandSpec(codec, fs.canOpen, old(fs.files), gen.raw, old(gen.position));
      rv == (r.stage == Written) && fs.files == r.files && gen.position == r.position
    ensures Dispatch(arg) in {ReportDecode, Usage} ==>
      !rv && gen.position == old(gen.position) && fs.files == old(fs.files)
  {
    rv := PerformIntended(codec, gen, fs, Dispatch(arg));
  }

  /** With every file openable, the engine of `EchoCodec` and the stream of
      `Hundreds`, the `encode` command writes both files, so `EncodeCommand`
      reports failure where `EncodeCommandIntended` reports success. */
  lemma InvertedWriteCheck()
    ensures EncodeCommandSpec(EchoCodec, (name: string) => true, map[], Hundreds, 0).stage == Written
  {
    var input := Payload(Hundreds, 0, BlockLength);
    var block := SelectBlock(EchoCodec.blocks, MinSymbols(BlockLength, SymbolSize));
    var enc := EchoCodec.encoder(block, SymbolSize, input);
    HundredsNeverDrop();
    EncodeNeverDropped(enc, input, TrialDropProbability, Hundreds, PayloadEnd(0, BlockLength));
  }
}

/** The benchmark proper: a random payload is encoded, sent through the lossy
    channel, decoded and compared with the original, up to five times. */
module Bench {
  import opened Types
  import opened Engine
  import opened Loss
  import opened BlockSize
  import opened Transmit
  import opened Receive

  /** `SYMBOL_SIZE` */
  const SymbolSize: u16 := 62
  /** `BLOCK_SIZE`, in bytes. */
  const BlockLength: u32 := 40 * 1024
  /** The number of encode/decode trials `test_rq` runs at most. */
  const TrialCount: nat := 5
  /** The drop percentage `test_rq` and the `encode` command pass to
      `encode_block`. */
  const TrialDropProbability: u32 := 10

  /** The payload distribution: bytes in [0, 255]. */
  const ByteRange: Distribution := UniformInt(0, 255)

  /** The payload byte drawn from the `k`-th output of the stream. */
  function PayloadByte(raw: nat -> nat, k: nat): byte
  {
    Sample(raw, k, ByteRange)
  }

  /** The `size` bytes drawn from the shared stream standing at `pos`, in
      the order they are drawn. */
  function Payload(raw: nat -> nat, pos: nat, size: nat): (b: Binary)
    ensures |b| == size
    decreases size
  {
    if size == 0 then [] else Payload(raw, pos, size - 1) + [PayloadByte(raw, pos + size - 1)]
  }

  /** Byte `i` of the payload is the one drawn from the `i`-th output after
      `pos`. */
  lemma {:induction false} PayloadAt(raw: nat -> nat, pos: nat, size: nat, i: nat)
    requires i < size
    ensures Payload(raw, pos, size)[i] == PayloadByte(raw, pos + i)
    decreases size
  {
    if i < size - 1 {
      PayloadAt(raw, pos, size - 1, i);
    }
  }

  /** Where the stream stands once a payload of `size` bytes has been drawn
      from `pos`. */
  function PayloadEnd(pos: nat, size: nat): nat
  {
    pos + size
  }

  /** `generate_random_data(size)`: one draw from the shared generator per
      byte. */
  method GenerateRandomData(gen: Generator, size: u32) returns (input: Binary)
    modifies gen
    ensures input == Payload(gen.raw, old(gen.position), size)
    ensures gen.position == PayloadEnd(old(gen.position), size)
  {
    input := [];
    var idx := 0;
    while idx < size
      invariant 0 <= idx <= size
      invariant gen.position == old(gen.position) + idx
      invariant input == Payload(gen.raw, old(gen.position), idx)
    {
      var v := gen.Next(ByteRange);
      input := input + [v as byte];
      idx := idx + 1;
    }
  }

  /** How one trial ended. */
  datatype TrialResult = EncodeFailed | DecodeFailed | Mismatch | Match

  /** A trial's result and where the shared stream stands after it. */
  datatype TrialRun = TrialRun(result: TrialResult, next: nat)

  /** How a trial ends once the payload `input` has been sent as `encoded`,
      the stream standing at `next` afterwards: the transmission is empty, or
      the decoded bytes are empty, or they are compared with the payload. */
  function Verdict(dec: Decoder, input: Binary, encoded: Symbols, next: nat, size: nat): TrialRun
  {
    if encoded == [] then TrialRun(EncodeFailed, next)
    else
      var decoded := DecodeSpec(dec, encoded, size);
      TrialRun(if decoded == [] then DecodeFailed else if decoded == input then Match else Mismatch, next)
  }

  /** One iteration of the trial loop with the shared stream at `pos`: a
      fresh payload, `encode_block` with percentage 10, `decode_block`, and
      the comparison of the payload with the decoded bytes. */
  function Trial(codec: Codec, block: u16, symbolSize: u16, size: u32, raw: nat -> nat, pos: nat): TrialRun
  {
    var input := Payload(raw, pos, size);
    var t := EncodeSpec(codec.encoder(block, symbolSize, input), input, TrialDropProbability, raw, PayloadEnd(pos, size));
    Verdict(codec.decoder(block, symbolSize), input, t.encoded, t.position, size)
  }

  /** `Trial` as a function of where the stream stands. */
  function TrialAt(codec: Codec, block: u16, symbolSize: u16, size: u32, raw: nat -> nat): nat -> TrialRun
  {
    (pos: nat) => Trial(codec, block, symbolSize, size, raw, pos)
  }

  /** A trial is the verdict on the payload drawn at `pos`, sent from the
      position right after it with the block's encoder, and decoded with the
      block's decoder. */
  lemma TrialFrom(codec: Codec, block: u16, symbolSize: u16, size: u32, raw: nat -> nat, pos: nat,
                  dec: Decoder, enc: Encoder, input: Binary)
    requires dec == codec.decoder(block, symbolSize) && enc == codec.encoder(block, symbolSize, input)
    requires input == Payload(raw, pos, size)
    ensures var t := EncodeSpec(enc, input, TrialDropProbability, raw, PayloadEnd(pos, size));
      Trial(codec, block, symbolSize, size, raw, pos) == Verdict(dec, input, t.encoded, t.position, size)
  {
  }

  /** `run` gives, at every position, the trial that `Trial` describes there. */
  ghost predicate Implements(run: nat -> TrialRun, codec: Codec, block: u16, symbolSize: u16, size: u32, raw: nat -> nat)
  {
    forall p: nat {:trigger Trial(codec, block, symbolSize, size, raw, p)} :: run(p) == Trial(codec, block, symbolSize, size, raw, p)
  }

  lemma TrialAtImplements(codec: Codec, block: u16, symbolSize: u16, size: u32, raw: nat -> nat)
    ensures Implements(TrialAt(codec, block, symbolSize, size, raw), codec, block, symbolSize, size, raw)
  {
  }

  /** `encode_block(enc, input, 10)` with the stream standing at `at`. */
  method SendPayload(enc: Encoder, input: Binary, gen: Generator, ghost at: nat) returns (encoded: Symbols)
    requires gen.position == at
    modifies gen
    ensures encoded == EncodeSpec(enc, input, TrialDropProbability, gen.raw, at).encoded
    ensures gen.position == EncodeSpec(enc, input, TrialDropProbability, gen.raw, at).position
  {
    var droppedSource, droppedRepair;
    encoded, droppedSource, droppedRepair := EncodeBlock(enc, input, gen, TrialDropProbability);
  }


  /** What a run of trials came to: how many matched, the result of the one
      that did not (if any; it ends the run), and where the stream stands at
      the end. */
  datatype Campaign = Campaign(matched: nat, failure: Option<TrialResult>, position: nat)
  {
    /** The number of trials run. */
    function Ran(): nat { matched + if failure.Some? then 1 else 0 }
  }

  /** Up to `n` trials, each given by `run` from where the previous one left
      the stream, stopping after the first one that does not match. */
  function Trials(run: nat -> TrialRun, pos: nat, n: nat): Campaign
    decreases n
  {
    if n == 0 then Campaign(0, None, pos)
    else
      var t := run(pos);
      if t.result != Match then Campaign(0, Some(t.result), t.next)
      else
        var rest := Trials(run, t.next, n - 1);
        Campaign(rest.matched + 1, rest.failure, rest.position)
  }

  /** `test_rq(size, symbol_size)` with the stream at `pos`: the block size is
      chosen once, then the trials run. */
  function TestSpec(codec: Codec, size: u32, symbolSize: u16, raw: nat -> nat, pos: nat): Campaign
    requires symbolSize > 0
  {
    var block := SelectBlock(codec.blocks, MinSymbols(size, symbolSize));
    Trials(TrialAt(codec, block, symbolSize, size, raw), pos, TrialCount)
  }

  /** All five trials ran and matched. */
  predicate Passed(c: Campaign)
  {
    c.matched == TrialCount && c.failure == None
  }

  /** The trial loop runs between 1 and `n` trials, it stops before the
      `n`-th only on a failure, and a failure is never a match. */
  lemma {:induction false} TrialsShape(run: nat -> TrialRun, pos: nat, n: nat)
    requires n > 0
    ensures var c := Trials(run, pos, n);
      1 <= c.Ran() <= n &&
      (c.failure == None <==> c.matched == n) &&
      c.failure != Some(Match)
    decreases n
  {
    var t := run(pos);
    if t.result == Match && n > 1 {
      TrialsShape(run, t.next, n - 1);
    }
  }

  /** Campaigns of trials that agree everywhere agree. */
  lemma {:induction false} TrialsAgree(run: nat -> TrialRun, other: nat -> TrialRun, pos: nat, n: nat)
    requires forall p :: run(p) == other(p)
    ensures Trials(run, pos, n) == Trials(other, pos, n)
    decreases n
  {
    if n > 0 {
      TrialsAgree(run, other, run(pos).next, n - 1);
    }
  }

  /** The trials `test_rq` runs with a given block. */
  lemma ImplementedTrials(run: nat -> TrialRun, codec: Codec, block: u16, symbolSize: u16, size: u32, raw: nat -> nat, pos: nat)
    requires Implements(run, codec, block, symbolSize, size, raw)
    ensures Trials(run, pos, TrialCount) == Trials(TrialAt(codec, block, symbolSize, size, raw), pos, TrialCount)
  {
    var other := TrialAt(codec, block, symbolSize, size, raw);
    forall p: nat ensures run(p) == other(p) {
      assert other(p) == Trial(codec, block, symbolSize, size, raw, p);
    }
    TrialsAgree(run, other, pos, TrialCount);
  }

  /** The first half of a trial: a fresh payload drawn from the shared
      generator and sent through `encode_block` with percentage 10, with the
      decoder for the block. */
  method GenerateAndEncode(codec: Codec, block: u16, symbolSize: u16, size: u32, gen: Generator)
    returns (dec: Decoder, input: Binary, encoded: Symbols)
    modifies gen
    ensures input == Payload(gen.raw, old(gen.position), size)
    ensures dec == codec.decoder(block, symbolSize)
    ensures encoded == EncodeSpec(codec.encoder(block, symbolSize, input), input, TrialDropProbability,
                                  gen.raw, PayloadEnd(old(gen.position), size)).encoded
    ensures Trial(codec, block, symbolSize, size, gen.raw, old(gen.position)) == Verdict(dec, input, encoded, gen.position, size)
  {
    ghost var pos := gen.position;
    input := GenerateRandomData(gen, size);
    // The benchmark builds the encoder and the decoder before the payload; as
    // values that hold the engine's answers, they are taken once the payload
    // is known.
    dec := codec.decoder(block, symbolSize);
    var enc := codec.encoder(block, symbolSize, input);
    ghost var at := gen.position;
    TrialFrom(codec, block, symbolSize, size, gen.raw, pos, dec, enc, input);
    encoded := SendPayload(enc, input, gen, at);
  }

  /** The campaign `test_rq` runs, for any `run` that stands for its
      trials. */
  lemma TestSpecIs(run: nat -> TrialRun, codec: Codec, size: u32, symbolSize: u16, raw: nat -> nat, pos: nat)
    requires symbolSize > 0
    requires Implements(run, codec, SelectBlock(codec.blocks, MinSymbols(size, symbolSize)), symbolSize, size, raw)
    ensures TestSpec(codec, size, symbolSize, raw, pos) == Trials(run, pos, TrialCount)
  {
    ImplementedTrials(run, codec, SelectBlock(codec.blocks, MinSymbols(size, symbolSize)), symbolSize, size, raw, pos);
  }

  /** A trial that does not match ends the run there. */
  lemma TrialsStop(run: nat -> TrialRun, pos: nat, n: nat)
    requires n > 0 && run(pos).result != Match
    ensures Trials(run, pos, n) == Campaign(0, Some(run(pos).result), run(pos).next)
  {
  }

  /** A trial that matches is counted and the run goes on from where it left
      the stream, with one trial fewer to go (`m` trials). */
  lemma TrialsNext(run: nat -> TrialRun, pos: nat, n: nat, m: nat)
    requires n == m + 1 && run(pos).result == Match
    ensures var rest := Trials(run, run(pos).next, m);
      Trials(run, pos, n) == Campaign(rest.matched + 1, rest.failure, rest.position)
  {
  }

  /** `test_rq` as written: the comparison result goes to a new local `ok`
      that shadows the returned one, so the returned flag is only ever
      assigned `false`. */
  method TestRq(codec: Codec, gen: Generator, size: u32, symbolSize: u16) returns (ok: bool)
    requires symbolSize > 0
    modifies gen
    ensures !ok
    ensures gen.position == TestSpec(codec, size, symbolSize, gen.raw, old(gen.position)).position
  {
    var block := CalcSymbolsPerBlock(size, symbolSize, codec.blocks);
    TrialAtImplements(codec, block, symbolSize, size, gen.raw);
    ghost var run: nat -> TrialRun :| Implements(run, codec, block, symbolSize, size, gen.raw);
    ghost var whole := Trials(run, gen.position, TrialCount);
    TestSpecIs(run, codec, size, symbolSize, gen.raw, gen.position);
    ghost var left := TrialCount;
    ok := false;
    var i := 0;
    while i < TrialCount
      invariant 0 <= i <= TrialCount && left == TrialCount - i && !ok
      invariant var c := Trials(run, gen.position, left);
        whole == Campaign(i + c.matched, c.failure, c.position)
    {
      ok := false;
      ghost var pos := gen.position;
      var dec, input, encoded := GenerateAndEncode(codec, block, symbolSize, size, gen);
      if |encoded| == 0 {
        TrialsStop(run, pos, left);
        break;
      }
      var decoded := DecodeBlock(dec, encoded, size);
      if decoded == [] {
        TrialsStop(run, pos, left);
        break;
      }
      var ok := input == decoded;
      if !ok {
        TrialsStop(run, pos, left);
        break;
      }
      i := i + 1;
      ghost var before := left;
      left := left - 1;
      TrialsNext(run, pos, before, left);
    }
  }

  /** `test_rq` with the comparison assigned to the returned flag: true
      exactly when all five trials ran and matched. */
  method TestRqIntended(codec: Codec, gen: Generator, size: u32, symbolSize: u16) returns (ok: bool)
    requires symbolSize > 0
    modifies gen
    ensures ok == Passed(TestSpec(codec, size, symbolSize, gen.raw, old(gen.position)))
    ensures gen.position == TestSpec(codec, size, symbolSize, gen.raw, old(gen.position)).position
  {
    var block := CalcSymbolsPerBlock(size, symbolSize, codec.blocks);
    TrialAtImplements(codec, block, symbolSize, size, gen.raw);
    ghost var run: nat -> TrialRun :| Implements(run, codec, block, symbolSize, size, gen.raw);
    ghost var whole := Trials(run, gen.position, TrialCount);
    TestSpecIs(run, codec, size, symbolSize, gen.raw, gen.position);
    ghost var left := TrialCount;
    ok := false;
    var i := 0;
    while i < TrialCount
      invariant 0 <= i <= TrialCount && left == TrialCount - i && ok == (i > 0)
      invariant var c := Trials(run, gen.position, left);
        whole == Campaign(i + c.matched, c.failure, c.position)
    {
      ok := false;
      ghost var pos := gen.position;
      var dec, input, encoded := GenerateAndEncode(codec, block, symbolSize, size, gen);
      if |encoded| == 0 {
        TrialsStop(run, pos, left);
        break;
      }
      var decoded := DecodeBlock(dec, encoded, size);
      if decoded == [] {
        TrialsStop(run, pos, left);
        break;
      }
      ok := input == decoded;
      if !ok {
        TrialsStop(run, pos, left);
        break;
      }
      i := i + 1;
      ghost var before := left;
      left := left - 1;
      TrialsNext(run, pos, before, left);
    }
  }

  /** `benchmark()`: one test of a `BLOCK_SIZE` payload at `SYMBOL_SIZE`.
      Through `test_rq` as written it never succeeds. */
  method Benchmark(codec: Codec, gen: Generator) returns (ok: bool)
    modifies gen
    ensures !ok
    ensures gen.position == TestSpec(codec, BlockLength, SymbolSize, gen.raw, old(gen.position)).position
  {
    ok := TestRq(codec, gen, BlockLength, SymbolSize);
  }

  /** `benchmark()` over the corrected `test_rq`: success exactly when the
      test passes. */
  method BenchmarkIntended(codec: Codec, gen: Generator) returns (ok: bool)
    modifies gen
    ensures ok == Passed(TestSpec(codec, BlockLength, SymbolSize, gen.raw, old(gen.position)))
    ensures gen.position == TestSpec(codec, BlockLength, SymbolSize, gen.raw, old(gen.position)).position
  {
    ok := TestRqIntended(codec, gen, BlockLength, SymbolSize);
  }

  /** Five repair symbols: one more than the overhead. */
  const EchoRepairs: Symbols := [Symbol(1, []), Symbol(2, []), Symbol(3, []), Symbol(4, []), Symbol(5, [])]

  /** A decoder that accepts every symbol and gives back the data of the
      first one. */
  const EchoDecoder: Decoder :=
    Decoder((h: Symbols) => NoError, (h: Symbols) => true, (h: Symbols) => NoError,
            (h: Symbols) => if h == [] then [] else h[0].data)

  /** An engine that sends the whole block as its one source symbol, and
      decodes with `EchoDecoder`. */
  const EchoCodec: Codec :=
    Codec([], (block: u16, s: u16, input: Binary) => Encoder(|input|, true, s, [Symbol(0, input)], EchoRepairs),
          (block: u16, s: u16) => EchoDecoder)

  /** A stream whose every output is 100: payload bytes are 100, and no drop
      draw is at most 10. */
  const Hundreds: nat -> nat := (k: nat) => 100

  /** No drop draw of `Hundreds` is at most 10. */
  lemma HundredsNeverDrop()
    ensures forall k: nat :: !DropStep(TrialDropProbability, Hundreds, k).dropped
  {
    forall k: nat ensures !DropStep(TrialDropProbability, Hundreds, k).dropped {
      assert Hundreds(k) == 100;
      assert Sample(Hundreds, k, DropRange) == 100 % 101;
    }
  }

  /** With that engine and stream, a one-byte trial at one-byte symbols
      matches, wherever the stream stands. */
  lemma EchoTrialMatches(block: u16, pos: nat)
    ensures Trial(EchoCodec, block, 1, 1, Hundreds, pos).result == Match
  {
    var input := Payload(Hundreds, pos, 1);
    assert input == [100];
    var enc := EchoCodec.encoder(block, 1, input);
    HundredsNeverDrop();
    EncodeNeverDropped(enc, input, TrialDropProbability, Hundreds, PayloadEnd(pos, 1));
    var encoded := EncodeSpec(enc, input, TrialDropProbability, Hundreds, PayloadEnd(pos, 1)).encoded;
    assert encoded[0] == Symbol(0, Fill(input, 1));
    DecodeAllAccepted(EchoDecoder, encoded, 1);
  }

  /** Trials that all match: the run goes the full length. */
  lemma {:induction false} TrialsAllMatch(run: nat -> TrialRun, pos: nat, n: nat)
    requires forall p :: run(p).result == Match
    ensures Trials(run, pos, n).matched == n && Trials(run, pos, n).failure == None
    decreases n
  {
    if n > 0 {
      TrialsAllMatch(run, run(pos).next, n - 1);
    }
  }

  /** There is an engine and a stream with which all five trials of
      `test_rq(1, 1)` run and match, so the intended result is true while
      `TestRq` returns false. */
  lemma ShadowedPass()
    ensures Passed(TestSpec(EchoCodec, 1, 1, Hundreds, 0))
  {
    var block := SelectBlock(EchoCodec.blocks, MinSymbols(1, 1));
    var run := TrialAt(EchoCodec, block, 1, 1, Hundreds);
    forall p: nat ensures run(p).result == Match {
      EchoTrialMatches(block, p);
    }
    TrialsAllMatch(run, 0, TrialCount);
  }
}

/** The transmit pipeline (`encode_block`): hand the block to the encoder,
    extract every source symbol and then repair symbols, let a `RandomDrop`
    lose some of them, and keep the survivors until the block's symbol count
    plus the overhead is reached. */
module Transmit {
  import opened Types
  import opened Engine
  import opened Loss

  /** Symbols carried beyond the block's source-symbol count. */
  const Overhead: nat := 4

  /** The symbol buffer after extraction: `size` zero bytes overwritten from
      the start by the bytes the engine writes, as many as fit. */
  function Fill(written: Binary, size: nat): (buf: Binary)
    ensures |buf| == size
    ensures forall i :: 0 <= i < size ==> buf[i] == (if i < |written| then written[i] else 0)
    ensures |written| == size ==> buf == written
  {
    if |written| >= size then written[..size] else written + seq(size - |written|, _ => 0)
  }

  /** The (id, data) pair the benchmark builds for one engine symbol. */
  function Record(s: Symbol, size: nat): Symbol
  {
    Symbol(s.id, Fill(s.data, size))
  }

  function StoredRecords(ss: seq<Symbol>, size: nat): seq<Symbol>
  {
    seq(|ss|, i requires 0 <= i < |ss| => Record(ss[i], size))
  }

  /** The number of `false` (kept) decisions. */
  function Survivors(drops: seq<bool>): (n: nat)
    ensures n <= |drops|
  {
    if drops == [] then 0
    else Survivors(drops[..|drops| - 1]) + (if drops[|drops| - 1] then 0 else 1)
  }

  /** The number of `true` (dropped) decisions. */
  function Dropped(drops: seq<bool>): nat
  {
    if drops == [] then 0
    else Dropped(drops[..|drops| - 1]) + (if drops[|drops| - 1] then 1 else 0)
  }

  /** The elements of `xs` whose decision is "keep", in their order. */
  function Kept<T>(xs: seq<T>, drops: seq<bool>): (r: seq<T>)
    requires |xs| == |drops|
    ensures |r| == Survivors(drops)
  {
    if xs == [] then []
    else Kept(xs[..|xs| - 1], drops[..|drops| - 1]) + (if drops[|drops| - 1] then [] else [xs[|xs| - 1]])
  }

  function Range(n: nat): seq<nat>
  {
    seq(n, i requires 0 <= i => i)
  }

  /** The positions of the kept elements. */
  function KeptIndices(drops: seq<bool>): seq<nat>
  {
    Kept(Range(|drops|), drops)
  }

  /** `r` lists elements of `xs` at strictly increasing positions `idx`. */
  ghost predicate OrderedSelection<T>(r: seq<T>, xs: seq<T>, idx: seq<nat>)
  {
    |idx| == |r| &&
    (forall k :: 0 <= k < |idx| ==> idx[k] < |xs| && r[k] == xs[idx[k]]) &&
    (forall k, l :: 0 <= k < l < |idx| ==> idx[k] < idx[l])
  }

  /** Every decision either keeps or drops. */
  lemma {:induction false} SurvivorsPlusDropped(drops: seq<bool>)
    ensures Survivors(drops) + Dropped(drops) == |drops|
  {
    if drops != [] {
      SurvivorsPlusDropped(drops[..|drops| - 1]);
    }
  }

  /** One more decision extends `Kept`, `Survivors` and `Dropped` by that
      decision alone. */
  lemma PrefixStep<T>(xs: seq<T>, drops: seq<bool>, i: nat)
    requires |xs| == |drops| && i < |xs|
    ensures Kept(xs[..i + 1], drops[..i + 1]) == Kept(xs[..i], drops[..i]) + (if drops[i] then [] else [xs[i]])
    ensures Survivors(drops[..i + 1]) == Survivors(drops[..i]) + (if drops[i] then 0 else 1)
    ensures Dropped(drops[..i + 1]) == Dropped(drops[..i]) + (if drops[i] then 1 else 0)
  {
    assert xs[..i + 1][..i] == xs[..i];
    assert drops[..i + 1][..i] == drops[..i];
  }

  /** The kept positions are within bounds, strictly increasing, and are
      exactly the positions whose decision is "keep". */
  lemma {:induction false} KeptIndicesShape(drops: seq<bool>)
    ensures forall k :: 0 <= k < |KeptIndices(drops)| ==> KeptIndices(drops)[k] < |drops|
    ensures forall k, l :: 0 <= k < l < |KeptIndices(drops)| ==> KeptIndices(drops)[k] < KeptIndices(drops)[l]
    ensures forall i :: 0 <= i < |drops| ==> (i in KeptIndices(drops) <==> !drops[i])
  {
    if drops != [] {
      var n := |drops|;
      var ds' := drops[..n - 1];
      KeptIndicesShape(ds');
      var idx' := KeptIndices(ds');
      assert Range(n)[..n - 1] == Range(n - 1);
      var idx := KeptIndices(drops);
      assert idx == idx' + (if drops[n - 1] then [] else [n - 1]);
      forall i | 0 <= i < n ensures (i in idx <==> !drops[i]) {
        if i < n - 1 {
          assert drops[i] == ds'[i];
        } else {
          assert n - 1 !in idx';
        }
      }
    }
  }

  /** The k-th kept element is the element at the k-th kept position. */
  lemma {:induction false} KeptAt<T>(xs: seq<T>, drops: seq<bool>)
    requires |xs| == |drops|
    ensures forall k :: 0 <= k < |Kept(xs, drops)| ==>
      KeptIndices(drops)[k] < |xs| && Kept(xs, drops)[k] == xs[KeptIndices(drops)[k]]
  {
    KeptIndicesShape(drops);
    if xs != [] {
      var n := |xs|;
      var xs', ds' := xs[..n - 1], drops[..n - 1];
      KeptAt(xs', ds');
      assert Range(n)[..n - 1] == Range(n - 1);
      var idx', idx := KeptIndices(ds'), KeptIndices(drops);
      var r', r := Kept(xs', ds'), Kept(xs, drops);
      assert r == r' + (if drops[n - 1] then [] else [xs[n - 1]]);
      assert idx == idx' + (if drops[n - 1] then [] else [n - 1]);
      forall k | 0 <= k < |r| ensures idx[k] < |xs| && r[k] == xs[idx[k]] {
        if k < |r'| {
          assert r[k] == r'[k] && idx[k] == idx'[k];
          assert xs'[idx'[k]] == xs[idx'[k]];
        }
      }
    }
  }

  /** `Kept` keeps exactly the elements whose decision is "keep", each once,
      in their original order. */
  lemma KeptIsOrderedSelection<T>(xs: seq<T>, drops: seq<bool>)
    requires |xs| == |drops|
    ensures OrderedSelection(Kept(xs, drops), xs, KeptIndices(drops))
    ensures forall i :: 0 <= i < |xs| ==> (i in KeptIndices(drops) <==> !drops[i])
  {
    KeptIndicesShape(drops);
    KeptAt(xs, drops);
  }

  /** With no "drop" decision, `Kept` keeps everything. */
  lemma {:induction false} KeptAll<T>(xs: seq<T>, drops: seq<bool>)
    requires |xs| == |drops|
    requires forall i :: 0 <= i < |drops| ==> !drops[i]
    ensures Kept(xs, drops) == xs
  {
    if xs != [] {
      KeptAll(xs[..|xs| - 1], drops[..|drops| - 1]);
    }
  }

  /** The repair loop as a forward search: with `have` symbols collected and
      the iterator at `j`, the index at which the loop stops. */
  function RepairStop(have: nat, target: nat, drops: seq<bool>, j: nat): (stop: nat)
    requires j <= |drops|
    ensures j <= stop <= |drops|
    decreases |drops| - j
  {
    if have >= target || j == |drops| then j
    else RepairStop(have + (if drops[j] then 0 else 1), target, drops, j + 1)
  }

  /** One iteration of the repair loop below the target moves the search one
      symbol on. */
  lemma RepairStopStep(have: nat, next: nat, target: nat, drops: seq<bool>, j: nat)
    requires j < |drops| && have < target && next == have + (if drops[j] then 0 else 1)
    ensures RepairStop(have, target, drops, j) == RepairStop(next, target, drops, j + 1)
  {
  }

  /** Once the target is met or the supply is exhausted, the search stops
      where it stands. */
  lemma RepairStopDone(have: nat, target: nat, drops: seq<bool>, j: nat)
    requires j <= |drops| && (have >= target || j == |drops|)
    ensures RepairStop(have, target, drops, j) == j
  {
  }

  /** Before each of the first `j` decisions the kept count was still below
      the target. */
  ghost predicate StaysBelow(have: nat, target: nat, drops: seq<bool>, j: nat)
    requires j <= |drops|
    decreases j
  {
    j == 0 || (StaysBelow(have, target, drops, j - 1) && have + Survivors(drops[..j - 1]) < target)
  }

  lemma {:induction false} StaysBelowAt(have: nat, target: nat, drops: seq<bool>, j: nat, k: nat)
    requires k < j <= |drops| && StaysBelow(have, target, drops, j)
    ensures have + Survivors(drops[..k]) < target
    decreases j
  {
    if k < j - 1 {
      StaysBelowAt(have, target, drops, j - 1, k);
    }
  }

  /** The search stops at the first index where the kept count reaches the
      target, or at the end: started from any index `i` before it, it lands
      on that same index `j`. */
  lemma {:induction false} StopFrom(have: nat, target: nat, drops: seq<bool>, i: nat, j: nat)
    requires i <= j <= |drops| && StaysBelow(have, target, drops, j)
    requires have + Survivors(drops[..j]) >= target || j == |drops|
    ensures RepairStop(have + Survivors(drops[..i]), target, drops, i) == j
    decreases j - i
  {
    if i < j {
      StopFrom(have, target, drops, i + 1, j);
      PrefixStep(drops, drops, i);
      StaysBelowAt(have, target, drops, j, i);
      RepairStopStep(have + Survivors(drops[..i]), have + Survivors(drops[..i + 1]), target, drops, i);
    } else {
      RepairStopDone(have + Survivors(drops[..i]), target, drops, i);
    }
  }

  /** The repair loop never overshoots the target, and when it stops before
      the supply is exhausted it has reached the target exactly. */
  lemma {:induction false} RepairStopReachesTarget(have: nat, target: nat, drops: seq<bool>, j: nat)
    requires j <= |drops| && have <= target
    ensures var stop := RepairStop(have, target, drops, j);
      Survivors(drops[..j]) <= Survivors(drops[..stop]) &&
      have + (Survivors(drops[..stop]) - Survivors(drops[..j])) <= target &&
      (stop < |drops| ==> have + (Survivors(drops[..stop]) - Survivors(drops[..j])) == target)
    decreases |drops| - j
  {
    if !(have >= target || j == |drops|) {
      var have' := have + (if drops[j] then 0 else 1);
      RepairStopReachesTarget(have', target, drops, j + 1);
      assert drops[..j + 1][..j] == drops[..j];
    }
  }

  /** With every decision "keep", the loop stops after `target - have` more
      symbols, or at the end of the supply. */
  lemma {:induction false} RepairStopWithoutLoss(have: nat, target: nat, drops: seq<bool>, j: nat)
    requires j <= |drops| && have <= target
    requires forall i :: 0 <= i < |drops| ==> !drops[i]
    ensures RepairStop(have, target, drops, j) == Min(j + (target - have), |drops|)
    decreases |drops| - j
  {
    if !(have >= target || j == |drops|) {
      RepairStopWithoutLoss(have + 1, target, drops, j + 1);
    }
  }

  /** What `encode_block` produces: the symbols it returns, the two drop
      counters it reports on its diagnostic stream, and where the shared
      generator stands afterwards. */
  datatype Transmission = Transmission(encoded: Symbols, droppedSource: nat, droppedRepair: nat, position: nat)

  function SourceRecords(enc: Encoder): seq<Symbol> { StoredRecords(enc.sources, enc.symbolSize) }

  function RepairRecords(enc: Encoder): seq<Symbol> { StoredRecords(enc.repairs, enc.symbolSize) }

  /** One drop decision per source symbol, starting with the stream at `pos`. */
  function SourceDrops(enc: Encoder, p: u32, raw: nat -> nat, pos: nat): seq<bool>
  {
    Decisions(p, raw, pos, |enc.sources|)
  }

  /** The drop decisions the repair symbols would get, after the source pass. */
  function RepairDrops(enc: Encoder, p: u32, raw: nat -> nat, pos: nat): seq<bool>
  {
    Decisions(p, raw, pos + DrawsUsed(p, |enc.sources|), |enc.repairs|)
  }

  /** Where the repair iterator stops. */
  function RepairEnd(enc: Encoder, p: u32, raw: nat -> nat, pos: nat): nat
  {
    RepairStop(Survivors(SourceDrops(enc, p, raw, pos)), enc.Symbols() + Overhead, RepairDrops(enc, p, raw, pos), 0)
  }

  /** The source decisions are the ones the decider takes first. */
  lemma SourceDropsDecided(enc: Encoder, p: u32, raw: nat -> nat, pos: nat, at: nat)
    requires at == pos
    ensures DecidedFrom(SourceDrops(enc, p, raw, pos), p, raw, at)
  {
    DecisionsDecided(p, raw, pos, |enc.sources|);
  }

  /** The repair decisions are the ones the decider takes after the source
      pass. */
  lemma RepairDropsDecided(enc: Encoder, p: u32, raw: nat -> nat, pos: nat, at: nat)
    requires at == pos + DrawsUsed(p, |enc.sources|)
    ensures DecidedFrom(RepairDrops(enc, p, raw, pos), p, raw, at)
  {
    DecisionsDecided(p, raw, at, |enc.repairs|);
  }

  /** `encode_block` on a generator standing at `pos`. The two counters are
      the drops the loops counted; the source prints them only when it
      returns symbols, and on the early returns (a `set_data` count other
      than the input size, a failed `compute_sync`, an exhausted repair
      supply) they are model values that no output carries. */
  function EncodeSpec(enc: Encoder, input: Binary, p: u32, raw: nat -> nat, pos: nat): (t: Transmission)
    ensures enc.accepted != |input| || !enc.computeOk ==> t == Transmission([], 0, 0, pos)
  {
    if enc.accepted != |input| || !enc.computeOk then Transmission([], 0, 0, pos)
    else
      var sd := SourceDrops(enc, p, raw, pos);
      var rd := RepairDrops(enc, p, raw, pos);
      var stop := RepairEnd(enc, p, raw, pos);
      var sent := Kept(SourceRecords(enc), sd) + Kept(RepairRecords(enc)[..stop], rd[..stop]);
      Transmission(if stop == |enc.repairs| then [] else sent,
                   Dropped(sd), Dropped(rd[..stop]),
                   pos + DrawsUsed(p, |enc.sources|) + DrawsUsed(p, stop))
  }

  /** `encode_block(enc, input, drop_probability)`. The two counters are the
      values the source writes to its diagnostic stream when it returns
      symbols. */
  method EncodeBlock(enc: Encoder, input: Binary, gen: Generator, dropProbability: u32 := DefaultProbability)
    returns (encoded: Symbols, droppedSource: nat, droppedRepair: nat)
    modifies gen
    ensures Transmission(encoded, droppedSource, droppedRepair, gen.position)
            == EncodeSpec(enc, input, dropProbability, gen.raw, old(gen.position))
  {
    encoded := [];
    var drop := new RandomDrop(gen, dropProbability);
    droppedSource, droppedRepair := 0, 0;
    var rv := enc.accepted;
    if rv != |input| {
      return;
    }
    if !enc.computeOk {
      return;
    }
    ghost var pos0 := drop.generator.position;
    ghost var sd := SourceDrops(enc, drop.probability, drop.generator.raw, pos0);
    ghost var rd := RepairDrops(enc, drop.probability, drop.generator.raw, pos0);
    SourceDropsDecided(enc, drop.probability, drop.generator.raw, pos0, drop.generator.position);
    encoded, droppedSource := SendSources(enc, drop, sd);
    RepairDropsDecided(enc, drop.probability, drop.generator.raw, pos0, drop.generator.position);
    var exhausted;
    encoded, droppedRepair, exhausted := SendRepairs(enc, drop, encoded, rd);
    if exhausted {
      encoded := [];
    }
  }

  /** One symbol through the lossy channel: a drop decision, and the record
      appended to `encoded` when it survives. */
  method Offer(drop: RandomDrop, record: Symbol, encoded: Symbols) returns (sent: Symbols, dropped: bool)
    modifies drop.generator
    ensures Step(dropped, drop.generator.position) == DropStep(drop.probability, drop.generator.raw, old(drop.generator.position))
    ensures sent == encoded + (if dropped then [] else [record])
  {
    dropped := drop.Decide();
    sent := if dropped then encoded else encoded + [record];
  }

  /** The source loop of `encode_block`: every source symbol in enumeration
      order, one drop decision each. */
  method SendSources(enc: Encoder, drop: RandomDrop, ghost sd: seq<bool>) returns (encoded: Symbols, droppedSource: nat)
    requires |sd| == |enc.sources| && DecidedFrom(sd, drop.probability, drop.generator.raw, drop.generator.position)
    modifies drop.generator
    ensures encoded == Kept(SourceRecords(enc), sd)
    ensures droppedSource == Dropped(sd)
    ensures drop.generator.position == old(drop.generator.position) + DrawsUsed(drop.probability, |enc.sources|)
  {
    ghost var pos0 := drop.generator.position;
    ghost var srcs := SourceRecords(enc);
    encoded, droppedSource := [], 0;
    var symbolSize := enc.symbolSize;
    var i := 0;
    while i < |enc.sources|
      invariant 0 <= i <= |enc.sources|
      invariant drop.generator.position == pos0 + DrawsUsed(drop.probability, i)
      invariant encoded == Kept(srcs[..i], sd[..i])
      invariant droppedSource == Dropped(sd[..i])
    {
      var record := Record(enc.sources[i], symbolSize);
      ghost var at := drop.generator.position;
      var dropped;
      encoded, dropped := Offer(drop, record, encoded);
      StepIsDecision(sd, drop.probability, drop.generator.raw, pos0, i, at, Step(dropped, drop.generator.position));
      PrefixStep(srcs, sd, i);
      assert record == srcs[i];
      if dropped {
        droppedSource := droppedSource + 1;
      }
      i := i + 1;
    }
    assert srcs[..i] == srcs && sd[..i] == sd;
  }

  /** The repair loop of `encode_block`: repair symbols in enumeration order,
      one drop decision each, until `sent` has grown to the block's symbol
      count plus the overhead or the supply is exhausted. */
  method SendRepairs(enc: Encoder, drop: RandomDrop, sent: Symbols, ghost rd: seq<bool>)
    returns (encoded: Symbols, droppedRepair: nat, exhausted: bool)
    requires |rd| == |enc.repairs| && DecidedFrom(rd, drop.probability, drop.generator.raw, drop.generator.position)
    modifies drop.generator
    ensures var stop := RepairStop(|sent|, enc.Symbols() + Overhead, rd, 0);
      encoded == sent + Kept(RepairRecords(enc)[..stop], rd[..stop]) &&
      droppedRepair == Dropped(rd[..stop]) &&
      drop.generator.position == old(drop.generator.position) + DrawsUsed(drop.probability, stop) &&
      exhausted == (stop == |enc.repairs|)
  {
    ghost var pos0 := drop.generator.position;
    ghost var reps := RepairRecords(enc);
    var target := enc.Symbols() + Overhead;
    ghost var stop := RepairStop(|sent|, target, rd, 0);
    var repaired: Symbols := [];
    droppedRepair := 0;
    var symbolSize := enc.symbolSize;
    var maxRepair := |enc.repairs|;
    var j := 0;
    assert reps[..0] == [] && rd[..0] == [];
    while |sent| + |repaired| < target && j != maxRepair
      invariant 0 <= j <= maxRepair
      invariant drop.generator.position == pos0 + DrawsUsed(drop.probability, j)
      invariant repaired == Kept(reps[..j], rd[..j])
      invariant droppedRepair == Dropped(rd[..j])
      invariant StaysBelow(|sent|, target, rd, j)
    {
      assert |sent| + Survivors(rd[..j]) < target;
      var record := Record(enc.repairs[j], symbolSize);
      ghost var at := drop.generator.position;
      var dropped;
      repaired, dropped := Offer(drop, record, repaired);
      StepIsDecision(rd, drop.probability, drop.generator.raw, pos0, j, at, Step(dropped, drop.generator.position));
      PrefixStep(reps, rd, j);
      assert record == reps[j];
      if dropped {
        droppedRepair := droppedRepair + 1;
      }
      j := j + 1;
    }
    assert Survivors(rd[..0]) == 0;
    StopFrom(|sent|, target, rd, 0, j);
    assert j == stop;
    encoded := sent + repaired;
    exhausted := j == maxRepair;
  }

  /** A non-empty transmission holds exactly the block's symbol count plus
      the overhead. */
  lemma EncodeSizeExact(enc: Encoder, input: Binary, p: u32, raw: nat -> nat, pos: nat)
    ensures var t := EncodeSpec(enc, input, p, raw, pos);
      t.encoded != [] ==> |t.encoded| == enc.Symbols() + Overhead
  {
    if enc.accepted == |input| && enc.computeOk {
      var sd := SourceDrops(enc, p, raw, pos);
      var rd := RepairDrops(enc, p, raw, pos);
      RepairStopReachesTarget(Survivors(sd), enc.Symbols() + Overhead, rd, 0);
      var stop := RepairEnd(enc, p, raw, pos);
      assert rd[..stop][..stop] == rd[..stop];
      assert rd[..0] == [];
    }
  }

  /** Drop accounting: every source symbol is either kept or counted as
      dropped, every repair symbol the loop considered likewise, and the
      shared generator advanced once per considered symbol (not at all with
      percentage 0). */
  lemma EncodeAccounting(enc: Encoder, input: Binary, p: u32, raw: nat -> nat, pos: nat)
    requires enc.accepted == |input| && enc.computeOk
    ensures var t := EncodeSpec(enc, input, p, raw, pos);
      var stop := RepairEnd(enc, p, raw, pos);
      t.droppedSource + Survivors(SourceDrops(enc, p, raw, pos)) == enc.Symbols() &&
      t.droppedRepair + Survivors(RepairDrops(enc, p, raw, pos)[..stop]) == stop &&
      t.position == pos + DrawsUsed(p, enc.Symbols() + stop)
  {
    SurvivorsPlusDropped(SourceDrops(enc, p, raw, pos));
    SurvivorsPlusDropped(RepairDrops(enc, p, raw, pos)[..RepairEnd(enc, p, raw, pos)]);
  }

  /** A non-empty transmission lists first the kept source symbols, then the
      kept repair symbols, each with its own id and in enumeration order;
      a symbol is kept exactly when its decision is "keep". */
  lemma EncodeOrder(enc: Encoder, input: Binary, p: u32, raw: nat -> nat, pos: nat)
    requires EncodeSpec(enc, input, p, raw, pos).encoded != []
    ensures var t := EncodeSpec(enc, input, p, raw, pos);
      var sd := SourceDrops(enc, p, raw, pos);
      var rd := RepairDrops(enc, p, raw, pos)[..RepairEnd(enc, p, raw, pos)];
      var m := Survivors(sd);
      m <= |t.encoded| &&
      OrderedSelection(t.encoded[..m], SourceRecords(enc), KeptIndices(sd)) &&
      OrderedSelection(t.encoded[m..], RepairRecords(enc), KeptIndices(rd)) &&
      (forall i :: 0 <= i < |sd| ==> (i in KeptIndices(sd) <==> !sd[i])) &&
      (forall i :: 0 <= i < |rd| ==> (i in KeptIndices(rd) <==> !rd[i]))
  {
    var t := EncodeSpec(enc, input, p, raw, pos);
    var sd := SourceDrops(enc, p, raw, pos);
    var stop := RepairEnd(enc, p, raw, pos);
    var rd := RepairDrops(enc, p, raw, pos)[..stop];
    var srcKept := Kept(SourceRecords(enc), sd);
    var repKept := Kept(RepairRecords(enc)[..stop], rd);
    assert t.encoded == srcKept + repKept;
    assert t.encoded[..|srcKept|] == srcKept && t.encoded[|srcKept|..] == repKept;
    KeptIsOrderedSelection(SourceRecords(enc), sd);
    KeptIsOrderedSelection(RepairRecords(enc)[..stop], rd);
  }

  /** Dropping symbols keeps every survivor's size. */
  lemma {:induction false} KeptSized(xs: seq<Symbol>, drops: seq<bool>, size: nat)
    requires |xs| == |drops| && Sized(xs, size)
    ensures Sized(Kept(xs, drops), size)
  {
    if xs != [] {
      var n := |xs| - 1;
      KeptSized(xs[..n], drops[..n], size);
      var front := Kept(xs[..n], drops[..n]);
      var r := Kept(xs, drops);
      assert r == front + (if drops[n] then [] else [xs[n]]);
      forall k | 0 <= k < |r| ensures |r[k].data| == size {
        if k < |front| {
          assert r[k] == front[k];
        } else {
          assert r[k] == xs[n];
        }
      }
    }
  }

  lemma RecordsSized(ss: seq<Symbol>, size: nat, n: nat)
    requires n <= |ss|
    ensures Sized(StoredRecords(ss, size)[..n], size)
  {
  }

  lemma ConcatSized(a: seq<Symbol>, b: seq<Symbol>, size: nat)
    requires Sized(a, size) && Sized(b, size)
    ensures Sized(a + b, size)
  {
    forall k | 0 <= k < |a + b| ensures |(a + b)[k].data| == size {
      if k >= |a| {
        assert (a + b)[k] == b[k - |a|];
      }
    }
  }

  /** Every stored symbol buffer has exactly `symbol_size` bytes. */
  lemma EncodeRecordSize(enc: Encoder, input: Binary, p: u32, raw: nat -> nat, pos: nat)
    ensures Sized(EncodeSpec(enc, input, p, raw, pos).encoded, enc.symbolSize)
  {
    var t := EncodeSpec(enc, input, p, raw, pos);
    if t.encoded != [] {
      var sd := SourceDrops(enc, p, raw, pos);
      var stop := RepairEnd(enc, p, raw, pos);
      var rd := RepairDrops(enc, p, raw, pos)[..stop];
      var srcs := SourceRecords(enc);
      var reps := RepairRecords(enc)[..stop];
      assert srcs[..|srcs|] == srcs;
      RecordsSized(enc.sources, enc.symbolSize, |srcs|);
      RecordsSized(enc.repairs, enc.symbolSize, stop);
      KeptSized(srcs, sd, enc.symbolSize);
      KeptSized(reps, rd, enc.symbolSize);
      assert t.encoded == Kept(srcs, sd) + Kept(reps, rd);
      ConcatSized(Kept(srcs, sd), Kept(reps, rd), enc.symbolSize);
    }
  }

  /** With percentage 0 nothing is lost and no draw is made: the result is
      every source symbol followed by the first four repair symbols, or empty
      when the engine has at most four repair symbols, although with exactly
      four the target is reached on the last one. */
  lemma EncodeWithoutLoss(enc: Encoder, input: Binary, raw: nat -> nat, pos: nat)
    requires enc.accepted == |input| && enc.computeOk
    ensures var t := EncodeSpec(enc, input, 0, raw, pos);
      t.position == pos &&
      t.droppedSource == 0 && t.droppedRepair == 0 &&
      (|enc.repairs| <= Overhead ==> t.encoded == []) &&
      (|enc.repairs| > Overhead ==> t.encoded == SourceRecords(enc) + RepairRecords(enc)[..Overhead])
  {
    var sd := SourceDrops(enc, 0, raw, pos);
    var rd := RepairDrops(enc, 0, raw, pos);
    KeptAll(SourceRecords(enc), sd);
    RepairStopWithoutLoss(Survivors(sd), enc.Symbols() + Overhead, rd, 0);
    var stop := RepairEnd(enc, 0, raw, pos);
    KeptAll(RepairRecords(enc)[..stop], rd[..stop]);
    SurvivorsPlusDropped(sd);
    SurvivorsPlusDropped(rd[..stop]);
  }

  /** The exhaustion test looks only at the iterator: when the supply ends,
      the result is empty even if the last repair symbol met the target. */
  lemma EncodeEmptyOnExhaustion(enc: Encoder, input: Binary, p: u32, raw: nat -> nat, pos: nat)
    requires enc.accepted == |input| && enc.computeOk
    ensures var t := EncodeSpec(enc, input, p, raw, pos);
      t.encoded == [] <==> RepairEnd(enc, p, raw, pos) == |enc.repairs|
  {
    var stop := RepairEnd(enc, p, raw, pos);
    if stop < |enc.repairs| {
      EncodeSizeExact(enc, input, p, raw, pos);
      var sd := SourceDrops(enc, p, raw, pos);
      var rd := RepairDrops(enc, p, raw, pos);
      RepairStopReachesTarget(Survivors(sd), enc.Symbols() + Overhead, rd, 0);
      assert rd[..0] == [];
    }
  }

  /** When no draw the stream can give leads to a drop, the result is the
      same as without loss: every source symbol followed by the first four
      repair symbols, provided the engine has more than four. */
  lemma EncodeNeverDropped(enc: Encoder, input: Binary, p: u32, raw: nat -> nat, pos: nat)
    requires enc.accepted == |input| && enc.computeOk && |enc.repairs| > Overhead
    requires forall k: nat :: !DropStep(p, raw, k).dropped
    ensures EncodeSpec(enc, input, p, raw, pos).encoded == SourceRecords(enc) + RepairRecords(enc)[..Overhead]
  {
    var sd := SourceDrops(enc, p, raw, pos);
    var rd := RepairDrops(enc, p, raw, pos);
    NeverDrops(p, raw, pos, |enc.sources|);
    NeverDrops(p, raw, pos + DrawsUsed(p, |enc.sources|), |enc.repairs|);
    KeptAll(SourceRecords(enc), sd);
    assert Survivors(sd) == enc.Symbols();
    RepairStopWithoutLoss(Survivors(sd), enc.Symbols() + Overhead, rd, 0);
    var stop := RepairEnd(enc, p, raw, pos);
    assert stop == Overhead;
    KeptAll(RepairRecords(enc)[..stop], rd[..stop]);
  }
}

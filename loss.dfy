/** The loss simulator: one process-wide pseudo-random generator and the
    `RandomDrop` deciders that draw from it. */
module Loss {
  import opened Types

  /** The default drop percentage of a `RandomDrop`. */
  const DefaultProbability: u32 := 5

  /** A `uniform_int_distribution` over the closed range [lo, hi]. */
  datatype UniformInt = UniformInt(lo: int, hi: int)
  type Distribution = d: UniformInt | d.lo <= d.hi witness UniformInt(0, 0)

  /** The value a distribution produces from the `i`-th raw output of the
      stream. The distribution's own mapping is not modelled; any mapping into
      the range serves, and this one takes the raw value modulo the width. */
  function Sample(raw: nat -> nat, i: nat, d: Distribution): (v: int)
    ensures d.lo <= v <= d.hi
  {
    d.lo + raw(i) % (d.hi - d.lo + 1)
  }

  /** The shared `mt19937_64`: a stream fixed by the seed, and how far into it
      the process has drawn. Every component that needs randomness holds a
      reference to the same object. */
  class Generator {
    const raw: nat -> nat
    var position: nat

    constructor (raw: nat -> nat)
      ensures this.raw == raw && position == 0
    {
      this.raw := raw;
      position := 0;
    }

    /** `distribution(random_generator)`: one draw from the stream. */
    method Next(d: Distribution) returns (v: int)
      modifies this
      ensures position == old(position) + 1
      ensures v == Sample(raw, old(position), d)
      ensures d.lo <= v <= d.hi
    {
      v := Sample(raw, position, d);
      position := position + 1;
    }
  }

  /** One decision of a `RandomDrop` with percentage `p` when the stream stands
      at `pos`: whether the unit is dropped, and where the stream stands after. */
  datatype Step = Step(dropped: bool, next: nat)

  /** The per-instance distribution: draws over [0, 100]. */
  const DropRange: Distribution := UniformInt(0, 100)

  function DropStep(p: u32, raw: nat -> nat, pos: nat): Step
  {
    if p == 0 then Step(false, pos)
    else Step(Sample(raw, pos, DropRange) <= p, pos + 1)
  }

  /** How many raw outputs `n` decisions consume. */
  function DrawsUsed(p: u32, n: nat): nat
  {
    if p == 0 then 0 else n
  }

  /** The `n` decisions a decider with percentage `p` makes, one after the
      other, starting with the stream at `pos`. */
  function Decisions(p: u32, raw: nat -> nat, pos: nat, n: nat): (ds: seq<bool>)
    ensures |ds| == n
  {
    seq(n, i requires 0 <= i => DropStep(p, raw, pos + DrawsUsed(p, i)).dropped)
  }

  /** The i-th of those decisions. */
  lemma DecisionAt(p: u32, raw: nat -> nat, pos: nat, n: nat, i: nat)
    requires i < n
    ensures Decisions(p, raw, pos, n)[i] == DropStep(p, raw, pos + DrawsUsed(p, i)).dropped
  {
  }

  /** `ds` are decisions taken one after the other with the stream starting
      at `pos`. */
  ghost predicate DecidedFrom(ds: seq<bool>, p: u32, raw: nat -> nat, pos: nat)
  {
    forall i {:trigger DrawsUsed(p, i)} :: 0 <= i < |ds| ==> ds[i] == DropStep(p, raw, pos + DrawsUsed(p, i)).dropped
  }

  lemma DecisionsDecided(p: u32, raw: nat -> nat, pos: nat, n: nat)
    ensures DecidedFrom(Decisions(p, raw, pos, n), p, raw, pos)
  {
    forall i | 0 <= i < n ensures Decisions(p, raw, pos, n)[i] == DropStep(p, raw, pos + DrawsUsed(p, i)).dropped {
      DecisionAt(p, raw, pos, n, i);
    }
  }

  /** A draw taken at the position reached after `i` decisions is the i-th
      decision, and it moves the position on to the one after `i + 1`. */
  lemma StepIsDecision(ds: seq<bool>, p: u32, raw: nat -> nat, pos: nat, i: nat, at: nat, s: Step)
    requires DecidedFrom(ds, p, raw, pos)
    requires i < |ds| && at == pos + DrawsUsed(p, i) && s == DropStep(p, raw, at)
    ensures s.dropped == ds[i]
    ensures s.next == pos + DrawsUsed(p, i + 1)
  {
  }

  /** `RandomDrop`: decides, per call, whether a unit is lost. Its own state is
      the distribution and the percentage; the generator is shared. Objects of
      this class are references and are never copied. */
  class RandomDrop {
    const distribution: Distribution := DropRange
    const probability: u32
    const generator: Generator

    /** The clamp `if (probability > 99) probability = 99;` assigns the
        constructor's parameter, which shadows the member: the member keeps
        the unclamped argument. */
    constructor (generator: Generator, probability: u32 := DefaultProbability)
      ensures this.probability == probability
      ensures this.generator == generator
      ensures generator.position == old(generator.position)
    {
      this.probability := probability;
      this.generator := generator;
      var probability := probability;
      if probability > 99 {
        probability := 99;
      }
    }

    /** `operator()`: with percentage 0 no draw is made and nothing is lost;
        otherwise one draw in [0, 100] is made and the unit is lost when the
        draw is at most the percentage. */
    method Decide() returns (dropped: bool)
      modifies generator
      ensures Step(dropped, generator.position) == DropStep(probability, generator.raw, old(generator.position))
    {
      if probability == 0 {
        return false;
      }
      var draw := generator.Next(distribution);
      dropped := draw <= probability;
    }
  }

  /** With percentage 0 a decision consumes nothing and never drops. */
  lemma ZeroNeverDrops(raw: nat -> nat, pos: nat, n: nat)
    ensures DropStep(0, raw, pos) == Step(false, pos)
    ensures forall i :: 0 <= i < n ==> !Decisions(0, raw, pos, n)[i]
  {
  }

  /** When no draw the stream can give leads to a drop, no decision drops. */
  lemma NeverDrops(p: u32, raw: nat -> nat, pos: nat, n: nat)
    requires forall k: nat :: !DropStep(p, raw, k).dropped
    ensures forall i :: 0 <= i < n ==> !Decisions(p, raw, pos, n)[i]
  {
    forall i | 0 <= i < n ensures !Decisions(p, raw, pos, n)[i] {
      DecisionAt(p, raw, pos, n, i);
    }
  }

  /** With a nonzero percentage, a decision consumes exactly one draw and drops
      exactly when that draw is at most the percentage. */
  lemma NonzeroDrawsOnce(p: u32, raw: nat -> nat, pos: nat)
    requires p > 0
    ensures DropStep(p, raw, pos).next == pos + 1
    ensures DropStep(p, raw, pos).dropped <==> Sample(raw, pos, DropRange) <= p
  {
  }

  /** A percentage of 100 or more (not clamped, see the constructor) drops
      every unit. */
  lemma AtLeastHundredAlwaysDrops(p: u32, raw: nat -> nat, pos: nat, n: nat)
    requires p >= 100
    ensures forall i :: 0 <= i < n ==> Decisions(p, raw, pos, n)[i]
  {
  }

  /** The number of draws d in [0, n) that lead to a drop with percentage p. */
  function DroppingDraws(p: u32, n: nat): nat
  {
    if n == 0 then 0 else DroppingDraws(p, n - 1) + (if n - 1 <= p then 1 else 0)
  }

  /** Of the 101 draws in [0, 100], exactly min(p, 100) + 1 lead to a drop:
      the loss rate is (p + 1) / 101 for 0 < p < 100, not p / 100. */
  lemma {:induction false} DropRate(p: u32)
    requires p > 0
    ensures DroppingDraws(p, 101) == Min(p, 100) + 1
  {
    DroppingDrawsBelow(p, 101);
  }

  lemma {:induction false} DroppingDrawsBelow(p: u32, n: nat)
    ensures DroppingDraws(p, n) == Min(p + 1, n)
  {
    if n > 0 {
      DroppingDrawsBelow(p, n - 1);
    }
  }
}

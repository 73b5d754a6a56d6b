/** Choice of the RaptorQ block size for a payload: the smallest supported
    number of source symbols (K' of Table 2, section 5.6 of RFC 6330) that
    holds the payload at the configured symbol size. */
module BlockSize {
  import opened Types

  /** `RaptorQ::Block_Size::Block_10`, the fallback when no block is large
      enough. */
  const Block10: u16 := 10

  /** `min_symbols`: the payload length divided by the symbol size, rounded up. */
  function MinSymbols(length: nat, symbolSize: nat): (n: nat)
    requires symbolSize > 0
    ensures n * symbolSize >= length
    ensures n == 0 || (n - 1) * symbolSize < length
  {
    length / symbolSize + (if length % symbolSize != 0 then 1 else 0)
  }

  /** The block sizes of the engine's table: ascending, starting at 10. */
  ghost predicate SupportedBlocks(blocks: seq<u16>)
  {
    |blocks| > 0 && blocks[0] == Block10 &&
    forall i, j :: 0 <= i < j < |blocks| ==> blocks[i] < blocks[j]
  }

  /** The first block in `blocks` that holds `min` symbols, or `Block10`. */
  function SelectBlock(blocks: seq<u16>, min: nat): u16
  {
    if blocks == [] then Block10
    else if blocks[0] >= min then blocks[0]
    else SelectBlock(blocks[1..], min)
  }

  /** `calc_symbols_per_block`. */
  method CalcSymbolsPerBlock(blockLength: nat, symbolSize: u16, blocks: seq<u16>) returns (block: u16)
    requires symbolSize > 0
    ensures block == SelectBlock(blocks, MinSymbols(blockLength, symbolSize))
  {
    var minSymbols := blockLength / symbolSize;
    if blockLength % symbolSize != 0 {
      minSymbols := minSymbols + 1;
    }
    block := Block10;
    var i := 0;
    while i < |blocks|
      invariant 0 <= i <= |blocks|
      invariant SelectBlock(blocks[i..], minSymbols) == SelectBlock(blocks, minSymbols)
    {
      if blocks[i] >= minSymbols {
        block := blocks[i];
        break;
      }
      assert blocks[i..][1..] == blocks[i + 1..];
      i := i + 1;
    }
  }

  /** `MinSymbols` is the ceiling: an exact multiple of the symbol size needs
      no extra symbol, one byte more needs exactly one. */
  lemma {:induction false} MinSymbolsBoundary(k: nat, symbolSize: nat)
    requires symbolSize > 0
    ensures MinSymbols(k * symbolSize, symbolSize) == k
    ensures MinSymbols(k * symbolSize + 1, symbolSize) == k + 1
  {
    CeilingUnique(MinSymbols(k * symbolSize, symbolSize), k, k * symbolSize, symbolSize);
    CeilingUnique(MinSymbols(k * symbolSize + 1, symbolSize), k + 1, k * symbolSize + 1, symbolSize);
  }

  /** At most one n satisfies the two inequalities of the ceiling. */
  lemma CeilingUnique(n: nat, m: nat, length: nat, symbolSize: nat)
    requires symbolSize > 0
    requires n * symbolSize >= length && (n == 0 || (n - 1) * symbolSize < length)
    requires m * symbolSize >= length && (m == 0 || (m - 1) * symbolSize < length)
    ensures n == m
  {
    if n < m {
      MulMonotone(n, m - 1, symbolSize);
    } else if m < n {
      MulMonotone(m, n - 1, symbolSize);
    }
  }

  lemma MulMonotone(a: nat, b: nat, s: nat)
    requires a <= b
    ensures a * s <= b * s
  {
    assert b * s == a * s + (b - a) * s;
  }

  /** `SelectBlock` is a first-match scan: when some block holds `min`
      symbols, the result is the first such block; otherwise it is `Block10`. */
  lemma {:induction false} SelectBlockFirstFit(blocks: seq<u16>, min: nat)
    ensures (forall i :: 0 <= i < |blocks| ==> blocks[i] < min) ==> SelectBlock(blocks, min) == Block10
    ensures forall i :: 0 <= i < |blocks| && blocks[i] >= min && (forall j :: 0 <= j < i ==> blocks[j] < min)
              ==> SelectBlock(blocks, min) == blocks[i]
  {
    if blocks != [] {
      SelectBlockFirstFit(blocks[1..], min);
      forall i | 0 <= i < |blocks| && blocks[i] >= min && (forall j :: 0 <= j < i ==> blocks[j] < min)
        ensures SelectBlock(blocks, min) == blocks[i]
      {
        if i > 0 {
          assert blocks[1..][i - 1] == blocks[i];
          assert forall j :: 0 <= j < i - 1 ==> blocks[1..][j] == blocks[j + 1];
        }
      }
    }
  }

  /** Over the engine's ascending table, the chosen block is the smallest
      supported block that holds `min` symbols, when one exists. */
  lemma {:induction false} SelectBlockSmallest(blocks: seq<u16>, min: nat)
    requires SupportedBlocks(blocks)
    requires exists i :: 0 <= i < |blocks| && blocks[i] >= min
    ensures SelectBlock(blocks, min) in blocks
    ensures SelectBlock(blocks, min) >= min
    ensures forall j :: 0 <= j < |blocks| && blocks[j] >= min ==> SelectBlock(blocks, min) <= blocks[j]
  {
    var i := FirstFit(blocks, min);
    SelectBlockFirstFit(blocks, min);
    assert SelectBlock(blocks, min) == blocks[i];
  }

  /** The index of the first block holding `min` symbols. */
  ghost function FirstFit(blocks: seq<u16>, min: nat): (i: nat)
    requires exists i :: 0 <= i < |blocks| && blocks[i] >= min
    ensures i < |blocks| && blocks[i] >= min
    ensures forall j :: 0 <= j < i ==> blocks[j] < min
  {
    if blocks[0] >= min then 0
    else
      assert exists i :: 0 <= i < |blocks[1..]| && blocks[1..][i] >= min by {
        var k :| 0 <= k < |blocks| && blocks[k] >= min;
        assert blocks[1..][k - 1] == blocks[k];
      }
      1 + FirstFit(blocks[1..], min)
  }

  /** When even the largest block is too small, the benchmark does not fail:
      it falls back to `Block10`. */
  lemma NoFitFallsBack(blocks: seq<u16>, min: nat)
    requires SupportedBlocks(blocks)
    requires blocks[|blocks| - 1] < min
    ensures SelectBlock(blocks, min) == Block10
  {
    forall i | 0 <= i < |blocks| ensures blocks[i] < min {
      if i < |blocks| - 1 { assert blocks[i] < blocks[|blocks| - 1]; }
    }
    SelectBlockFirstFit(blocks, min);
  }
}

/** Machine-level types of the benchmark program: bytes, fixed-width unsigned
    integers, and the (id, data) symbol pair that is stored and transmitted. */
module Types {

  /** uint8_t */
  type byte = x: int | 0 <= x < 0x100
  /** uint16_t */
  type u16 = x: int | 0 <= x < 0x1_0000
  /** uint32_t */
  type u32 = x: int | 0 <= x < 0x1_0000_0000

  /** `Binary`: a vector of bytes. */
  type Binary = seq<byte>

  /** `Symbol`: the pair (symbol id, symbol data) the benchmark stores for every
      symbol it keeps. */
  datatype Symbol = Symbol(id: u32, data: Binary)

  /** `Symbols`: a vector of symbols, in transmission order. */
  type Symbols = seq<Symbol>

  /** Every symbol of `ss` carries exactly `size` data bytes. */
  ghost predicate Sized(ss: seq<Symbol>, size: nat)
  {
    forall k :: 0 <= k < |ss| ==> |ss[k].data| == size
  }

  datatype Option<+T> = None | Some(value: T)

  function Min(a: int, b: int): int { if a <= b then a else b }
}

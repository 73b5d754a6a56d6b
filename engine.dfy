/** The RaptorQ coding engine as seen by the benchmark. Its mathematics are not
    modelled: an encoder or a decoder is a value that holds the answers the
    engine gives to each call the benchmark makes. */
module Engine {
  import opened Types

  /** `RaptorQ::Error`, as far as the benchmark distinguishes it. */
  datatype EngineError = NoError | NotNeeded | WrongInput | Initialization | OtherError(code: nat)

  /** An encoder bound to one block size and symbol size, after the benchmark has
      handed it one particular input block:
      - `accepted` is the byte count `set_data` reports,
      - `computeOk` is the result of `compute_sync`,
      - `sources` are the source symbols from `begin_source` to `end_source`,
        each with its id and the bytes the symbol writes when extracted,
      - `repairs` are the repair symbols from `begin_repair` to
        `end_repair(max_repair())`, so `|repairs|` is `max_repair()`. */
  datatype Encoder = Encoder(
    accepted: nat,
    computeOk: bool,
    symbolSize: nat,
    sources: seq<Symbol>,
    repairs: seq<Symbol>)
  {
    /** `enc.symbols()`: the number of source symbols of the block. */
    function Symbols(): nat { |sources| }
  }

  /** A decoder bound to one block size and symbol size. Each answer is a
      function of the symbols added so far, in the order they were added:
      - `addStatus(h)`: what `add_symbol` returns when the last symbol of `h`
        is added after the others,
      - `canDecode(h)`: `can_decode()` after `end_of_input`,
      - `waitStatus(h)`: the error field of `wait_sync()`,
      - `reconstruction(h)`: the bytes `decode_bytes` writes from offset 0,
        as many of them as fit in the output range. */
  datatype Decoder = Decoder(
    addStatus: seq<Symbol> -> EngineError,
    canDecode: seq<Symbol> -> bool,
    waitStatus: seq<Symbol> -> EngineError,
    reconstruction: seq<Symbol> -> Binary)

  /** The engine as the benchmark uses it: its ascending table of supported
      block sizes (`RaptorQ::blocks`), an `Encoder(block, symbol_size)` given
      the input block it will be handed, and a
      `Decoder(block, symbol_size, COMPLETE)`. */
  datatype Codec = Codec(
    blocks: seq<u16>,
    encoder: (u16, u16, Binary) -> Encoder,
    decoder: (u16, u16) -> Decoder)
}

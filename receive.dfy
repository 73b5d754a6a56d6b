/** The receive side of the benchmark: `decode_block` feeds the symbols that
    survived the lossy channel to a decoder and asks it for the block back. */
module Receive {
  import opened Types
  import opened Engine

  /** How the feed loop ended: `Fed(n)` when the decoder was given the first
      `n` received symbols and the loop went on to decoding, `FeedFailed(k)`
      when adding symbol `k` reported an error and the block was given up. */
  datatype Feed = Fed(count: nat) | FeedFailed(at: nat)

  /** What `add_symbol` reports for the `k`-th received symbol, the ones before
      it having been added already. */
  function AddStatus(dec: Decoder, received: Symbols, k: nat): EngineError
    requires k < |received|
  {
    dec.addStatus(received[..k + 1])
  }

  /** The feed loop from symbol `i` on, every symbol before `i` having been
      accepted with `NONE`. `NOT_NEEDED` ends the loop without error; any other
      status but `NONE` ends it with an error. */
  function FeedFrom(dec: Decoder, received: Symbols, i: nat): (f: Feed)
    requires i <= |received|
    ensures f.Fed? ==> i <= f.count <= |received|
    ensures f.FeedFailed? ==> i <= f.at < |received|
    decreases |received| - i
  {
    if i == |received| then Fed(i)
    else
      match AddStatus(dec, received, i)
      case NoError => FeedFrom(dec, received, i + 1)
      case NotNeeded => Fed(i + 1)
      case _ => FeedFailed(i)
  }

  function FeedAll(dec: Decoder, received: Symbols): Feed
  {
    FeedFrom(dec, received, 0)
  }

  /** `decode_block(dec, received, data_size)`: empty when adding a symbol
      fails, when the decoder cannot decode after the end of input, when
      waiting for it reports an error, or when it writes fewer than
      `data_size` bytes; otherwise the first `data_size` reconstructed bytes. */
  function DecodeSpec(dec: Decoder, received: Symbols, dataSize: nat): (r: Binary)
    ensures r != [] ==> |r| == dataSize
  {
    match FeedAll(dec, received)
    case FeedFailed(_) => []
    case Fed(n) =>
      var fed := received[..n];
      if !dec.canDecode(fed) then []
      else if dec.waitStatus(fed) != NoError then []
      else
        var out := dec.reconstruction(fed);
        if Min(|out|, dataSize) != dataSize then [] else out[..dataSize]
  }

  /** `decode_block`. The decoder is a value holding its answers, so the
      method changes nothing; the symbols added so far are always a prefix of
      `received`, in order. */
  method DecodeBlock(dec: Decoder, received: Symbols, dataSize: nat) returns (decoded: Binary)
    ensures decoded == DecodeSpec(dec, received, dataSize)
  {
    decoded := [];
    var i := 0;
    var fed := |received|;
    while i < |received|
      invariant 0 <= i <= |received|
      invariant FeedFrom(dec, received, i) == FeedAll(dec, received)
    {
      var err := dec.addStatus(received[..i + 1]);
      if err != NoError {
        if err == NotNeeded {
          fed := i + 1;
          break;
        }
        return;
      }
      i := i + 1;
    }
    assert FeedAll(dec, received) == Fed(fed);
    var history := received[..fed];
    // end_of_input: no more symbols follow.
    var canDecode := dec.canDecode(history);
    if !canDecode {
      return;
    }
    var res := dec.waitStatus(history);
    if res != NoError {
      return;
    }
    decoded := seq(dataSize, _ => 0);
    var out := dec.reconstruction(history);
    var written := Min(|out|, dataSize);
    decoded := out[..written] + decoded[written..];
    if written != dataSize {
      return [];
    }
    assert decoded[..dataSize] == out[..dataSize];
  }

  /** The feed loop stops at the first symbol not accepted with `NONE`: after
      `n` accepted symbols, the next status decides. */
  lemma {:induction false} FeedDecidedBy(dec: Decoder, received: Symbols, i: nat, n: nat)
    requires i <= n <= |received|
    requires forall k :: i <= k < n ==> AddStatus(dec, received, k) == NoError
    ensures n == |received| ==> FeedFrom(dec, received, i) == Fed(n)
    ensures n < |received| && AddStatus(dec, received, n) == NotNeeded ==> FeedFrom(dec, received, i) == Fed(n + 1)
    ensures n < |received| && AddStatus(dec, received, n) !in {NoError, NotNeeded} ==> FeedFrom(dec, received, i) == FeedFailed(n)
    decreases n - i
  {
    if i < n {
      FeedDecidedBy(dec, received, i + 1, n);
    }
  }

  /** Conversely, what the feed loop's outcome says about the statuses: every
      symbol before the last one fed was accepted with `NONE`, feeding ended
      early only on `NOT_NEEDED`, and a failure names the first status that
      was neither. */
  lemma {:induction false} FeedOutcome(dec: Decoder, received: Symbols, i: nat)
    requires i <= |received|
    ensures var f := FeedFrom(dec, received, i);
            match f
            case Fed(n) =>
              (forall k :: i <= k < n - 1 ==> AddStatus(dec, received, k) == NoError) &&
              (n == |received| || (i < n && AddStatus(dec, received, n - 1) == NotNeeded)) &&
              (n == |received| && i < n ==> AddStatus(dec, received, n - 1) in {NoError, NotNeeded})
            case FeedFailed(k) =>
              (forall j :: i <= j < k ==> AddStatus(dec, received, j) == NoError) &&
              AddStatus(dec, received, k) !in {NoError, NotNeeded}
    decreases |received| - i
  {
    if i < |received| && AddStatus(dec, received, i) == NoError {
      FeedOutcome(dec, received, i + 1);
    }
  }

  /** A status other than `NONE` and `NOT_NEEDED`, after only `NONE`s, gives
      up the block. */
  lemma DecodeAddError(dec: Decoder, received: Symbols, dataSize: nat, k: nat)
    requires k < |received|
    requires forall j :: 0 <= j < k ==> AddStatus(dec, received, j) == NoError
    requires AddStatus(dec, received, k) !in {NoError, NotNeeded}
    ensures DecodeSpec(dec, received, dataSize) == []
  {
    FeedDecidedBy(dec, received, 0, k);
  }

  /** Once the decoder answers `NOT_NEEDED`, the symbols after that one are
      never looked at: decoding the received symbols is decoding the prefix
      that ends there. */
  lemma DecodeIgnoresRest(dec: Decoder, received: Symbols, dataSize: nat, k: nat)
    requires k < |received|
    requires forall j :: 0 <= j < k ==> AddStatus(dec, received, j) == NoError
    requires AddStatus(dec, received, k) == NotNeeded
    ensures DecodeSpec(dec, received, dataSize) == DecodeSpec(dec, received[..k + 1], dataSize)
  {
    var prefix := received[..k + 1];
    forall j | 0 <= j <= k ensures AddStatus(dec, prefix, j) == AddStatus(dec, received, j) {
      assert prefix[..j + 1] == received[..j + 1];
    }
    FeedDecidedBy(dec, received, 0, k);
    FeedDecidedBy(dec, prefix, 0, k);
    assert prefix[..k + 1] == received[..k + 1];
  }

  /** A block comes back exactly when feeding ends without error and the
      decoder, given the symbols fed, can decode, waits without error and
      reconstructs at least `data_size` bytes (and `data_size` is not 0, an
      empty block being indistinguishable from failure). What comes back is
      then the first `data_size` reconstructed bytes. */
  lemma DecodeSucceeds(dec: Decoder, received: Symbols, dataSize: nat)
    ensures var r := DecodeSpec(dec, received, dataSize);
            var f := FeedAll(dec, received);
            r != [] <==>
              f.Fed? && dataSize > 0 &&
              dec.canDecode(received[..f.count]) &&
              dec.waitStatus(received[..f.count]) == NoError &&
              |dec.reconstruction(received[..f.count])| >= dataSize
    ensures var r := DecodeSpec(dec, received, dataSize);
            var f := FeedAll(dec, received);
            r != [] ==> r == dec.reconstruction(received[..f.count])[..dataSize]
  {
  }

  /** When every received symbol is accepted and the decoder reconstructs
      the block, the whole of `received` is used. */
  lemma DecodeAllAccepted(dec: Decoder, received: Symbols, dataSize: nat)
    requires forall k :: 0 <= k < |received| ==> AddStatus(dec, received, k) == NoError
    requires dec.canDecode(received) && dec.waitStatus(received) == NoError
    requires |dec.reconstruction(received)| >= dataSize
    ensures DecodeSpec(dec, received, dataSize) == dec.reconstruction(received)[..dataSize]
  {
    FeedDecidedBy(dec, received, 0, |received|);
    assert received[..|received|] == received;
  }
}

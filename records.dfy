/** The on-disk record of the encoded symbols: each symbol is written as its
    32-bit id in little-endian byte order followed by its data bytes, and the
    records of a block follow one another with no separator. */
module Records {
  import opened Types

  /** `htole32(id)` as the four bytes written, least significant first. */
  function Le32(x: u32): (b: seq<byte>)
    ensures |b| == 4
  {
    [x % 0x100, x / 0x100 % 0x100, x / 0x1_0000 % 0x100, x / 0x100_0000]
  }

  /** Reads four little-endian bytes as an unsigned 32-bit number. */
  function FromLe32(b: seq<byte>): u32
    requires |b| == 4
  {
    var b0, b1, b2, b3 := b[0] as int, b[1] as int, b[2] as int, b[3] as int;
    b0 + 0x100 * b1 + 0x1_0000 * b2 + 0x100_0000 * b3
  }

  lemma Le32RoundTrip(x: u32)
    ensures FromLe32(Le32(x)) == x
  {
    var b := Le32(x);
    var b0, b1, b2, b3 := b[0] as int, b[1] as int, b[2] as int, b[3] as int;
    assert x == b0 + 0x100 * (x / 0x100);
    assert x / 0x100 == b1 + 0x100 * (x / 0x1_0000);
    assert x / 0x1_0000 == b2 + 0x100 * b3;
  }

  lemma FromLe32RoundTrip(b: seq<byte>)
    requires |b| == 4
    ensures Le32(FromLe32(b)) == b
  {
    var x := FromLe32(b);
    var b0, b1, b2, b3 := b[0] as int, b[1] as int, b[2] as int, b[3] as int;
    assert x == b0 + 0x100 * (b1 + 0x100 * (b2 + 0x100 * b3));
    assert x / 0x100 == b1 + 0x100 * (b2 + 0x100 * b3);
    assert x / 0x1_0000 == b2 + 0x100 * b3;
  }

  /** `os << sym`: the record of one symbol. */
  function SerializeSymbol(s: Symbol): Binary
  {
    Le32(s.id) + s.data
  }

  /** `std::copy` of the symbols to an `ostream_iterator<Symbol>`: the records
      in order. */
  function SerializeSymbols(ss: Symbols): Binary
  {
    if ss == [] then [] else SerializeSymbol(ss[0]) + SerializeSymbols(ss[1..])
  }

  /** Reads back records whose data all have `size` bytes; `None` when the
      bytes do not split into whole records. */
  function ParseSymbols(b: Binary, size: nat): Option<Symbols>
    decreases |b|
  {
    if b == [] then Some([])
    else if |b| < 4 + size then None
    else
      match ParseSymbols(b[4 + size..], size)
      case None => None
      case Some(rest) => Some([Symbol(FromLe32(b[..4]), b[4..4 + size])] + rest)
  }

  /** A record is `4 + data.size()` bytes long: the id, which reads back, then
      the data unchanged. */
  lemma SerializeSymbolLayout(s: Symbol)
    ensures var r := SerializeSymbol(s);
      |r| == 4 + |s.data| && FromLe32(r[..4]) == s.id && r[4..] == s.data
  {
    var r := SerializeSymbol(s);
    assert r[..4] == Le32(s.id);
    Le32RoundTrip(s.id);
  }

  /** Writing two runs of symbols one after the other writes the
      concatenation of their records. */
  lemma {:induction false} SerializeConcat(a: Symbols, b: Symbols)
    ensures SerializeSymbols(a + b) == SerializeSymbols(a) + SerializeSymbols(b)
  {
    if a != [] {
      assert (a + b)[1..] == a[1..] + b;
      SerializeConcat(a[1..], b);
    } else {
      assert a + b == b;
    }
  }

  /** With every data buffer `size` bytes long, the file holds `4 + size`
      bytes per symbol. */
  lemma {:induction false} SerializeLength(ss: Symbols, size: nat)
    requires Sized(ss, size)
    ensures |SerializeSymbols(ss)| == |ss| * (4 + size)
  {
    if ss != [] {
      assert Sized(ss[1..], size) by {
        forall k | 0 <= k < |ss[1..]| ensures |ss[1..][k].data| == size {
          assert ss[1..][k] == ss[k + 1];
        }
      }
      SerializeLength(ss[1..], size);
    }
  }

  /** Records of symbols of one size read back as those symbols. */
  lemma {:induction false} ParseSerialize(ss: Symbols, size: nat)
    requires Sized(ss, size)
    ensures ParseSymbols(SerializeSymbols(ss), size) == Some(ss)
  {
    if ss != [] {
      var b := SerializeSymbols(ss);
      var head := SerializeSymbol(ss[0]);
      assert |ss[0].data| == size;
      SerializeSymbolLayout(ss[0]);
      assert Sized(ss[1..], size) by {
        forall k | 0 <= k < |ss[1..]| ensures |ss[1..][k].data| == size {
          assert ss[1..][k] == ss[k + 1];
        }
      }
      ParseSerialize(ss[1..], size);
      assert b[..4] == head[..4];
      assert b[4..4 + size] == head[4..];
      assert b[4 + size..] == SerializeSymbols(ss[1..]);
      assert [ss[0]] + ss[1..] == ss;
    }
  }

  /** Whatever reads back was written by serialising symbols of that size. */
  lemma {:induction false} SerializeParse(b: Binary, size: nat)
    ensures match ParseSymbols(b, size)
            case None => true
            case Some(ss) => Sized(ss, size) && SerializeSymbols(ss) == b
    decreases |b|
  {
    if b != [] && |b| >= 4 + size {
      SerializeParse(b[4 + size..], size);
      match ParseSymbols(b[4 + size..], size)
      case None =>
      case Some(rest) =>
        var s := Symbol(FromLe32(b[..4]), b[4..4 + size]);
        var ss := [s] + rest;
        assert ss[0] == s && ss[1..] == rest;
        FromLe32RoundTrip(b[..4]);
        assert SerializeSymbol(s) == b[..4 + size];
        assert b == b[..4 + size] + b[4 + size..];
        forall k | 0 <= k < |ss| ensures |ss[k].data| == size {
          if k > 0 {
            assert ss[k] == rest[k - 1];
          }
        }
    }
  }
}

/** Little-endian integers in byte strings. */
module Bytes {
  type byte = x: int | 0 <= x < 256

  type u16 = x: int | 0 <= x < 0x1_0000
  type u64 = x: int | 0 <= x < 0x1_0000_0000_0000_0000

  function Pow256(n: nat): nat { if n == 0 then 1 else 256 * Pow256(n - 1) }

  /** The `width` low bytes of a number, least significant first. */
  function ToLe(value: nat, width: nat): (bytes: seq<byte>)
    ensures |bytes| == width
  {
    if width == 0 then [] else [value % 256] + ToLe(value / 256, width - 1)
  }

  /** A number without its `n` lowest bytes. */
  function Shifted(value: nat, n: nat): nat { if n == 0 then value else Shifted(value / 256, n - 1) }

  /** The byte at a position is the lowest of what is left above the bytes before it. */
  lemma {:induction false} LeByte(value: nat, width: nat, i: nat)
    requires i < width
    ensures ToLe(value, width)[i] == Shifted(value, i) % 256
  {
    if i > 0 {
      LeByte(value / 256, width - 1, i - 1);
    }
  }

  function FromLe(bytes: seq<byte>): nat {
    if bytes == [] then 0 else bytes[0] + 256 * FromLe(bytes[1..])
  }

  lemma {:induction false} FromLeBound(bytes: seq<byte>)
    ensures FromLe(bytes) < Pow256(|bytes|)
  {
    if bytes != [] {
      FromLeBound(bytes[1..]);
    }
  }

  lemma {:induction false} LeRoundTrip(value: nat, width: nat)
    requires value < Pow256(width)
    ensures FromLe(ToLe(value, width)) == value
  {
    if width > 0 {
      LeRoundTrip(value / 256, width - 1);
      assert ToLe(value, width)[1..] == ToLe(value / 256, width - 1);
    }
  }

  lemma {:induction false} LeUnique(bytes: seq<byte>)
    ensures ToLe(FromLe(bytes), |bytes|) == bytes
  {
    if bytes != [] {
      LeUnique(bytes[1..]);
      var rest := FromLe(bytes[1..]);
      assert (bytes[0] + 256 * rest) % 256 == bytes[0] && (bytes[0] + 256 * rest) / 256 == rest;
      assert ToLe(FromLe(bytes), |bytes|) == [bytes[0]] + ToLe(rest, |bytes| - 1);
    }
  }

  lemma Widths()
    ensures Pow256(1) == 0x100 && Pow256(2) == 0x1_0000 && Pow256(4) == 0x1_0000_0000
    ensures Pow256(8) == 0x1_0000_0000_0000_0000
  {
    assert Pow256(3) == 0x100_0000;
    assert Pow256(5) == 0x100_0000_0000;
    assert Pow256(6) == 0x1_0000_0000_0000;
    assert Pow256(7) == 0x100_0000_0000_0000;
  }

  predicate AllZero(bytes: seq<byte>) {
    forall i :: 0 <= i < |bytes| ==> bytes[i] == 0
  }

  function Zeros(n: nat): (bytes: seq<byte>)
    ensures |bytes| == n && AllZero(bytes)
  {
    seq(n, _ => 0)
  }

  lemma LeFits(value: nat, width: nat)
    requires (width == 1 && value < 0x100) || (width == 2 && value < 0x1_0000)
      || (width == 4 && value < 0x1_0000_0000) || (width == 8 && value < 0x1_0000_0000_0000_0000)
    ensures FromLe(ToLe(value, width)) == value
  {
    Widths();
    LeRoundTrip(value, width);
  }

  function Concat(chunks: seq<seq<byte>>): seq<byte> {
    if chunks == [] then [] else Concat(chunks[..|chunks| - 1]) + chunks[|chunks| - 1]
  }
}

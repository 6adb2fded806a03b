/** Bytes and fixed-width big-endian integers (`to_be_bytes` / `from_be_bytes`). */
module Bytes {
  newtype byte = b: int | 0 <= b < 256

  function Pow256(width: nat): (p: nat)
    ensures p > 0
  {
    if width == 0 then 1 else 256 * Pow256(width - 1)
  }

  /** The `width` big-endian bytes of `n`, most significant first. */
  function ToBe(n: nat, width: nat): (bytes: seq<byte>)
    ensures |bytes| == width
    decreases width
  {
    if width == 0 then [] else ToBe(n / 256, width - 1) + [(n % 256) as byte]
  }

  function FromBe(bytes: seq<byte>): nat {
    if bytes == [] then 0
    else 256 * FromBe(bytes[..|bytes| - 1]) + bytes[|bytes| - 1] as nat
  }

  lemma {:induction false} BeRoundTrip(n: nat, width: nat)
    requires n < Pow256(width)
    ensures FromBe(ToBe(n, width)) == n
    decreases width
  {
    if width > 0 {
      BeRoundTrip(n / 256, width - 1);
      assert ToBe(n, width)[..width - 1] == ToBe(n / 256, width - 1);
    }
  }

  lemma {:induction false} FromBeBound(bytes: seq<byte>)
    ensures FromBe(bytes) < Pow256(|bytes|)
  {
    if bytes != [] {
      FromBeBound(bytes[..|bytes| - 1]);
    }
  }

  lemma {:induction false} BeRoundTripBytes(bytes: seq<byte>)
    ensures ToBe(FromBe(bytes), |bytes|) == bytes
  {
    if bytes != [] {
      var init, last := bytes[..|bytes| - 1], bytes[|bytes| - 1];
      BeRoundTripBytes(init);
      assert FromBe(bytes) / 256 == FromBe(init);
      assert FromBe(bytes) % 256 == last as nat;
      assert bytes == init + [last];
    }
  }

  const U16: nat := 0x1_0000
  const U32: nat := 0x1_0000_0000
  const U64: nat := 0x1_0000_0000_0000_0000

  lemma Widths()
    ensures Pow256(2) == U16 && Pow256(4) == U32 && Pow256(8) == U64
  {
    assert Pow256(1) == 256 && Pow256(3) == 256 * Pow256(2);
    assert Pow256(5) == 256 * Pow256(4) && Pow256(7) == 256 * Pow256(6);
  }
}

/** Little-endian fields, as the journal's structs lie in memory on the machines it is built for. */
module Bytes {
  import opened Core

  type Data = seq<Byte>
  /** uint64_t */
  type Word64 = n: int | 0 <= n < 0x1_0000_0000_0000_0000

  function Encode(n: nat, width: nat): (bytes: Data)
    ensures |bytes| == width
  {
    if width == 0 then [] else [n % 256] + Encode(n / 256, width - 1)
  }

  function Decode(bytes: Data): nat {
    if bytes == [] then 0 else bytes[0] + 256 * Decode(bytes[1..])
  }

  function Span(width: nat): (n: nat)
    ensures n >= 1
  {
    if width == 0 then 1 else 256 * Span(width - 1)
  }

  lemma {:induction false} DecodeEncode(n: nat, width: nat)
    requires n < Span(width)
    ensures Decode(Encode(n, width)) == n
  {
    if width > 0 {
      DecodeEncode(n / 256, width - 1);
      assert Encode(n, width)[1..] == Encode(n / 256, width - 1);
    }
  }

  lemma {:induction false} DecodeInSpan(bytes: Data)
    ensures Decode(bytes) < Span(|bytes|)
  {
    if bytes != [] {
      DecodeInSpan(bytes[1..]);
    }
  }

  lemma Spans()
    ensures Span(1) == 0x100 && Span(4) == 0x1_0000_0000 && Span(8) == 0x1_0000_0000_0000_0000
  {
    assert Span(2) == 256 * Span(1);
    assert Span(4) == 256 * Span(3) == 65536 * Span(2);
    assert Span(6) == 256 * Span(5) == 65536 * Span(4);
    assert Span(8) == 256 * Span(7) == 65536 * Span(6);
  }

  function U32(bytes: Data): (n: Quantity)
    requires |bytes| == 4
  {
    DecodeInSpan(bytes);
    Spans();
    Decode(bytes)
  }

  function U64(bytes: Data): (n: Word64)
    requires |bytes| == 8
  {
    DecodeInSpan(bytes);
    Spans();
    Decode(bytes)
  }

  /** Two's complement. */
  function FromPrice(p: Price): Word64 {
    if p < 0 then p + 0x1_0000_0000_0000_0000 else p
  }

  function ToPrice(n: Word64): Price {
    if n < 0x8000_0000_0000_0000 then n else n - 0x1_0000_0000_0000_0000
  }

  function Put32(n: Quantity): (bytes: Data)
    ensures |bytes| == 4 && U32(bytes) == n
  {
    Spans();
    DecodeEncode(n, 4);
    Encode(n, 4)
  }

  function Put64(n: Word64): (bytes: Data)
    ensures |bytes| == 8 && U64(bytes) == n
  {
    Spans();
    DecodeEncode(n, 8);
    Encode(n, 8)
  }

  function PutPrice(p: Price): (bytes: Data)
    ensures |bytes| == 8 && ToPrice(U64(bytes)) == p
  {
    Put64(FromPrice(p))
  }

  function Octet(b: Byte): bv8 {
    b as bv8
  }

  function Unsigned(x: bv8): int {
    x as int
  }

  lemma OctetKeeps(b: Byte)
    ensures Unsigned(Octet(b)) == b
  {
    assert b % 256 == b;
  }
}

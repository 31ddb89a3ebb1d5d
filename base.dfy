/** Shared vocabulary: bytes with Go's `byte` arithmetic, an Option type and
    the Go conversion of a byte to a one-rune string. */
module Base {

  /** Go's `byte`: eight bits, so `+` wraps and `|`/`&` are bitwise. */
  type byte = bv8

  datatype Option<+T> = None | Some(value: T)

  /** Go's `byte(n)` for a value already in 0..255. It counts up from zero
      instead of converting with `n as byte`: with the conversion, the solver
      does not finish the proof that the four address bytes of a DfuSe
      command decode back to the address (`Protocol.AddressBytesDecode`),
      even with each conversion spelled out. */
  function ByteOf(n: int): (b: byte)
    requires 0 <= n < 256
    ensures b as int == n
  {
    if n == 0 then 0 else ByteOf(n - 1) + 1
  }

  /** Go's `b << k` on a `byte` operand: the result is again a `byte`, so a
      shift by eight or more positions leaves nothing. */
  function ShiftLeft(b: byte, k: nat): (r: byte)
    ensures k >= 8 ==> r == 0
    ensures k == 0 ==> r == b
  {
    if k >= 8 then 0 else b << k
  }

  /** Go's `string(b)` for a byte `b`: the UTF-8 encoding of the rune with
      code point `b` (one byte below 0x80, two bytes from 0x80 on). */
  function RuneString(b: byte): seq<byte>
  {
    if b < 0x80 then [b] else [0xC0 | (b >> 6), 0x80 | (b & 0x3F)]
  }

  /** A byte below 0x80 is its own one-byte string; any other byte becomes two
      bytes, both from 0x80 on. */
  lemma {:induction false} RuneStringShape(b: byte)
    ensures 1 <= |RuneString(b)| <= 2
    ensures |RuneString(b)| == 1 <==> b < 0x80
    ensures |RuneString(b)| == 1 ==> RuneString(b)[0] == b
    ensures |RuneString(b)| == 2 ==> RuneString(b)[0] >= 0x80 && RuneString(b)[1] >= 0x80
  {
  }

  /** A two-byte rune encoding decodes back to the byte it came from, so
      `RuneString` is injective. */
  lemma {:induction false} RuneStringInjective(a: byte, b: byte)
    requires RuneString(a) == RuneString(b)
    ensures a == b
  {
    if a >= 0x80 {
      assert RuneString(a)[0] == RuneString(b)[0] && RuneString(a)[1] == RuneString(b)[1];
      assert ((RuneString(a)[0] & 0x1F) << 6) | (RuneString(a)[1] & 0x3F) == a;
    }
  }
}

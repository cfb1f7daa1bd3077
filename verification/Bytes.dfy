/** Octets and the big-endian integers the FLV and AVC formats are built from. */
module Bytes {

  type byte = x: int | 0 <= x < 256

  type Bytes = seq<byte>

  function Be16(n: nat): Bytes
    requires n < 0x1_0000
  {
    [n / 0x100, n % 0x100]
  }

  function Be24(n: nat): Bytes
    requires n < 0x100_0000
  {
    [n / 0x1_0000, n / 0x100 % 0x100, n % 0x100]
  }

  function Be32(n: nat): Bytes
    requires n < 0x1_0000_0000
  {
    [n / 0x100_0000, n / 0x1_0000 % 0x100, n / 0x100 % 0x100, n % 0x100]
  }

  /** `(b0 << 8) | b1` on unsigned octets. */
  function FromBe16(b0: byte, b1: byte): nat {
    b0 * 0x100 + b1
  }

  /** `(b0 << 16) | (b1 << 8) | b2` on unsigned octets. */
  function FromBe24(b0: byte, b1: byte, b2: byte): nat {
    b0 * 0x1_0000 + b1 * 0x100 + b2
  }

  /** `(b0 << 24) | (b1 << 16) | (b2 << 8) | b3` on unsigned octets. */
  function FromBe32(b0: byte, b1: byte, b2: byte, b3: byte): nat {
    b0 * 0x100_0000 + b1 * 0x1_0000 + b2 * 0x100 + b3
  }

  lemma BeRoundTrip16(n: nat)
    requires n < 0x1_0000
    ensures FromBe16(Be16(n)[0], Be16(n)[1]) == n
  {
  }

  lemma BeRoundTrip24(n: nat)
    requires n < 0x100_0000
    ensures FromBe24(Be24(n)[0], Be24(n)[1], Be24(n)[2]) == n
  {
  }

  lemma {:induction false} BeRoundTrip32(n: nat)
    requires n < 0x1_0000_0000
    ensures FromBe32(Be32(n)[0], Be32(n)[1], Be32(n)[2], Be32(n)[3]) == n
  {
    var hi, lo := n / 0x1_0000, n % 0x1_0000;
    assert n / 0x100_0000 == hi / 0x100;
    assert n / 0x100 % 0x100 == lo / 0x100;
    assert n % 0x100 == lo % 0x100;
  }

  /** The number whose digits to base 256 these are, the most significant one first. */
  function Value(digits: Bytes): nat {
    if digits == [] then 0 else 0x100 * Value(digits[..|digits| - 1]) + digits[|digits| - 1]
  }

  lemma {:induction false} ValueAppend(digits: Bytes, d: byte)
    ensures Value(digits + [d]) == 0x100 * Value(digits) + d
  {
    assert (digits + [d])[..|digits|] == digits;
  }

  /** Both directions are big-endian. */
  lemma {:induction false} BigEndian(b0: byte, b1: byte, b2: byte, b3: byte)
    ensures Value([b0, b1]) == FromBe16(b0, b1)
    ensures Value([b0, b1, b2]) == FromBe24(b0, b1, b2)
    ensures Value([b0, b1, b2, b3]) == FromBe32(b0, b1, b2, b3)
  {
    ValueAppend([], b0);
    ValueAppend([b0], b1);
    ValueAppend([b0, b1], b2);
    ValueAppend([b0, b1, b2], b3);
    assert [] + [b0] == [b0] && [b0] + [b1] == [b0, b1];
    assert [b0, b1] + [b2] == [b0, b1, b2] && [b0, b1, b2] + [b3] == [b0, b1, b2, b3];
  }

  lemma {:induction false} WrittenBigEndian(n: nat)
    ensures n < 0x1_0000 ==> Value(Be16(n)) == n
    ensures n < 0x100_0000 ==> Value(Be24(n)) == n
    ensures n < 0x1_0000_0000 ==> Value(Be32(n)) == n
  {
    if n < 0x1_0000 {
      BeRoundTrip16(n);
      BigEndian(Be16(n)[0], Be16(n)[1], 0, 0);
    }
    if n < 0x100_0000 {
      BeRoundTrip24(n);
      BigEndian(Be24(n)[0], Be24(n)[1], Be24(n)[2], 0);
    }
    if n < 0x1_0000_0000 {
      BeRoundTrip32(n);
      BigEndian(Be32(n)[0], Be32(n)[1], Be32(n)[2], Be32(n)[3]);
    }
  }

  lemma PrefixSlice(s: Bytes, len: nat, i: nat, j: nat)
    requires i <= j <= len <= |s|
    ensures s[..len][i..j] == s[i..j]
  {
  }
}

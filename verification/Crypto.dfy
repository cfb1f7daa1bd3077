/** Repeating-key XOR of a buffer in place. */
module Crypto {
  import opened Bytes

  function Pow2(n: nat): (r: nat)
    ensures r > 0
  {
    if n == 0 then 1 else 2 * Pow2(n - 1)
  }

  lemma {:induction false} Multiple(k: nat, m: nat)
    requires k > 0
    ensures k * m >= m
  {
    if k > 1 {
      Multiple(k - 1, m);
      assert k * m == (k - 1) * m + m;
    }
  }

  lemma {:induction false} QuotientIsUnique(x: nat, q: nat, m: nat, i: nat)
    requires m > 0 && i < m && x == q * m + i
    ensures x % m == i && x / m == q
  {
    var p, r := x / m, x % m;
    assert x == p * m + r;
    if p < q {
      assert (q - p) * m == q * m - p * m;
      Multiple(q - p, m);
    } else if p > q {
      assert (p - q) * m == p * m - q * m;
      Multiple(p - q, m);
    }
  }

  lemma {:induction false} DivideTwice(a: nat, m: nat)
    requires m > 0
    ensures a / (2 * m) == a / 2 / m
  {
    var half := a / 2;
    var q, r := half / m, half % m;
    assert half == q * m + r;
    assert a == q * (2 * m) + (2 * r + a % 2);
    QuotientIsUnique(a, q, 2 * m, 2 * r + a % 2);
  }

  /** Bit `k` of a number. */
  function Bit(a: nat, k: nat): nat {
    a / Pow2(k) % 2
  }

  lemma {:induction false} BitOfHalf(a: nat, k: nat)
    ensures Bit(a, k + 1) == Bit(a / 2, k)
  {
    DivideTwice(a, Pow2(k));
  }

  /** A bit of `r` is set exactly where those of `a` and `b` differ. */
  ghost predicate IsXor(r: byte, a: byte, b: byte) {
    forall k: nat :: k < 8 ==> (Bit(r, k) == 1 <==> Bit(a, k) != Bit(b, k))
  }

  /** Bitwise exclusive or of the low `n` bits. */
  function XorBits(a: nat, b: nat, n: nat): (r: nat)
    ensures r < Pow2(n)
  {
    if n == 0 then 0
    else 2 * XorBits(a / 2, b / 2, n - 1) + (if a % 2 == b % 2 then 0 else 1)
  }

  lemma {:induction false} XorBitsAt(a: nat, b: nat, n: nat, k: nat)
    requires k < n
    ensures Bit(XorBits(a, b, n), k) == 1 <==> Bit(a, k) != Bit(b, k)
    decreases n
  {
    var r, high := XorBits(a, b, n), XorBits(a / 2, b / 2, n - 1);
    assert r / 2 == high && (r % 2 == 1 <==> a % 2 != b % 2);
    if k == 0 {
    } else {
      BitOfHalf(r, k - 1);
      BitOfHalf(a, k - 1);
      BitOfHalf(b, k - 1);
      XorBitsAt(a / 2, b / 2, n - 1, k - 1);
    }
  }

  lemma {:induction false} XorBitsIsXor(a: byte, b: byte)
    ensures XorBits(a, b, 8) < 256 && IsXor(XorBits(a, b, 8), a, b)
  {
    assert Pow2(8) == 256;
    forall k: nat | k < 8
      ensures Bit(XorBits(a, b, 8), k) == 1 <==> Bit(a, k) != Bit(b, k)
    {
      XorBitsAt(a, b, 8, k);
    }
  }

  function Xor(a: byte, b: byte): (r: byte)
    ensures IsXor(r, a, b)
  {
    XorBitsIsXor(a, b);
    XorBits(a, b, 8)
  }

  lemma {:induction false} XorExample()
    ensures Xor(0x41, 0x6B) == 0x2A
  {
    assert XorBits(0x2, 0x3, 3) == 0x1;
    assert XorBits(0x8, 0xD, 5) == 0x5;
    assert XorBits(0x20, 0x35, 7) == 0x15;
  }

  lemma {:induction false} XorBitsTwice(a: nat, b: nat, n: nat)
    requires a < Pow2(n)
    ensures XorBits(XorBits(a, b, n), b, n) == a
  {
    if n == 0 {
    } else {
      var low := if a % 2 == b % 2 then 0 else 1;
      var high := XorBits(a / 2, b / 2, n - 1);
      XorBitsTwice(a / 2, b / 2, n - 1);
      assert XorBits(a, b, n) / 2 == high && XorBits(a, b, n) % 2 == low;
    }
  }

  lemma {:induction false} XorTwice(a: byte, b: byte)
    ensures Xor(Xor(a, b), b) == a
  {
    assert Pow2(8) == 256;
    XorBitsTwice(a, b, 8);
  }

  /** Byte `i` of the buffer meets byte `i mod key_len` of the key. */
  function Keystream(key: Bytes, buf: Bytes): (r: Bytes)
    requires key != []
    ensures |r| == |buf|
    ensures forall i :: 0 <= i < |buf| ==> r[i] == Xor(buf[i], key[i % |key|])
    ensures forall i :: 0 <= i < |buf| ==> IsXor(r[i], buf[i], key[i % |key|])
  {
    seq(|buf|, i requires 0 <= i < |buf| => Xor(buf[i], key[i % |key|]))
  }

  /** Decrypting what was encrypted with the same key gives the buffer back. */
  lemma {:induction false} DecryptUndoesEncrypt(key: Bytes, buf: Bytes)
    requires key != []
    ensures Keystream(key, Keystream(key, buf)) == buf
  {
    forall i | 0 <= i < |buf|
      ensures Keystream(key, Keystream(key, buf))[i] == buf[i]
    {
      XorTwice(buf[i], key[i % |key|]);
    }
  }

  /** XORs at most `keyLen` bytes of the buffer, from `at` on, with the key from its start. */
  method XorUnit(key: array<byte>, keyLen: nat, buf: array<byte>, at: nat, bufLen: nat)
    requires keyLen <= key.Length && at + bufLen <= buf.Length && key != buf
    modifies buf
    ensures forall i :: 0 <= i < buf.Length ==>
              buf[i] == if at <= i < at + bufLen && i - at < keyLen then Xor(old(buf[i]), key[i - at]) else old(buf[i])
  {
    var i := 0;
    while i < keyLen && i < bufLen
      invariant 0 <= i <= keyLen && i <= bufLen
      invariant forall j :: 0 <= j < buf.Length ==>
                  buf[j] == if at <= j < at + i then Xor(old(buf[j]), key[j - at]) else old(buf[j])
    {
      buf[at + i] := Xor(buf[at + i], key[i]);
      i := i + 1;
    }
  }

  /** The length of the next chunk. */
  function Chunk(keyLen: nat, bufLen: nat, len: nat): nat
    requires len <= bufLen
  {
    if keyLen < bufLen - len then keyLen else bufLen - len
  }

  /** `len` after `n` turns of the chunk loop. */
  function Covered(keyLen: nat, bufLen: nat, n: nat): (len: nat)
    ensures len <= bufLen
  {
    if n == 0 then 0
    else
      var len := Covered(keyLen, bufLen, n - 1);
      len + Chunk(keyLen, bufLen, len)
  }

  lemma {:induction false} CoversKeyLenEachTurn(keyLen: nat, bufLen: nat, n: nat)
    ensures keyLen > 0 ==> Covered(keyLen, bufLen, n) >= if n <= bufLen then n else bufLen
    ensures keyLen == 0 ==> Covered(keyLen, bufLen, n) == 0
  {
    if n == 0 {
    } else {
      CoversKeyLenEachTurn(keyLen, bufLen, n - 1);
    }
  }

  /** The chunk loop ends exactly when there is a key or nothing to do. */
  lemma {:induction false} ChunkLoopEndsExactly(keyLen: nat, bufLen: nat)
    ensures (exists n: nat :: Covered(keyLen, bufLen, n) == bufLen) <==> keyLen > 0 || bufLen == 0
  {
    CoversKeyLenEachTurn(keyLen, bufLen, bufLen);
    assert Covered(keyLen, bufLen, bufLen) <= bufLen;
    forall n: nat
      ensures keyLen == 0 ==> Covered(keyLen, bufLen, n) == 0
    {
      CoversKeyLenEachTurn(keyLen, bufLen, n);
    }
  }

  lemma {:induction false} CoveredIsMultiple(keyLen: nat, bufLen: nat, n: nat)
    ensures Covered(keyLen, bufLen, n) < bufLen ==> Covered(keyLen, bufLen, n) == n * keyLen
  {
    if n == 0 {
    } else {
      CoveredIsMultiple(keyLen, bufLen, n - 1);
      assert n * keyLen == (n - 1) * keyLen + keyLen;
    }
  }

  /** Turn `n + 1` meets the key from its start. */
  lemma {:induction false} ChunkMeetsKeyStart(keyLen: nat, bufLen: nat, n: nat)
    requires keyLen > 0
    ensures forall i :: Covered(keyLen, bufLen, n) <= i < Covered(keyLen, bufLen, n + 1) ==>
              i % keyLen == i - Covered(keyLen, bufLen, n)
  {
    var len := Covered(keyLen, bufLen, n);
    CoveredIsMultiple(keyLen, bufLen, n);
    forall i | len <= i < Covered(keyLen, bufLen, n + 1)
      ensures i % keyLen == i - len
    {
      QuotientIsUnique(i, n, keyLen, i - len);
    }
  }

  /** An empty key and something to encrypt: no number of turns covers the buffer. */
  lemma {:induction false} EmptyKeyLoopsForever(n: nat)
    ensures Covered(0, 1, n) < 1
  {
    CoversKeyLenEachTurn(0, 1, n);
  }

  /** One turn of the chunk loop, with or without a key. */
  method Turn(key: array<byte>, keyLen: nat, buf: array<byte>, bufLen: nat, len: nat, ghost turns: nat)
    returns (newLen: nat)
    requires keyLen <= key.Length && bufLen <= buf.Length && key != buf
    requires len == Covered(keyLen, bufLen, turns) < bufLen
    modifies buf
    ensures newLen == Covered(keyLen, bufLen, turns + 1)
    ensures forall i :: 0 <= i < buf.Length ==>
              buf[i] == if len <= i < newLen then Xor(old(buf[i]), key[i - len]) else old(buf[i])
  {
    var chunk := Chunk(keyLen, bufLen, len);
    XorUnit(key, keyLen, buf, len, chunk);
    newLen := len + chunk;
  }

  /** `crypt`, chunk by chunk: the first `bufLen` bytes meet the keystream, nothing else changes. */
  method Crypt(key: array<byte>, keyLen: nat, buf: array<byte>, bufLen: nat)
    requires keyLen <= key.Length && bufLen <= buf.Length && key != buf
    requires keyLen > 0 || bufLen == 0
    modifies buf
    ensures keyLen > 0 ==> buf[..bufLen] == Keystream(key[..keyLen], old(buf[..bufLen]))
    ensures forall i :: 0 <= i < bufLen ==> keyLen > 0 && IsXor(buf[i], old(buf[i]), key[i % keyLen])
    ensures buf[bufLen..] == old(buf[bufLen..])
  {
    var len := 0;
    ghost var turns := 0;
    while len < bufLen
      invariant len == Covered(keyLen, bufLen, turns)
      invariant forall i :: 0 <= i < len ==> keyLen > 0 && buf[i] == Xor(old(buf[i]), key[i % keyLen])
      invariant forall i :: len <= i < buf.Length ==> buf[i] == old(buf[i])
      decreases bufLen - len
    {
      ChunkMeetsKeyStart(keyLen, bufLen, turns);
      len := Turn(key, keyLen, buf, bufLen, len, turns);
      turns := turns + 1;
    }
  }

  /** `decrypt` is `crypt`: on a buffer encrypted with the same key, `DecryptUndoesEncrypt` gives the plain bytes. */
  method Decrypt(key: array<byte>, keyLen: nat, buf: array<byte>, bufLen: nat)
    requires keyLen <= key.Length && bufLen <= buf.Length && key != buf
    requires keyLen > 0 || bufLen == 0
    modifies buf
    ensures keyLen > 0 ==> buf[..bufLen] == Keystream(key[..keyLen], old(buf[..bufLen]))
    ensures forall i :: 0 <= i < bufLen ==> keyLen > 0 && IsXor(buf[i], old(buf[i]), key[i % keyLen])
    ensures buf[bufLen..] == old(buf[bufLen..])
  {
    Crypt(key, keyLen, buf, bufLen);
  }
}

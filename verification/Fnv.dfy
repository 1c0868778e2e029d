/**
  The 64-bit FNV-1a hash in whole numbers: exclusive or with a byte, then a
  multiplication that wraps at 2^64. Each step can be undone, so one changed byte shows.
*/
module Fnv {
  const TWO_64: nat := 0x1_0000_0000_0000_0000
  const OFFSET_BASIS: Word := 14695981039346656037
  const PRIME: nat := 1099511628211
  /** PRIME times this is one more than a multiple of 2^64. */
  const INVERSE: nat := 14886173955864302971

  type Byte = x: nat | x < 256
  type Word = x: nat | x < TWO_64

  /** Bitwise exclusive or. */
  function Xor(x: nat, y: nat): nat {
    if x == 0 && y == 0 then 0 else 2 * Xor(x / 2, y / 2) + (x + y) % 2
  }

  lemma XorHalves(x: nat, y: nat)
    ensures Xor(x, y) / 2 == Xor(x / 2, y / 2) && Xor(x, y) % 2 == (x + y) % 2
  {}

  lemma Parity(r: nat, x: nat, y: nat)
    requires r % 2 == (x + y) % 2
    ensures (r + y) % 2 == x % 2
  {}

  lemma {:induction false} XorAgain(x: nat, y: nat)
    ensures Xor(Xor(x, y), y) == x
  {
    if x != 0 || y != 0 {
      hide Xor;
      var r := Xor(x, y);
      XorAgain(x / 2, y / 2);
      XorHalves(x, y);
      XorHalves(r, y);
      Parity(r, x, y);
      assert Xor(r, y) / 2 == x / 2 && Xor(r, y) % 2 == x % 2;
    }
  }

  lemma {:induction false} XorSwapped(x: nat, y: nat)
    ensures Xor(x, y) == Xor(y, x)
  {
    if x != 0 || y != 0 {
      XorSwapped(x / 2, y / 2);
    }
  }

  function Pow2(k: nat): (p: nat)
    ensures p > 0
  {
    if k == 0 then 1 else 2 * Pow2(k - 1)
  }

  /** No bit above the highest of either. */
  lemma {:induction false} XorBelow(x: nat, y: nat, k: nat)
    requires x < Pow2(k) && y < Pow2(k)
    ensures Xor(x, y) < Pow2(k)
  {
    if x != 0 || y != 0 {
      XorBelow(x / 2, y / 2, k - 1);
    }
  }

  lemma WordBits()
    ensures Pow2(64) == TWO_64
  {
    assert Pow2(4) == 16 && Pow2(8) == 256;
    Pow2Sum(8, 8);
    Pow2Sum(16, 16);
    Pow2Sum(32, 32);
  }

  lemma {:induction false} Pow2Sum(a: nat, b: nat)
    ensures Pow2(a + b) == Pow2(a) * Pow2(b)
  {
    if a > 0 {
      Pow2Sum(a - 1, b);
    }
  }

  function Mix(hash: Word, byte: Byte): Word {
    Xor(hash, byte) * PRIME % TWO_64
  }

  /** Undoes `Mix` with the same byte. */
  function Unmix(hash: Word, byte: Byte): Word {
    XorIsWord(hash * INVERSE % TWO_64, byte);
    Xor(hash * INVERSE % TWO_64, byte)
  }

  lemma XorIsWord(hash: Word, byte: Byte)
    ensures Xor(hash, byte) < TWO_64
  {
    WordBits();
    XorBelow(hash, byte, 64);
  }

  lemma RemainderIs(a: int, quotient: int, remainder: nat)
    requires a == quotient * TWO_64 + remainder && remainder < TWO_64
    ensures a % TWO_64 == remainder
  {}

  lemma PrimeAndInverse()
    ensures PRIME * INVERSE == 887285111055 * TWO_64 + 1
  {}

  /** The two multiplications undo each other, either way round. */
  lemma MultipliedBack(x: Word, a: nat, b: nat)
    requires (a == PRIME && b == INVERSE) || (a == INVERSE && b == PRIME)
    ensures (x * a % TWO_64) * b % TWO_64 == x
  {
    PrimeAndInverse();
    var q := x * a / TWO_64;
    assert x * a % TWO_64 == x * a - q * TWO_64;
    RemainderIs((x * a % TWO_64) * b, 887285111055 * x - q * b, x);
  }

  /** For each byte, mixing it in maps the 64-bit words one to one onto themselves. */
  lemma MixIsBijection(hash: Word, byte: Byte)
    ensures Unmix(Mix(hash, byte), byte) == hash
    ensures Mix(Unmix(hash, byte), byte) == hash
  {
    XorIsWord(hash, byte);
    MultipliedBack(Xor(hash, byte), PRIME, INVERSE);
    MultipliedBack(hash, INVERSE, PRIME);
    XorAgain(hash, byte);
    XorAgain(hash * INVERSE % TWO_64, byte);
  }

  /** From one word, different bytes lead to different words. */
  lemma MixTellsBytes(hash: Word, a: Byte, b: Byte)
    requires Mix(hash, a) == Mix(hash, b)
    ensures a == b
  {
    XorIsWord(hash, a);
    XorIsWord(hash, b);
    MultipliedBack(Xor(hash, a), PRIME, INVERSE);
    MultipliedBack(Xor(hash, b), PRIME, INVERSE);
    XorSwapped(hash, a);
    XorSwapped(hash, b);
    XorAgain(a, hash);
    XorAgain(b, hash);
  }

  /** The hash of a stream of bytes. */
  function Hash(stream: seq<Byte>): Word {
    if stream == [] then OFFSET_BASIS else Mix(Hash(stream[..|stream| - 1]), stream[|stream| - 1])
  }

  lemma HashNothing()
    ensures Hash([]) == OFFSET_BASIS
  {}

  lemma HashSnoc(stream: seq<Byte>, byte: Byte)
    ensures Hash(stream + [byte]) == Mix(Hash(stream), byte)
  {
    assert (stream + [byte])[..|stream|] == stream;
  }

  /** Streams of one length that differ in exactly one byte hash differently. */
  lemma {:induction false} OneByteShows(a: seq<Byte>, b: seq<Byte>, k: nat)
    requires |a| == |b| && k < |a| && a[k] != b[k]
    requires forall j | 0 <= j < |a| && j != k :: a[j] == b[j]
    ensures Hash(a) != Hash(b)
  {
    var n := |a| - 1;
    if k == n {
      assert a[..n] == b[..n];
      if Hash(a) == Hash(b) {
        MixTellsBytes(Hash(a[..n]), a[n], b[n]);
      }
    } else {
      OneByteShows(a[..n], b[..n], k);
      MixIsBijection(Hash(a[..n]), a[n]);
      MixIsBijection(Hash(b[..n]), b[n]);
    }
  }
}

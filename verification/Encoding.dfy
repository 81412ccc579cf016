/** Little-endian integers in byte strings, and writing bytes into a buffer. */
module Encoding {
  import opened Keys
  import Arith

  /** The value of a little-endian byte string. */
  function Value(b: Bytes): nat {
    if b == [] then 0 else b[0] + 256 * Value(b[1..])
  }

  /** The k low bytes of n, little-endian. */
  function Digits(n: nat, k: nat): (b: Bytes)
    ensures |b| == k
  {
    if k == 0 then [] else [n % 256] + Digits(n / 256, k - 1)
  }

  function Pow(k: nat): (p: nat)
    ensures p > 0
  {
    if k == 0 then 1 else 256 * Pow(k - 1)
  }

  /** What is written is what is read, as long as it fits. */
  lemma {:induction false} ValueOfDigits(n: nat, k: nat)
    requires n < Pow(k)
    ensures Value(Digits(n, k)) == n
    decreases k
  {
    if k > 0 {
      ValueOfDigits(n / 256, k - 1);
      assert Digits(n, k)[1..] == Digits(n / 256, k - 1);
    }
  }

  lemma {:induction false} DigitsOfValue(b: Bytes)
    ensures Value(b) < Pow(|b|) && Digits(Value(b), |b|) == b
  {
    if b != [] { DigitsOfValue(b[1..]); }
  }

  /** Byte order: byte i of an encoding is the digit of 256 to the power i, the low byte first. */
  lemma {:induction false} DigitAt(n: nat, k: nat, i: nat)
    requires i < k
    ensures Digits(n, k)[i] == n / Pow(i) % 256
    decreases k
  {
    if i > 0 {
      DigitAt(n / 256, k - 1, i - 1);
      Arith.DivideTwice(n, Pow(i - 1));
    }
  }

  /** And a byte string stands for the sum of its bytes so weighted. */
  lemma {:induction false} ValueAppend(b: Bytes, x: byte)
    ensures Value(b + [x]) == Value(b) + x * Pow(|b|)
  {
    if b == [] {
      assert [x][1..] == [];
    } else {
      ValueAppend(b[1..], x);
      assert (b + [x])[1..] == b[1..] + [x];
      assert 256 * (x * Pow(|b| - 1)) == x * (256 * Pow(|b| - 1));
    }
  }

  lemma Widths()
    ensures Pow(2) == 0x1_0000 && Pow(4) == 0x1_0000_0000 && Pow(8) == 0x1_0000_0000_0000_0000
  {
    assert Pow(1) == 256 && Pow(3) == 0x100_0000 && Pow(5) == 0x100_0000_0000;
    assert Pow(6) == 0x1_0000_0000_0000 && Pow(7) == 0x100_0000_0000_0000;
  }

  // ---- writing into a buffer ----

  /** d with the bytes b written at off. */
  function Splice(d: Bytes, off: nat, b: Bytes): (r: Bytes)
    requires off + |b| <= |d|
    ensures |r| == |d|
  {
    d[..off] + b + d[off + |b|..]
  }

  lemma SpliceIn(d: Bytes, off: nat, b: Bytes)
    requires off + |b| <= |d|
    ensures Splice(d, off, b)[off..off + |b|] == b
  {
  }

  /** Bytes on either side are untouched. */
  lemma SpliceOut(d: Bytes, off: nat, b: Bytes, i: nat, j: nat)
    requires off + |b| <= |d| && i <= j <= |d| && (j <= off || off + |b| <= i)
    ensures Splice(d, off, b)[i..j] == d[i..j]
  {
    var r := Splice(d, off, b);
    assert forall x :: i <= x < j ==> r[x] == d[x];
  }

  /** Writes to separate places may be made in either order. */
  lemma SpliceSwap(d: Bytes, a: nat, x: Bytes, b: nat, y: Bytes)
    requires a + |x| <= b && b + |y| <= |d|
    ensures Splice(Splice(d, a, x), b, y) == Splice(Splice(d, b, y), a, x)
  {
    assert Splice(Splice(d, a, x), b, y) == d[..a] + x + d[a + |x|..b] + y + d[b + |y|..];
    assert Splice(Splice(d, b, y), a, x) == d[..a] + x + d[a + |x|..b] + y + d[b + |y|..];
  }

  /** The later of two writes to one place counts. */
  lemma SpliceAgain(d: Bytes, a: nat, x: Bytes, y: Bytes)
    requires a + |x| <= |d| && |x| == |y|
    ensures Splice(Splice(d, a, x), a, y) == Splice(d, a, y)
  {
  }

  /** copy: byte by byte. */
  method Copy(buf: array<byte>, off: nat, b: Bytes)
    requires off + |b| <= buf.Length
    modifies buf
    ensures buf[..] == Splice(old(buf[..]), off, b)
  {
    for i := 0 to |b|
      invariant forall x :: 0 <= x < buf.Length ==> buf[x] == if off <= x < off + i then b[x - off] else old(buf[x])
    {
      buf[off + i] := b[i];
    }
    assert forall x :: 0 <= x < buf.Length ==> buf[..][x] == Splice(old(buf[..]), off, b)[x];
  }

  /** PutUint16, PutUint32 and PutUint64, by width. */
  method PutUint(buf: array<byte>, off: nat, k: nat, n: nat)
    requires off + k <= buf.Length
    modifies buf
    ensures buf[..] == Splice(old(buf[..]), off, Digits(n, k))
  {
    Copy(buf, off, Digits(n, k));
  }
}

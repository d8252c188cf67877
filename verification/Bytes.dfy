/** Bytes, little-endian numbers and "these bytes stand at this offset". */
module Bytes {

  type Byte = x: int | 0 <= x < 256

  function Pow256(n: nat): (r: nat)
    ensures r >= 1
  {
    if n == 0 then 1 else 256 * Pow256(n - 1)
  }

  lemma SmallPowers()
    ensures Pow256(1) == 0x100 && Pow256(2) == 0x1_0000 && Pow256(4) == 0x1_0000_0000
  {
    assert Pow256(2) == 256 * Pow256(1);
    assert Pow256(3) == 256 * Pow256(2);
  }

  /** The low `n` bytes of `v`, least significant first. */
  function LittleEndian(n: nat, v: nat): (r: seq<Byte>)
    ensures |r| == n
  {
    if n == 0 then [] else [v % 256] + LittleEndian(n - 1, v / 256)
  }

  /** What a pointer read past the end of `b` finds is left as 0. */
  function ByteAt(b: seq<Byte>, i: nat): Byte {
    if i < |b| then b[i] else 0
  }

  /** The `n`-byte little-endian number at `off`. */
  function Read(b: seq<Byte>, off: nat, n: nat): (r: nat)
    ensures r < Pow256(n)
    decreases n, b
  {
    if n == 0 then 0 else ByteAt(b, off) + 256 * Read(b, off + 1, n - 1)
  }

  /** The `n` bytes from `off` on. */
  function Copy(b: seq<Byte>, off: nat, n: nat): (r: seq<Byte>)
    ensures |r| == n
    decreases n
  {
    if n == 0 then [] else [ByteAt(b, off)] + Copy(b, off + 1, n - 1)
  }

  /** `piece` stands in `b` at `off`. */
  predicate At(b: seq<Byte>, off: nat, piece: seq<Byte>)
    decreases |piece|, b
  {
    piece == [] || (off < |b| && b[off] == piece[0] && At(b, off + 1, piece[1..]))
  }

  lemma {:induction false} AtConcat(b: seq<Byte>, off: nat, x: seq<Byte>, y: seq<Byte>)
    ensures At(b, off, x + y) <==> At(b, off, x) && At(b, off + |x|, y)
    decreases |x|
  {
    if x == [] {
      assert x + y == y;
    } else {
      AtConcat(b, off + 1, x[1..], y);
      assert (x + y)[1..] == x[1..] + y;
    }
  }

  /** The same said with a slice. */
  lemma {:induction false} AtIsSlice(b: seq<Byte>, off: nat, piece: seq<Byte>)
    requires off <= |b|
    ensures At(b, off, piece) <==> off + |piece| <= |b| && b[off..off + |piece|] == piece
    decreases |piece|
  {
    if piece != [] {
      if off < |b| {
        AtIsSlice(b, off + 1, piece[1..]);
        if off + |piece| <= |b| {
          var s := b[off..off + |piece|];
          assert s[1..] == b[off + 1..off + |piece|];
          assert s == [s[0]] + s[1..] && piece == [piece[0]] + piece[1..];
        }
      }
    }
  }

  lemma ConcatAssoc<T>(x: seq<T>, y: seq<T>, z: seq<T>)
    ensures (x + y) + z == x + (y + z)
  {
  }

  lemma {:induction false} ReadBack(b: seq<Byte>, off: nat, n: nat, v: nat)
    requires At(b, off, LittleEndian(n, v)) && v < Pow256(n)
    ensures Read(b, off, n) == v
    decreases n
  {
    if n > 0 {
      assert LittleEndian(n, v)[1..] == LittleEndian(n - 1, v / 256);
      ReadBack(b, off + 1, n - 1, v / 256);
    }
  }

  /** A read looks at the bytes of its own range only. */
  lemma {:induction false} ReadSame(b: seq<Byte>, c: seq<Byte>, off: nat, n: nat)
    requires forall i :: off <= i < off + n ==> ByteAt(b, i) == ByteAt(c, i)
    ensures Read(b, off, n) == Read(c, off, n)
    decreases n
  {
    if n > 0 {
      ReadSame(b, c, off + 1, n - 1);
    }
  }

  /** Byte `k` of a number, counted from the least significant. */
  function ByteOf(v: nat, k: nat): nat {
    if k == 0 then v % 256 else ByteOf(v / 256, k - 1)
  }

  /** A number read has the bytes of its range, least significant first. */
  lemma {:induction false} ReadByte(b: seq<Byte>, off: nat, n: nat, k: nat)
    requires k < n
    ensures ByteOf(Read(b, off, n), k) == ByteAt(b, off + k)
    decreases n
  {
    if k > 0 {
      ReadByte(b, off + 1, n - 1, k - 1);
    }
  }

  /** A copy has the bytes of its range, in order. */
  lemma {:induction false} CopyByte(b: seq<Byte>, off: nat, n: nat, k: nat)
    requires k < n
    ensures Copy(b, off, n)[k] == ByteAt(b, off + k)
    decreases n
  {
    if k > 0 {
      CopyByte(b, off + 1, n - 1, k - 1);
    }
  }

  /** `r` is the `n` bytes from `off` on. */
  ghost predicate BytesFrom(b: seq<Byte>, off: nat, n: nat, r: seq<Byte>) {
    |r| == n && forall k :: 0 <= k < n ==> r[k] == ByteAt(b, off + k)
  }

  lemma CopyIsBytes(b: seq<Byte>, off: nat, n: nat)
    ensures BytesFrom(b, off, n, Copy(b, off, n))
  {
    forall k | 0 <= k < n ensures Copy(b, off, n)[k] == ByteAt(b, off + k) {
      CopyByte(b, off, n, k);
    }
  }

  lemma OneByte(b: seq<Byte>, off: nat)
    ensures Read(b, off, 1) == ByteAt(b, off)
  {
    assert Read(b, off + 1, 0) == 0;
  }

  /** Copying what was put there gives it back. */
  lemma {:induction false} CopyBack(b: seq<Byte>, off: nat, piece: seq<Byte>)
    requires At(b, off, piece)
    ensures Copy(b, off, |piece|) == piece
    decreases |piece|
  {
    if piece != [] {
      CopyBack(b, off + 1, piece[1..]);
      assert piece == [piece[0]] + piece[1..];
    }
  }

  /** A product by repeated addition. */
  function Times(i: nat, n: nat): nat {
    if i == 0 then 0 else n + Times(i - 1, n)
  }

  lemma {:induction false} TimesIsProduct(i: nat, n: nat)
    ensures Times(i, n) == i * n
  {
    if i > 0 {
      TimesIsProduct(i - 1, n);
      assert i * n == n + (i - 1) * n;
    }
  }

  lemma {:induction false} TimesGrows(x: nat, y: nat, d: nat)
    requires x < y
    ensures Times(x, d) + d <= Times(y, d)
    decreases y
  {
    if x < y - 1 {
      TimesGrows(x, y - 1, d);
    }
  }

  function Max0(n: int): nat { if n < 0 then 0 else n }

  /** An int stored in a u32. */
  function U32(v: int): (r: nat)
    ensures r < 0x1_0000_0000
  {
    v % 0x1_0000_0000
  }

  /** A u32 read into an int. */
  function S32(v: nat): int {
    var r := v % 0x1_0000_0000;
    if r < 0x8000_0000 then r else r - 0x1_0000_0000
  }

  /** An int that goes through a u32 comes back. */
  lemma SignedAgain(v: int)
    requires -0x8000_0000 <= v < 0x8000_0000
    ensures S32(U32(v)) == v
  {
  }
}

/** Overwriting a range of a byte string in place, as the patch scripts do with slice assignment. */
module Overwrite {
  import opened Bytes

  /** Two ranges, given by start and length, with no position in common. */
  predicate Apart(lo: nat, n: nat, lo': nat, n': nat) { lo + n <= lo' || lo' + n' <= lo }

  /** blob[o:o + len(p)] = p: a range that reaches past the end makes the file longer. */
  function Splice(d: seq<Byte>, o: nat, p: seq<Byte>): (c: seq<Byte>)
    ensures |c| >= |d|
  {
    if o + |p| <= |d| then d[..o] + p + d[o + |p|..]
    else if o <= |d| then d[..o] + p
    else d + p
  }

  /** Byte by byte, also where the range reaches past the end. */
  lemma SpliceAt(d: seq<Byte>, o: nat, p: seq<Byte>, i: nat)
    requires o <= |d|
    ensures |Splice(d, o, p)| == if o + |p| <= |d| then |d| else o + |p|
    ensures ByteAt(Splice(d, o, p), i) == if o <= i < o + |p| then p[i - o] else ByteAt(d, i)
  {
  }

  /** Fields outside the overwritten range read the same. */
  lemma ReadsSame(d: seq<Byte>, o: nat, p: seq<Byte>, at: nat, n: nat)
    requires o <= |d| && Apart(at, n, o, |p|)
    ensures Read(Splice(d, o, p), at, n) == Read(d, at, n)
  {
    var c := Splice(d, o, p);
    forall i | at <= i < at + n ensures ByteAt(c, i) == ByteAt(d, i) {
      SpliceAt(d, o, p, i);
    }
    ReadSame(c, d, at, n);
  }

  lemma {:induction false} AtByte(d: seq<Byte>, o: nat, p: seq<Byte>, k: nat)
    requires At(d, o, p) && k < |p|
    ensures o + |p| <= |d| && d[o + k] == p[k]
    decreases |p|
  {
    if |p| > 1 {
      AtByte(d, o + 1, p[1..], if k == 0 then 0 else k - 1);
    }
  }

  lemma {:induction false} AtFromBytes(d: seq<Byte>, o: nat, p: seq<Byte>)
    requires o + |p| <= |d| && forall k :: 0 <= k < |p| ==> d[o + k] == p[k]
    ensures At(d, o, p)
    decreases |p|
  {
    if p != [] {
      forall k | 0 <= k < |p[1..]| ensures d[o + 1 + k] == p[1..][k] {
        assert d[o + (k + 1)] == p[k + 1];
      }
      AtFromBytes(d, o + 1, p[1..]);
    }
  }

  /** Writing what is there already changes nothing. */
  lemma SpliceOfSame(d: seq<Byte>, o: nat, p: seq<Byte>)
    requires At(d, o, p) && p != []
    ensures Splice(d, o, p) == d
  {
    AtByte(d, o, p, 0);
    forall i | 0 <= i < |d| ensures Splice(d, o, p)[i] == d[i] {
      SpliceAt(d, o, p, i);
      if o <= i < o + |p| { AtByte(d, o, p, i - o); }
    }
  }

  /** What was just written is there. */
  lemma SpliceShows(d: seq<Byte>, o: nat, p: seq<Byte>)
    requires o + |p| <= |d|
    ensures At(Splice(d, o, p), o, p)
  {
    SpliceAt(d, o, p, 0);
    forall k | 0 <= k < |p| ensures ByteAt(Splice(d, o, p), o + k) == p[k] {
      SpliceAt(d, o, p, o + k);
    }
    ShowsBytes(Splice(d, o, p), o, p);
  }

  lemma ShowsBytes(d: seq<Byte>, o: nat, p: seq<Byte>)
    requires o + |p| <= |d| && forall k :: 0 <= k < |p| ==> ByteAt(d, o + k) == p[k]
    ensures At(d, o, p)
  {
    forall k | 0 <= k < |p| ensures d[o + k] == p[k] {
      assert ByteAt(d, o + k) == p[k];
    }
    AtFromBytes(d, o, p);
  }

  /** Whether a piece stands at an offset is decided by the bytes there. */
  lemma {:induction false} AtSame(d: seq<Byte>, c: seq<Byte>, i: nat, x: seq<Byte>)
    requires |d| == |c| && forall k :: i <= k < i + |x| ==> ByteAt(d, k) == ByteAt(c, k)
    ensures At(d, i, x) == At(c, i, x)
    decreases |x|
  {
    if x != [] {
      assert ByteAt(d, i) == ByteAt(c, i);
      AtSame(d, c, i + 1, x[1..]);
    }
  }

  /** An overwrite elsewhere neither removes a piece nor creates one. */
  lemma SpliceKeeps(d: seq<Byte>, o: nat, p: seq<Byte>, i: nat, x: seq<Byte>)
    requires o + |p| <= |d| && Apart(i, |x|, o, |p|)
    ensures At(Splice(d, o, p), i, x) == At(d, i, x)
  {
    SpliceAt(d, o, p, 0);
    forall k | i <= k < i + |x| ensures ByteAt(Splice(d, o, p), k) == ByteAt(d, k) {
      SpliceAt(d, o, p, k);
    }
    AtSame(d, Splice(d, o, p), i, x);
  }

  lemma SplicesSwap(d: seq<Byte>, o: nat, p: seq<Byte>, q: nat, r: seq<Byte>)
    requires o + |p| <= |d| && q + |r| <= |d| && Apart(o, |p|, q, |r|)
    ensures Splice(Splice(d, o, p), q, r) == Splice(Splice(d, q, r), o, p)
  {
    var a := Splice(Splice(d, o, p), q, r);
    var b := Splice(Splice(d, q, r), o, p);
    forall i | 0 <= i < |d| ensures ByteAt(a, i) == ByteAt(b, i) {
      SpliceAt(d, o, p, i);
      SpliceAt(d, q, r, i);
      SpliceAt(Splice(d, o, p), q, r, i);
      SpliceAt(Splice(d, q, r), o, p, i);
    }
    forall i | 0 <= i < |d| ensures a[i] == b[i] {
      assert ByteAt(a, i) == ByteAt(b, i);
    }
  }
}

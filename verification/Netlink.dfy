/**
Netlink attributes (type-length-value, section 2.2 of RFC 3549) as wifi_hal/cpp_bindings.h
uses them: `WifiRequest` writes nested attributes into a bounded message, `NlIterator` walks
them.  A header is a two-byte length that counts the header itself and a two-byte type, both
little-endian; every attribute is padded to a multiple of four.
 */
module Netlink {
  import opened Bytes

  const NLA_HDRLEN := 4
  const NLE_NOMEM := 5

  function Align(n: nat): (r: nat)
    ensures n <= r < n + 4 && r % 4 == 0
  {
    (n + 3) / 4 * 4
  }

  // ----- walking

  /** One attribute as found in a buffer: `off` and `len` delimit the payload. */
  datatype Attr = Attr(ty: nat, off: nat, len: nat)

  function NlaLen(b: seq<Byte>, pos: nat): nat { Read(b, pos, 2) }

  function NlaType(b: seq<Byte>, pos: nat): nat { Read(b, pos + 2, 2) }

  /** nla_ok */
  predicate Ok(b: seq<Byte>, pos: nat, rem: int) {
    rem >= NLA_HDRLEN && NLA_HDRLEN <= NlaLen(b, pos) <= rem
  }

  /** The attributes an iterator started at `pos` with `rem` bytes left will visit. */
  function Attrs(b: seq<Byte>, pos: nat, rem: int): seq<Attr>
    decreases if rem < 0 then 0 else rem
  {
    if !Ok(b, pos, rem) then []
    else
      var n := NlaLen(b, pos);
      [Attr(NlaType(b, pos), pos + NLA_HDRLEN, n - NLA_HDRLEN)] + Attrs(b, pos + Align(n), rem - Align(n))
  }

  /** The attributes inside `a`. */
  function Inside(b: seq<Byte>, a: Attr): seq<Attr> {
    Attrs(b, a.off, a.len)
  }

  /** Header and payload of every attribute lie between `lo` and `hi`. */
  ghost predicate WithinRange(s: seq<Attr>, lo: int, hi: int) {
    forall i :: 0 <= i < |s| ==> lo + NLA_HDRLEN <= s[i].off && s[i].off + s[i].len <= hi
  }

  /** Each attribute ends before the header of any later one. */
  ghost predicate InOrder(s: seq<Attr>) {
    forall i, j :: 0 <= i < j < |s| ==> s[i].off + s[i].len <= s[j].off - NLA_HDRLEN
  }

  /**
  On arbitrary bytes, also when padding runs past the end: the walk visits attributes that lie
  in the walked range, in order and without overlap.
   */
  lemma {:induction false} AttrsInBounds(b: seq<Byte>, pos: nat, rem: int)
    ensures WithinRange(Attrs(b, pos, rem), pos, pos + rem)
    ensures InOrder(Attrs(b, pos, rem))
    decreases if rem < 0 then 0 else rem
  {
    if Ok(b, pos, rem) {
      var n := NlaLen(b, pos);
      var s, tail := Attrs(b, pos, rem), Attrs(b, pos + Align(n), rem - Align(n));
      AttrsInBounds(b, pos + Align(n), rem - Align(n));
      var head := Attr(NlaType(b, pos), pos + NLA_HDRLEN, n - NLA_HDRLEN);
      assert s == [head] + tail;
    }
  }

  /** Nested walks stay inside the attribute they were started on. */
  lemma NestedInBounds(b: seq<Byte>, pos: nat, rem: int, a: Attr, c: Attr)
    requires a in Attrs(b, pos, rem) && c in Inside(b, a)
    ensures pos + NLA_HDRLEN <= a.off && a.off + NLA_HDRLEN <= c.off
    ensures c.off + c.len <= a.off + a.len <= pos + rem
  {
    AttrsInBounds(b, pos, rem);
    AttrsInBounds(b, a.off, a.len);
  }

  /** Nothing readable follows: no room for a header, or a length under 4 or beyond the end. */
  predicate NothingAt(b: seq<Byte>, pos: nat, rem: int) {
    rem < 4 || Read(b, pos, 2) < 4 || Read(b, pos, 2) > rem
  }

  /** Where the attribute behind `a` begins: the next multiple of four, counted from the payload. */
  function NextHeader(a: Attr): nat { a.off + (a.len + 3) / 4 * 4 }

  /** Length and type are those of the header in front of the payload. */
  predicate AsInHeader(b: seq<Byte>, a: Attr) {
    a.off >= 4 && a.len + 4 == Read(b, a.off - 4, 2) && a.ty == Read(b, a.off - 2, 2)
  }

  /** The attributes follow each other without a gap from `pos` to `end`. */
  ghost predicate Gapless(b: seq<Byte>, s: seq<Attr>, pos: nat, end: nat) {
    && (forall i :: 0 <= i < |s| ==> AsInHeader(b, s[i]))
    && (forall i, j :: 0 <= i && j == i + 1 && j < |s| ==> s[j].off == NextHeader(s[i]) + 4)
    && (if s == [] then end == pos else s[0].off == pos + 4 && end == NextHeader(s[|s| - 1]))
  }

  lemma GaplessCons(b: seq<Byte>, a: Attr, tail: seq<Attr>, pos: nat, end: nat)
    requires AsInHeader(b, a) && a.off == pos + 4 && Gapless(b, tail, NextHeader(a), end)
    ensures Gapless(b, [a] + tail, pos, end)
  {
    var s := [a] + tail;
    forall i, j | 0 <= i && j == i + 1 && j < |s| ensures s[j].off == NextHeader(s[i]) + 4 {
      assert s[j] == tail[i];
      if i > 0 {
        assert s[i] == tail[i - 1];
      }
    }
  }

  /**
  On arbitrary bytes the walk goes as far as it can: the attributes follow each other as their
  headers say, and behind the last one nothing readable follows.
   */
  lemma {:induction false} WalkIsMaximal(b: seq<Byte>, pos: nat, rem: int) returns (end: nat)
    ensures Gapless(b, Attrs(b, pos, rem), pos, end) && NothingAt(b, end, pos + rem - end)
    decreases if rem < 0 then 0 else rem
  {
    end := pos;
    if Ok(b, pos, rem) {
      var n := NlaLen(b, pos);
      var a := Attr(NlaType(b, pos), pos + NLA_HDRLEN, n - NLA_HDRLEN);
      end := WalkIsMaximal(b, pos + Align(n), rem - Align(n));
      WalkNext(b, pos, rem, a, Attrs(b, pos + Align(n), rem - Align(n)), end);
    }
  }

  lemma WalkNext(b: seq<Byte>, pos: nat, rem: int, a: Attr, tail: seq<Attr>, end: nat)
    requires Ok(b, pos, rem) && a == Attr(NlaType(b, pos), pos + NLA_HDRLEN, NlaLen(b, pos) - NLA_HDRLEN)
    requires tail == Attrs(b, pos + Align(NlaLen(b, pos)), rem - Align(NlaLen(b, pos)))
    requires Gapless(b, tail, pos + Align(NlaLen(b, pos)), end)
    ensures Gapless(b, Attrs(b, pos, rem), pos, end)
  {
    AlignedNext(a.len);
    HeaderThere(b, pos, a);
    GaplessCons(b, a, tail, pos, end);
    assert Attrs(b, pos, rem) == [a] + tail;
  }

  lemma HeaderThere(b: seq<Byte>, pos: nat, a: Attr)
    requires NlaLen(b, pos) >= 4 && a == Attr(NlaType(b, pos), pos + NLA_HDRLEN, NlaLen(b, pos) - NLA_HDRLEN)
    ensures AsInHeader(b, a)
  {
    assert a.off - 4 == pos && a.off - 2 == pos + 2;
  }

  lemma AlignedNext(n: nat)
    ensures Align(n + 4) == (n + 3) / 4 * 4 + 4
  {
  }

  class NlIterator {
    const buf: seq<Byte>
    var pos: nat
    var rem: int

    /** The attributes still to visit. */
    ghost function Left(): seq<Attr>
      reads this
    {
      Attrs(buf, pos, rem)
    }

    /** nl_iterator(attr), with the header of attr at `at`. */
    constructor (buf: seq<Byte>, at: nat)
      ensures this.buf == buf && Left() == Attrs(buf, at + NLA_HDRLEN, NlaLen(buf, at) - NLA_HDRLEN)
    {
      this.buf := buf;
      pos := at + NLA_HDRLEN;
      rem := NlaLen(buf, at) - NLA_HDRLEN;
    }

    method HasNext() returns (r: bool)
      ensures r == (Left() != [])
    {
      r := Ok(buf, pos, rem);
    }

    method Next()
      requires Left() != []
      modifies this
      ensures Left() == old(Left())[1..]
      ensures old(rem) >= rem + NLA_HDRLEN
    {
      var n := NlaLen(buf, pos);
      pos, rem := pos + Align(n), rem - Align(n);
    }

    /** get(), get_type(), get_data() and get_len() in one. */
    method Get() returns (a: Attr)
      requires Left() != []
      ensures a == Left()[0]
      ensures a.off >= NLA_HDRLEN && NlaLen(buf, a.off - NLA_HDRLEN) == a.len + NLA_HDRLEN
    {
      a := Attr(NlaType(buf, pos), pos + NLA_HDRLEN, NlaLen(buf, pos) - NLA_HDRLEN);
    }
  }

  // ----- the last attribute of a type

  /** Attribute `i` is the last one of type `ty` before position `j`. */
  predicate LastOf(s: seq<Attr>, j: nat, ty: nat, i: nat) {
    i < j <= |s| && s[i].ty == ty && forall k :: i < k < j ==> s[k].ty != ty
  }

  predicate NoneOf(s: seq<Attr>, j: nat, ty: nat) {
    j <= |s| && forall k :: 0 <= k < j ==> s[k].ty != ty
  }

  /** `at` are the positions of the attributes of type `ty`, in order. */
  ghost predicate PositionsOf(s: seq<Attr>, ty: nat, at: seq<nat>) {
    && (forall x, y :: 0 <= x < y < |at| ==> at[x] < at[y])
    && (forall j: nat :: j in at <==> j < |s| && s[j].ty == ty)
  }

  lemma PositionsNext(s: seq<Attr>, a: Attr, ty: nat, at: seq<nat>)
    requires PositionsOf(s, ty, at)
    ensures PositionsOf(s + [a], ty, if a.ty == ty then at + [|s|] else at)
    ensures forall x :: 0 <= x < |at| ==> at[x] < |s| && (s + [a])[at[x]] == s[at[x]]
  {
    forall x | 0 <= x < |at| ensures at[x] < |s| {
      assert at[x] in at;
    }
    forall j: nat ensures j in (if a.ty == ty then at + [|s|] else at) <==> j < |s + [a]| && (s + [a])[j].ty == ty {
      assert j in at <==> j < |s| && s[j].ty == ty;
    }
  }

  // ----- attributes and their bytes

  /** An attribute to send; the payload of a nest is the bytes of the attributes inside it. */
  datatype Item = Item(ty: nat, payload: seq<Byte>)

  function Header(len: nat, ty: nat): (r: seq<Byte>)
    ensures |r| == NLA_HDRLEN
  {
    LittleEndian(2, len) + LittleEndian(2, ty)
  }

  function Padding(n: nat): (r: seq<Byte>)
    ensures |r| == Align(n) - n
  {
    seq(Align(n) - n, _ => 0)
  }

  function Encode(x: Item): (r: seq<Byte>)
    ensures |r| == Align(NLA_HDRLEN + |x.payload|)
  {
    Header(NLA_HDRLEN + |x.payload|, x.ty) + x.payload + Padding(NLA_HDRLEN + |x.payload|)
  }

  /** Byte by byte: length and type least significant byte first, the payload, and zeros up to a multiple of four. */
  lemma EncodedBytes(x: Item, i: nat)
    requires i < |Encode(x)| && Fits(x)
    ensures |Encode(x)| == 4 + (|x.payload| + 3) / 4 * 4
    ensures Encode(x)[i] == if i == 0 then (4 + |x.payload|) % 256 else if i == 1 then (4 + |x.payload|) / 256
                            else if i == 2 then x.ty % 256 else if i == 3 then x.ty / 256
                            else if i < 4 + |x.payload| then x.payload[i - 4] else 0
  {
    HeaderBytes(NLA_HDRLEN + |x.payload|, x.ty);
  }

  lemma HeaderBytes(n: nat, ty: nat)
    requires n < 0x1_0000 && ty < 0x1_0000
    ensures Header(n, ty) == [n % 256, n / 256, ty % 256, ty / 256]
  {
    TwoBytes(n);
    TwoBytes(ty);
  }

  lemma TwoBytes(n: nat)
    requires n < 0x1_0000
    ensures LittleEndian(2, n) == [n % 256, n / 256]
  {
    assert LittleEndian(1, n / 256) == [n / 256 % 256] + LittleEndian(0, n / 256 / 256);
  }

  function EncodeAll(xs: seq<Item>): (r: seq<Byte>)
    ensures |r| % 4 == 0
  {
    if xs == [] then [] else Encode(xs[0]) + EncodeAll(xs[1..])
  }

  function Nest(ty: nat, xs: seq<Item>): Item {
    Item(ty, EncodeAll(xs))
  }

  function U32Item(ty: nat, v: int): (x: Item)
    ensures |Encode(x)| == 8
  {
    Item(ty, LittleEndian(4, U32(v)))
  }

  lemma {:induction false} EncodeAllAppend(xs: seq<Item>, x: Item)
    ensures EncodeAll(xs + [x]) == EncodeAll(xs) + Encode(x)
  {
    if xs == [] {
      assert EncodeAll([x]) == Encode(x) + EncodeAll([]);
    } else {
      EncodeAllAppend(xs[1..], x);
      assert (xs + [x])[1..] == xs[1..] + [x];
      ConcatAssoc(Encode(xs[0]), EncodeAll(xs[1..]), Encode(x));
    }
  }

  /** Types and lengths that the two-byte header fields can hold. */
  predicate Fits(x: Item) {
    x.ty < 0x1_0000 && NLA_HDRLEN + |x.payload| < 0x1_0000
  }

  /** The attribute found is the one sent: same type, and the same bytes at its payload. */
  predicate Carries(b: seq<Byte>, a: Attr, x: Item) {
    a.ty == x.ty && a.len == |x.payload| && At(b, a.off, x.payload)
  }

  predicate AllCarry(b: seq<Byte>, s: seq<Attr>, xs: seq<Item>) {
    |s| == |xs| && (s == [] || (Carries(b, s[0], xs[0]) && AllCarry(b, s[1..], xs[1..])))
  }

  lemma {:induction false} CarryAt(b: seq<Byte>, s: seq<Attr>, xs: seq<Item>, i: nat)
    requires AllCarry(b, s, xs) && i < |xs|
    ensures |s| == |xs| && Carries(b, s[i], xs[i])
  {
    if i > 0 {
      CarryAt(b, s[1..], xs[1..], i - 1);
    }
  }

  ghost predicate AllFit(xs: seq<Item>) {
    forall x :: x in xs ==> Fits(x)
  }

  /**
  Walking what was encoded visits the attributes one by one, with their types, and each
  payload is exactly the payload sent.
   */
  lemma {:induction false} WalkFindsItems(b: seq<Byte>, off: nat, rem: nat, xs: seq<Item>)
    requires At(b, off, EncodeAll(xs)) && AllFit(xs) && rem == |EncodeAll(xs)|
    ensures AllCarry(b, Attrs(b, off, rem), xs)
    decreases |xs|
  {
    if xs != [] {
      var x, rest := xs[0], xs[1..];
      var size := |Encode(x)|;
      AtConcat(b, off, Encode(x), EncodeAll(rest));
      assert Fits(x) && AllFit(rest);
      WalkFindsItems(b, off + size, rem - size, rest);
      var a, tail := WalkOne(b, off, rem, x);
      CarryCons(b, Attrs(b, off, rem), a, tail, xs);
    }
  }

  lemma CarryCons(b: seq<Byte>, s: seq<Attr>, a: Attr, tail: seq<Attr>, xs: seq<Item>)
    requires xs != [] && s == [a] + tail && Carries(b, a, xs[0]) && AllCarry(b, tail, xs[1..])
    ensures AllCarry(b, s, xs)
  {
    assert s[1..] == tail;
  }

  lemma WalkOne(b: seq<Byte>, off: nat, rem: nat, x: Item) returns (a: Attr, tail: seq<Attr>)
    requires At(b, off, Encode(x)) && Fits(x) && |Encode(x)| <= rem
    ensures tail == Attrs(b, off + |Encode(x)|, rem - |Encode(x)|)
    ensures Attrs(b, off, rem) == [a] + tail
    ensures Carries(b, a, x)
  {
    ReadHeader(b, off, x);
    a := Attr(x.ty, off + NLA_HDRLEN, |x.payload|);
    tail := Attrs(b, off + |Encode(x)|, rem - |Encode(x)|);
  }

  lemma ReadHeader(b: seq<Byte>, off: nat, x: Item)
    requires At(b, off, Encode(x)) && Fits(x)
    ensures NlaLen(b, off) == NLA_HDRLEN + |x.payload| && NlaType(b, off) == x.ty
    ensures At(b, off + NLA_HDRLEN, x.payload)
  {
    SmallPowers();
    var n := NLA_HDRLEN + |x.payload|;
    AtConcat(b, off, Header(n, x.ty) + x.payload, Padding(n));
    AtConcat(b, off, Header(n, x.ty), x.payload);
    AtConcat(b, off, LittleEndian(2, n), LittleEndian(2, x.ty));
    ReadBack(b, off, 2, n);
    ReadBack(b, off + 2, 2, x.ty);
  }

  /** The attributes inside a nest that was found are the attributes put into it. */
  lemma WalkFindsNested(b: seq<Byte>, a: Attr, ty: nat, xs: seq<Item>)
    requires Carries(b, a, Nest(ty, xs)) && AllFit(xs)
    ensures AllCarry(b, Inside(b, a), xs)
  {
    WalkFindsItems(b, a.off, a.len, xs);
  }

  /** Walking the payload of a nest by its own header, as an iterator started on it does. */
  lemma WalkOfNest(ty: nat, xs: seq<Item>)
    requires ty < 0x1_0000 && NLA_HDRLEN + |EncodeAll(xs)| < 0x1_0000 && AllFit(xs)
    ensures var b := Encode(Nest(ty, xs));
            AllCarry(b, Attrs(b, NLA_HDRLEN, NlaLen(b, 0) - NLA_HDRLEN), xs)
  {
    var b := Encode(Nest(ty, xs));
    AtIsSlice(b, 0, b);
    ReadHeader(b, 0, Nest(ty, xs));
    WalkFindsItems(b, NLA_HDRLEN, |EncodeAll(xs)|, xs);
  }

  /** The number put in is the number read. */
  lemma ReadsU32(b: seq<Byte>, a: Attr, ty: nat, v: int)
    requires Carries(b, a, U32Item(ty, v))
    ensures a.len == 4 && Read(b, a.off, 4) == U32(v)
  {
    SmallPowers();
    ReadBack(b, a.off, 4, U32(v));
  }

  lemma {:induction false} ItemWithin(xs: seq<Item>, x: Item)
    requires x in xs
    ensures NLA_HDRLEN + |x.payload| <= |EncodeAll(xs)|
  {
    if xs[0] != x {
      ItemWithin(xs[1..], x);
    }
  }

  /** Every item fits its header when the whole does and its type does. */
  lemma AllFitWithin(xs: seq<Item>)
    requires |EncodeAll(xs)| < 0x1_0000 && forall x :: x in xs ==> x.ty < 0x1_0000
    ensures AllFit(xs)
  {
    forall x | x in xs ensures Fits(x) {
      ItemWithin(xs, x);
    }
  }

  // ----- building

  /** The header nla_nest_start leaves: the length is not known yet. */
  function OpenHeader(ty: nat): (r: seq<Byte>)
    ensures |r| == NLA_HDRLEN
  {
    Header(NLA_HDRLEN, ty)
  }

  class WifiRequest {
    const capacity: nat
    var msg: seq<Byte>

    ghost predicate Valid()
      reads this
    {
      |msg| <= capacity
    }

    /** nlmsg_alloc: room for `capacity` bytes of attributes. */
    constructor (capacity: nat)
      ensures Valid() && this.capacity == capacity && msg == []
    {
      this.capacity := capacity;
      msg := [];
    }

    /** put: nla_put, which writes nothing when the padded attribute does not fit. */
    method Put(ty: nat, data: seq<Byte>) returns (result: int)
      requires Valid()
      modifies this
      ensures Valid()
      ensures result == if |old(msg)| + |Encode(Item(ty, data))| <= capacity then 0 else -NLE_NOMEM
      ensures msg == if result == 0 then old(msg) + Encode(Item(ty, data)) else old(msg)
    {
      var n := NLA_HDRLEN + |data|;
      if |msg| + Align(n) > capacity {
        return -NLE_NOMEM;
      }
      msg := msg + (Header(n, ty) + data + Padding(n));
      return 0;
    }

    method PutU32(ty: nat, v: int) returns (result: int)
      requires Valid()
      modifies this
      ensures Valid()
      ensures result == if |old(msg)| + 8 <= capacity then 0 else -NLE_NOMEM
      ensures msg == if result == 0 then old(msg) + Encode(U32Item(ty, v)) else old(msg)
    {
      result := Put(ty, LittleEndian(4, U32(v)));
    }

    /** attr_start: the position of the new header, or nothing (NULL) without room for it. */
    method AttrStart(ty: nat) returns (ok: bool, start: nat)
      requires Valid()
      modifies this
      ensures Valid()
      ensures ok == (|old(msg)| + NLA_HDRLEN <= capacity) && start == |old(msg)|
      ensures msg == if ok then old(msg) + OpenHeader(ty) else old(msg)
    {
      start := |msg|;
      ok := |msg| + NLA_HDRLEN <= capacity;
      if ok {
        msg := msg + OpenHeader(ty);
      }
    }

    /**
    attr_end: the header at `start` is told how far the nest reaches, which makes one attribute
    of the open header and the attributes `xs` behind it.
     */
    method AttrEnd(start: nat, ghost base: seq<Byte>, ghost ty: nat, ghost xs: seq<Item>)
      requires Valid() && start == |base| && msg == base + OpenHeader(ty) + EncodeAll(xs)
      modifies this
      ensures Valid() && msg == base + Encode(Nest(ty, xs))
    {
      CloseNest(base, ty, xs);
      msg := msg[..start] + LittleEndian(2, |msg| - start) + msg[start + 2..];
    }
  }

  /** The length patched into an open header covers exactly the attributes behind it. */
  lemma CloseNest(base: seq<Byte>, ty: nat, xs: seq<Item>)
    ensures var msg := base + OpenHeader(ty) + EncodeAll(xs);
            msg[..|base|] + LittleEndian(2, |msg| - |base|) + msg[|base| + 2..] == base + Encode(Nest(ty, xs))
  {
    NestBytes(ty, xs);
    PatchLength(base, NLA_HDRLEN, ty, EncodeAll(xs), NLA_HDRLEN + |EncodeAll(xs)|);
  }

  lemma NoPadding(n: nat)
    requires n % 4 == 0
    ensures Align(n) == n && Padding(n) == []
  {
  }

  /** A nest is its header and the attributes inside; it needs no padding. */
  lemma NestBytes(ty: nat, xs: seq<Item>)
    ensures Encode(Nest(ty, xs)) == Header(NLA_HDRLEN + |EncodeAll(xs)|, ty) + EncodeAll(xs)
  {
    var body := EncodeAll(xs);
    var n := NLA_HDRLEN + |body|;
    assert n % 4 == 0;
    NoPadding(n);
    assert Encode(Item(ty, body)) == Header(n, ty) + body + [];
  }

  lemma PatchLength(base: seq<Byte>, oldLen: nat, ty: nat, body: seq<Byte>, newLen: nat)
    ensures var msg := base + Header(oldLen, ty) + body;
            && |msg| == |base| + NLA_HDRLEN + |body|
            && msg[..|base|] + LittleEndian(2, newLen) + msg[|base| + 2..] == base + (Header(newLen, ty) + body)
  {
    var msg := base + Header(oldLen, ty) + body;
    assert msg[..|base|] == base;
    assert msg[|base| + 2..] == LittleEndian(2, ty) + body;
  }
}

/**
Patching an ELF image at virtual addresses (tools/patch_librilmtk_proxy_channel.py and
tools/patch_audio_dc_calibration.py): the address is translated through the program headers
(chapter 5 of the System V gABI) and bytes of the file are overwritten.
 */
module ElfPatch {
  import opened Options
  import opened Bytes
  import opened Overwrite

  // ----- program headers

  /** Where a class of ELF files keeps the fields the scripts read; `headLen` covers all of them. */
  datatype Layout = Layout(classByte: Byte, word: nat, phoffAt: nat, entSizeAt: nat, countAt: nat, headLen: nat,
                           entryLen: nat, offsetAt: nat, vaddrAt: nat, fileSizeAt: nat)

  const ELF64 := Layout(2, 8, 0x20, 0x36, 0x38, 0x3A, 56, 8, 16, 32)
  const ELF32 := Layout(1, 4, 0x1C, 0x2A, 0x2C, 0x2E, 32, 4, 8, 16)

  /** Every field lies in the header or in the entry it belongs to. */
  predicate Sound(f: Layout) {
    && f.headLen >= 6 && f.countAt + 2 <= f.headLen && f.phoffAt + f.word <= f.headLen && f.entSizeAt + 2 <= f.headLen
    && f.entryLen >= 4 && f.offsetAt + f.word <= f.entryLen && f.vaddrAt + f.word <= f.entryLen
    && f.fileSizeAt + f.word <= f.entryLen
  }

  const PT_LOAD := 1

  datatype Segment = Segment(kind: nat, offset: nat, vaddr: nat, fileSize: nat)

  /** The magic number, the class and little-endian data, with every field the scripts read inside the file. */
  predicate HeaderOk(f: Layout, d: seq<Byte>) {
    |d| >= f.headLen && Read(d, 0, 4) == 0x464C_457F && ByteAt(d, 4) == f.classByte && ByteAt(d, 5) == 1
  }

  function Count(f: Layout, d: seq<Byte>): nat { Read(d, f.countAt, 2) }

  /** The file position of program header `i`. */
  function EntryAt(f: Layout, d: seq<Byte>, i: nat): nat {
    Read(d, f.phoffAt, f.word) + Times(i, Read(d, f.entSizeAt, 2))
  }

  function SegmentAt(f: Layout, d: seq<Byte>, e: nat): Segment {
    Segment(Read(d, e, 4), Read(d, e + f.offsetAt, f.word), Read(d, e + f.vaddrAt, f.word),
            Read(d, e + f.fileSizeAt, f.word))
  }

  function Seg(f: Layout, d: seq<Byte>, i: nat): Segment { SegmentAt(f, d, EntryAt(f, d, i)) }

  predicate Covers(g: Segment, va: nat) {
    g.kind == PT_LOAD && g.vaddr <= va < g.vaddr + g.fileSize
  }

  /** virtual_to_file_offset from header `i` on; None is the script giving up. */
  function Search(f: Layout, d: seq<Byte>, va: nat, i: nat): Option<nat>
    decreases Count(f, d) - i
  {
    if i >= Count(f, d) then None
    else if EntryAt(f, d, i) + f.entryLen > |d| then None
    else if Covers(Seg(f, d, i), va) then Some(Seg(f, d, i).offset + va - Seg(f, d, i).vaddr)
    else Search(f, d, va, i + 1)
  }

  function Translate(f: Layout, d: seq<Byte>, va: nat): Option<nat> {
    if HeaderOk(f, d) then Search(f, d, va, 0) else None
  }

  // ----- loading, said about the segments alone

  /** LOAD segment `k` brings a byte of the file to `va`. */
  predicate Maps(f: Layout, d: seq<Byte>, k: nat, va: nat) {
    k < Count(f, d) && Covers(Seg(f, d, k), va) && MappedFrom(f, d, k, va) < |d|
  }

  function MappedFrom(f: Layout, d: seq<Byte>, k: nat, va: nat): nat
    requires Covers(Seg(f, d, k), va)
  {
    Seg(f, d, k).offset + (va - Seg(f, d, k).vaddr)
  }

  /** What a loader puts at `va`: the byte that some LOAD segment brings there. */
  ghost function Load(f: Layout, d: seq<Byte>, va: nat): Option<Byte> {
    if k: nat :| Maps(f, d, k, va) then Some(d[MappedFrom(f, d, k, va)]) else None
  }

  // ----- the scripts' loop

  /** phoff + index * entsize */
  method EntryOffset(f: Layout, d: seq<Byte>, index: nat) returns (e: nat)
    ensures e == EntryAt(f, d, index)
  {
    var phoff, entSize := Read(d, f.phoffAt, f.word), Read(d, f.entSizeAt, 2);
    TimesIsProduct(index, entSize);
    e := phoff + index * entSize;
  }

  method VirtualToFileOffset(f: Layout, d: seq<Byte>, address: nat) returns (r: Option<nat>)
    ensures r == Translate(f, d, address)
  {
    if !HeaderOk(f, d) {
      return None;
    }
    var index := 0;
    while index < Count(f, d)
      invariant Translate(f, d, address) == Search(f, d, address, index)
    {
      var e := EntryOffset(f, d, index);
      if e + f.entryLen > |d| {
        return None;
      }
      var g := SegmentAt(f, d, e);
      if Covers(g, address) {
        return Some(g.offset + address - g.vaddr);
      }
      index := index + 1;
    }
    return None;
  }

  // ----- images whose segments do not overlap

  /** Program header `i` and the bytes of the segment it describes lie in the file. */
  predicate InFile(f: Layout, d: seq<Byte>, i: nat) {
    && EntryAt(f, d, i) + f.entryLen <= |d|
    && (Seg(f, d, i).kind == PT_LOAD ==> Seg(f, d, i).offset + Seg(f, d, i).fileSize <= |d|)
  }

  predicate SegmentsApart(g: Segment, h: Segment) {
    g.kind == PT_LOAD && h.kind == PT_LOAD ==>
      Apart(g.vaddr, g.fileSize, h.vaddr, h.fileSize) && Apart(g.offset, g.fileSize, h.offset, h.fileSize)
  }

  predicate EntriesApart(f: Layout, d: seq<Byte>, i: nat, j: nat) { SegmentsApart(Seg(f, d, i), Seg(f, d, j)) }

  predicate AllInFile(f: Layout, d: seq<Byte>) {
    forall i :: 0 <= i < Count(f, d) ==> InFile(f, d, i)
  }

  predicate AllApart(f: Layout, d: seq<Byte>) {
    forall i, j :: 0 <= i < Count(f, d) && 0 <= j < Count(f, d) && i != j ==> EntriesApart(f, d, i, j)
  }

  /** A file a loader accepts: the LOAD segments have disjoint virtual ranges and disjoint file ranges. */
  predicate Image(f: Layout, d: seq<Byte>) {
    HeaderOk(f, d) && AllInFile(f, d) && AllApart(f, d)
  }

  lemma {:induction false} SearchFinds(f: Layout, d: seq<Byte>, va: nat, i: nat) returns (k: nat)
    requires Search(f, d, va, i).Some?
    ensures i <= k < Count(f, d) && Covers(Seg(f, d, k), va)
    ensures Search(f, d, va, i) == Some(Seg(f, d, k).offset + va - Seg(f, d, k).vaddr)
    decreases Count(f, d) - i
  {
    if Covers(Seg(f, d, i), va) {
      k := i;
    } else {
      k := SearchFinds(f, d, va, i + 1);
    }
  }

  lemma {:induction false} SearchSucceeds(f: Layout, d: seq<Byte>, va: nat, i: nat, k: nat)
    requires AllInFile(f, d) && i <= k < Count(f, d) && Covers(Seg(f, d, k), va)
    ensures Search(f, d, va, i).Some?
    decreases k - i
  {
    assert InFile(f, d, i);
    if !Covers(Seg(f, d, i), va) {
      SearchSucceeds(f, d, va, i + 1, k);
    }
  }

  /** The first six bytes: magic number, class, and little-endian data. */
  predicate Identified(f: Layout, d: seq<Byte>) {
    |d| >= f.headLen >= 6 && d[..6] == [0x7F, 0x45, 0x4C, 0x46, f.classByte, 1]
  }

  lemma IdentifiedIs(f: Layout, d: seq<Byte>)
    requires f.headLen >= 6
    ensures Identified(f, d) <==> HeaderOk(f, d)
  {
    if |d| >= f.headLen {
      FourBytes(d);
      assert d[..6] == [d[0], d[1], d[2], d[3], d[4], d[5]];
    }
  }

  /** Four bytes, the least significant first. */
  function Weighed(a: int, b: int, c: int, e: int): int { a + 256 * (b + 256 * (c + 256 * e)) }

  lemma FourBytes(d: seq<Byte>)
    requires |d| >= 6
    ensures Read(d, 0, 4) == Weighed(d[0], d[1], d[2], d[3])
  {
    assert Read(d, 3, 1) == d[3] + 256 * Read(d, 4, 0);
    assert Read(d, 2, 2) == d[2] + 256 * Read(d, 3, 1);
    assert Read(d, 1, 3) == d[1] + 256 * Read(d, 2, 2);
  }

  /** Program header `k` is the first whose LOAD segment holds `va`, and all headers up to it are in the file. */
  predicate FirstHolder(f: Layout, d: seq<Byte>, va: nat, k: nat) {
    && k < Count(f, d) && (forall i :: 0 <= i <= k ==> EntryAt(f, d, i) + f.entryLen <= |d|)
    && Holds(Seg(f, d, k), va) && forall i :: 0 <= i < k ==> !Holds(Seg(f, d, i), va)
  }

  predicate Holds(g: Segment, va: nat) { g.kind == 1 && g.vaddr <= va && va < g.vaddr + g.fileSize }

  /** `r` is the offset that the first holder of `va` gives, or none without one. */
  ghost predicate FoundBy(f: Layout, d: seq<Byte>, va: nat, r: Option<nat>) {
    || (r.None? && forall k: nat :: !FirstHolder(f, d, va, k))
    || exists k: nat :: FirstHolder(f, d, va, k) && r == Some(Seg(f, d, k).offset + va - Seg(f, d, k).vaddr)
  }

  /** Header `j` is in the file and its segment does not hold `va`. */
  predicate Passed(f: Layout, d: seq<Byte>, va: nat, j: nat) {
    EntryAt(f, d, j) + f.entryLen <= |d| && !Holds(Seg(f, d, j), va)
  }

  lemma {:induction false} SearchIsFirst(f: Layout, d: seq<Byte>, va: nat, i: nat)
    requires forall j :: 0 <= j < i ==> Passed(f, d, va, j)
    ensures FoundBy(f, d, va, Search(f, d, va, i))
    decreases Count(f, d) - i
  {
    if i < Count(f, d) && EntryAt(f, d, i) + f.entryLen <= |d| {
      if Holds(Seg(f, d, i), va) {
        IsFirstHolder(f, d, va, i);
      } else {
        assert Passed(f, d, va, i);
        SearchIsFirst(f, d, va, i + 1);
      }
    } else {
      NoHolder(f, d, va, i);
    }
  }

  lemma IsFirstHolder(f: Layout, d: seq<Byte>, va: nat, i: nat)
    requires forall j :: 0 <= j < i ==> Passed(f, d, va, j)
    requires i < Count(f, d) && EntryAt(f, d, i) + f.entryLen <= |d| && Holds(Seg(f, d, i), va)
    ensures FirstHolder(f, d, va, i)
  {
    forall j | 0 <= j < i ensures EntryAt(f, d, j) + f.entryLen <= |d| && !Holds(Seg(f, d, j), va) {
      assert Passed(f, d, va, j);
    }
  }

  lemma NoHolder(f: Layout, d: seq<Byte>, va: nat, i: nat)
    requires forall j :: 0 <= j < i ==> Passed(f, d, va, j)
    requires i >= Count(f, d) || EntryAt(f, d, i) + f.entryLen > |d|
    ensures forall k: nat :: !FirstHolder(f, d, va, k)
  {
    forall k: nat ensures !FirstHolder(f, d, va, k) {
      if k < i {
        assert Passed(f, d, va, k);
      }
    }
  }

  /** On any file: the address translates by the first header whose segment holds it, or not at all. */
  lemma TranslateIsFirst(f: Layout, d: seq<Byte>, va: nat)
    requires f.headLen >= 6
    ensures Identified(f, d) ==> FoundBy(f, d, va, Translate(f, d, va))
    ensures !Identified(f, d) ==> Translate(f, d, va).None?
  {
    IdentifiedIs(f, d);
    if HeaderOk(f, d) {
      SearchIsFirst(f, d, va, 0);
    }
  }

  lemma OneCovers(f: Layout, d: seq<Byte>, va: nat, m: nat, k: nat)
    requires AllApart(f, d) && m < Count(f, d) && k < Count(f, d)
    requires Covers(Seg(f, d, m), va) && Covers(Seg(f, d, k), va)
    ensures m == k
  {
    assert m == k || EntriesApart(f, d, m, k);
  }

  /** The translation is the one the covering segment gives, whichever it is. */
  lemma TranslateIsTheSegment(f: Layout, d: seq<Byte>, va: nat, k: nat)
    requires Image(f, d) && k < Count(f, d) && Covers(Seg(f, d, k), va)
    ensures Translate(f, d, va) == Some(Seg(f, d, k).offset + va - Seg(f, d, k).vaddr)
  {
    SearchSucceeds(f, d, va, 0, k);
    var m := SearchFinds(f, d, va, 0);
    OneCovers(f, d, va, m, k);
  }

  /** Loading is reading the file where the scripts' translation says. */
  lemma LoadIsTranslate(f: Layout, d: seq<Byte>, va: nat)
    requires Image(f, d)
    ensures Translate(f, d, va).Some? ==> Translate(f, d, va).value < |d|
    ensures Load(f, d, va) == if Translate(f, d, va).Some? then Some(d[Translate(f, d, va).value]) else None
  {
    if Translate(f, d, va).Some? {
      var _ := TranslateMaps(f, d, va);
    }
    forall m: nat | Maps(f, d, m, va) ensures Translate(f, d, va) == Some(MappedFrom(f, d, m, va)) {
      TranslateIsTheSegment(f, d, va, m);
    }
  }

  lemma TranslateMaps(f: Layout, d: seq<Byte>, va: nat) returns (m: nat)
    requires AllInFile(f, d) && Translate(f, d, va).Some?
    ensures Maps(f, d, m, va) && Translate(f, d, va) == Some(MappedFrom(f, d, m, va))
  {
    m := SearchFinds(f, d, va, 0);
    assert InFile(f, d, m);
  }

  // ----- overwriting

  /** Neither the ELF header nor any program header lies in the overwritten range. */
  predicate AwayFromHeaders(f: Layout, d: seq<Byte>, o: nat, n: nat) {
    f.headLen <= o && forall i :: 0 <= i < Count(f, d) ==> Apart(EntryAt(f, d, i), f.entryLen, o, n)
  }

  lemma FieldSame(d: seq<Byte>, o: nat, p: seq<Byte>, e: nat, len: nat, at: nat, n: nat)
    requires o <= |d| && Apart(e, len, o, |p|) && at + n <= len
    ensures Read(Splice(d, o, p), e + at, n) == Read(d, e + at, n)
  {
    ReadsSame(d, o, p, e + at, n);
  }

  lemma SegmentSame(f: Layout, d: seq<Byte>, o: nat, p: seq<Byte>, e: nat)
    requires Sound(f) && o <= |d| && Apart(e, f.entryLen, o, |p|)
    ensures SegmentAt(f, Splice(d, o, p), e) == SegmentAt(f, d, e)
  {
    FieldSame(d, o, p, e, f.entryLen, 0, 4);
    FieldSame(d, o, p, e, f.entryLen, f.offsetAt, f.word);
    FieldSame(d, o, p, e, f.entryLen, f.vaddrAt, f.word);
    FieldSame(d, o, p, e, f.entryLen, f.fileSizeAt, f.word);
  }

  lemma HeaderSame(f: Layout, d: seq<Byte>, o: nat, p: seq<Byte>)
    requires Sound(f) && f.headLen <= o <= |d|
    ensures HeaderOk(f, Splice(d, o, p)) == HeaderOk(f, d) && Count(f, Splice(d, o, p)) == Count(f, d)
    ensures forall i: nat :: EntryAt(f, Splice(d, o, p), i) == EntryAt(f, d, i)
  {
    ReadsSame(d, o, p, f.countAt, 2);
    ReadsSame(d, o, p, f.phoffAt, f.word);
    ReadsSame(d, o, p, f.entSizeAt, 2);
    ReadsSame(d, o, p, 0, 4);
    SpliceAt(d, o, p, 4);
    SpliceAt(d, o, p, 5);
  }

  /** Program header `i` stands where it did and says what it did. */
  predicate SameEntry(f: Layout, d: seq<Byte>, c: seq<Byte>, i: nat) {
    EntryAt(f, c, i) == EntryAt(f, d, i) && Seg(f, c, i) == Seg(f, d, i)
  }

  /** `c` has the headers of `d` and is not shorter. */
  ghost predicate SameHeaders(f: Layout, d: seq<Byte>, c: seq<Byte>) {
    && |c| >= |d| && HeaderOk(f, c) == HeaderOk(f, d) && Count(f, c) == Count(f, d)
    && forall i :: 0 <= i < Count(f, d) ==> SameEntry(f, d, c, i)
  }

  lemma EntrySame(f: Layout, d: seq<Byte>, o: nat, p: seq<Byte>, i: nat)
    requires Sound(f) && f.headLen <= o <= |d| && Apart(EntryAt(f, d, i), f.entryLen, o, |p|)
    ensures SameEntry(f, d, Splice(d, o, p), i)
  {
    HeaderSame(f, d, o, p);
    SegmentSame(f, d, o, p, EntryAt(f, d, i));
  }

  /** An overwrite away from the headers keeps them, also when it makes the file longer. */
  lemma HeadersSame(f: Layout, d: seq<Byte>, o: nat, p: seq<Byte>)
    requires Sound(f) && o <= |d| && AwayFromHeaders(f, d, o, |p|)
    ensures SameHeaders(f, d, Splice(d, o, p))
  {
    HeaderSame(f, d, o, p);
    forall i | 0 <= i < Count(f, d) ensures SameEntry(f, d, Splice(d, o, p), i) {
      EntrySame(f, d, o, p, i);
    }
  }

  lemma SameHeadersTrans(f: Layout, d: seq<Byte>, c: seq<Byte>, b: seq<Byte>)
    requires SameHeaders(f, d, c) && SameHeaders(f, c, b)
    ensures SameHeaders(f, d, b)
  {
    forall i | 0 <= i < Count(f, d) ensures SameEntry(f, d, b, i) {
      assert SameEntry(f, d, c, i) && SameEntry(f, c, b, i);
    }
  }

  /** What is away from the headers stays so. */
  lemma AwaySame(f: Layout, d: seq<Byte>, c: seq<Byte>, o: nat, n: nat)
    requires SameHeaders(f, d, c) && AwayFromHeaders(f, d, o, n)
    ensures AwayFromHeaders(f, c, o, n)
  {
    forall i | 0 <= i < Count(f, c) ensures Apart(EntryAt(f, c, i), f.entryLen, o, n) {
      assert SameEntry(f, d, c, i);
    }
  }

  lemma {:induction false} SearchSame(f: Layout, d: seq<Byte>, c: seq<Byte>, va: nat, i: nat)
    requires SameHeaders(f, d, c) && (|c| == |d| || Search(f, d, va, i).Some?)
    ensures Search(f, c, va, i) == Search(f, d, va, i)
    decreases Count(f, d) - i
  {
    if i < Count(f, d) {
      assert SameEntry(f, d, c, i);
      if EntryAt(f, d, i) + f.entryLen <= |d| && !Covers(Seg(f, d, i), va) {
        SearchSame(f, d, c, va, i + 1);
      }
    }
  }

  /** Headers decide where an address is found, and with the size also whether it is. */
  lemma HeadersDecide(f: Layout, d: seq<Byte>, c: seq<Byte>, va: nat)
    requires SameHeaders(f, d, c) && (|c| == |d| || Translate(f, d, va).Some?)
    ensures Translate(f, c, va) == Translate(f, d, va)
  {
    if HeaderOk(f, d) {
      SearchSame(f, d, c, va, 0);
    }
  }

  /** Headers decide whether the segments are apart. */
  lemma ImageSame(f: Layout, d: seq<Byte>, c: seq<Byte>)
    requires SameHeaders(f, d, c) && Image(f, d)
    ensures Image(f, c)
  {
    forall i | 0 <= i < Count(f, c) ensures InFile(f, c, i) {
      assert SameEntry(f, d, c, i) && InFile(f, d, i);
    }
    forall i, j | 0 <= i < Count(f, c) && 0 <= j < Count(f, c) && i != j ensures EntriesApart(f, c, i, j) {
      assert SameEntry(f, d, c, i) && SameEntry(f, d, c, j) && EntriesApart(f, d, i, j);
    }
  }

  // ----- patching at virtual addresses

  /** `bytes` to be put at virtual address `va`. */
  datatype Site = Site(va: nat, bytes: seq<Byte>)

  predicate Within(s: Site, va: nat) { s.va <= va < s.va + |s.bytes| }

  predicate InSegment(f: Layout, d: seq<Byte>, s: Site, k: nat) {
    && k < Count(f, d) && Seg(f, d, k).kind == PT_LOAD
    && Seg(f, d, k).vaddr <= s.va && s.va + |s.bytes| <= Seg(f, d, k).vaddr + Seg(f, d, k).fileSize
    && AwayFromHeaders(f, d, Seg(f, d, k).offset + s.va - Seg(f, d, k).vaddr, |s.bytes|)
  }

  /** The patch lies in one LOAD segment and away from the headers. */
  ghost predicate Fits(f: Layout, d: seq<Byte>, s: Site) {
    s.bytes != [] && exists k: nat :: InSegment(f, d, s, k)
  }

  function PatchAt(f: Layout, d: seq<Byte>, s: Site): seq<Byte> {
    match Translate(f, d, s.va)
    case Some(o) => Splice(d, o, s.bytes)
    case None => d
  }

  /** What is in memory at `va` once `s` is written there, given what was there before. */
  function Overlay(before: Option<Byte>, s: Site, va: nat): Option<Byte> {
    if Within(s, va) then Some(s.bytes[va - s.va]) else before
  }

  /** An address of the site, by the segment that holds it. */
  lemma SiteInSegment(f: Layout, d: seq<Byte>, s: Site, k: nat, va: nat)
    requires Image(f, d) && InSegment(f, d, s, k) && Within(s, va)
    ensures Covers(Seg(f, d, k), va)
    ensures Translate(f, d, va) == Some(Seg(f, d, k).offset + va - Seg(f, d, k).vaddr)
  {
    assert Covers(Seg(f, d, k), va);
    TranslateIsTheSegment(f, d, va, k);
  }

  /** Where a site goes: a range inside the file. */
  lemma SiteOffset(f: Layout, d: seq<Byte>, s: Site) returns (o: nat)
    requires Image(f, d) && Fits(f, d, s)
    ensures Translate(f, d, s.va) == Some(o) && o + |s.bytes| <= |d| && AwayFromHeaders(f, d, o, |s.bytes|)
  {
    var k: nat :| InSegment(f, d, s, k);
    assert InFile(f, d, k);
    SiteInSegment(f, d, s, k, s.va);
    o := Translate(f, d, s.va).value;
  }

  /** Its addresses translate to consecutive offsets. */
  lemma SiteAddress(f: Layout, d: seq<Byte>, s: Site, va: nat)
    requires Image(f, d) && Fits(f, d, s) && Within(s, va)
    ensures Translate(f, d, s.va).Some? && Translate(f, d, va) == Some(Translate(f, d, s.va).value + va - s.va)
  {
    var k: nat :| InSegment(f, d, s, k);
    SegmentAddress(f, d, s, k, va);
  }

  lemma SegmentAddress(f: Layout, d: seq<Byte>, s: Site, k: nat, va: nat)
    requires Image(f, d) && InSegment(f, d, s, k) && Within(s, va)
    ensures Translate(f, d, s.va).Some? && Translate(f, d, va) == Some(Translate(f, d, s.va).value + va - s.va)
  {
    SiteInSegment(f, d, s, k, s.va);
    SiteInSegment(f, d, s, k, va);
  }

  /** No byte of the file is loaded at two addresses. */
  lemma TranslateInjective(f: Layout, d: seq<Byte>, va: nat, vb: nat)
    requires Image(f, d) && Translate(f, d, va).Some? && Translate(f, d, va) == Translate(f, d, vb)
    ensures va == vb
  {
    var i := SearchFinds(f, d, va, 0);
    var j := SearchFinds(f, d, vb, 0);
    assert i == j || EntriesApart(f, d, i, j);
  }

  /** Only the addresses of the site load bytes of the range it overwrites. */
  lemma OnlyItsAddresses(f: Layout, d: seq<Byte>, s: Site, va: nat, o: nat)
    requires Image(f, d) && Fits(f, d, s) && Translate(f, d, s.va) == Some(o)
    requires Translate(f, d, va).Some? && o <= Translate(f, d, va).value < o + |s.bytes|
    ensures Within(s, va)
  {
    var vb := s.va + Translate(f, d, va).value - o;
    SiteAddress(f, d, s, vb);
    TranslateInjective(f, d, va, vb);
  }

  lemma PatchKeepsHeaders(f: Layout, d: seq<Byte>, s: Site, va: nat)
    requires Sound(f) && Image(f, d) && Fits(f, d, s)
    ensures SameHeaders(f, d, PatchAt(f, d, s)) && |PatchAt(f, d, s)| == |d| && Image(f, PatchAt(f, d, s))
    ensures Translate(f, PatchAt(f, d, s), va) == Translate(f, d, va)
  {
    var o := SiteOffset(f, d, s);
    HeadersSame(f, d, o, s.bytes);
    SpliceAt(d, o, s.bytes, 0);
    HeadersDecide(f, d, PatchAt(f, d, s), va);
    ImageSame(f, d, PatchAt(f, d, s));
  }

  /** The byte of the patched file at the offset `va` is loaded from; an address without one is not patched. */
  lemma PatchedByte(f: Layout, d: seq<Byte>, s: Site, va: nat)
    requires Image(f, d) && Fits(f, d, s)
    ensures Translate(f, d, va).None? ==> !Within(s, va)
    ensures Translate(f, d, va).Some? ==>
              var x := Translate(f, d, va).value;
              ByteAt(PatchAt(f, d, s), x) == if Within(s, va) then s.bytes[va - s.va] else ByteAt(d, x)
  {
    var o := SiteOffset(f, d, s);
    if Within(s, va) {
      SiteAddress(f, d, s, va);
    }
    if Translate(f, d, va).Some? {
      var x := Translate(f, d, va).value;
      SpliceAt(d, o, s.bytes, x);
      if o <= x < o + |s.bytes| {
        OnlyItsAddresses(f, d, s, va, o);
      }
    }
  }

  /**
   * Patching commutes with loading: the patched file loads as the old one with exactly the
   * site's addresses overwritten, and all translations are as before.
   */
  lemma PatchCommutesWithLoading(f: Layout, d: seq<Byte>, s: Site, va: nat)
    requires Sound(f) && Image(f, d) && Fits(f, d, s)
    ensures Translate(f, PatchAt(f, d, s), va) == Translate(f, d, va)
    ensures Load(f, PatchAt(f, d, s), va) == Overlay(Load(f, d, va), s, va)
  {
    PatchKeepsHeaders(f, d, s, va);
    LoadIsTranslate(f, d, va);
    LoadIsTranslate(f, PatchAt(f, d, s), va);
    PatchedByte(f, d, s, va);
  }

  lemma FitsSame(f: Layout, d: seq<Byte>, c: seq<Byte>, s: Site)
    requires SameHeaders(f, d, c) && Fits(f, d, s)
    ensures Fits(f, c, s)
  {
    var k: nat :| InSegment(f, d, s, k);
    assert SameEntry(f, d, c, k);
    AwaySame(f, d, c, Seg(f, d, k).offset + s.va - Seg(f, d, k).vaddr, |s.bytes|);
    assert InSegment(f, c, s, k);
  }

  /** Several sites, one after the other. */
  function PatchAll(f: Layout, d: seq<Byte>, sites: seq<Site>): seq<Byte>
    decreases |sites|
  {
    if sites == [] then d else PatchAll(f, PatchAt(f, d, sites[0]), sites[1..])
  }

  function OverlayAll(before: Option<Byte>, sites: seq<Site>, va: nat): Option<Byte>
    decreases |sites|
  {
    if sites == [] then before else OverlayAll(Overlay(before, sites[0], va), sites[1..], va)
  }

  lemma {:induction false} PatchAllCommutesWithLoading(f: Layout, d: seq<Byte>, sites: seq<Site>, va: nat)
    requires Sound(f) && Image(f, d) && forall i :: 0 <= i < |sites| ==> Fits(f, d, sites[i])
    ensures Image(f, PatchAll(f, d, sites)) && |PatchAll(f, d, sites)| == |d|
    ensures Translate(f, PatchAll(f, d, sites), va) == Translate(f, d, va)
    ensures Load(f, PatchAll(f, d, sites), va) == OverlayAll(Load(f, d, va), sites, va)
    decreases |sites|
  {
    if sites != [] {
      var c := PatchAt(f, d, sites[0]);
      PatchKeepsHeaders(f, d, sites[0], va);
      PatchCommutesWithLoading(f, d, sites[0], va);
      forall i | 0 <= i < |sites[1..]| ensures Fits(f, c, sites[1..][i]) {
        FitsSame(f, d, c, sites[1 + i]);
      }
      PatchAllCommutesWithLoading(f, c, sites[1..], va);
    }
  }

  /** Sites with no address in common go to ranges of the file with no byte in common. */
  lemma SitesApart(f: Layout, d: seq<Byte>, s: Site, t: Site, o: nat, q: nat)
    requires Image(f, d) && Fits(f, d, s) && Fits(f, d, t)
    requires Translate(f, d, s.va) == Some(o) && Translate(f, d, t.va) == Some(q)
    requires Apart(s.va, |s.bytes|, t.va, |t.bytes|)
    ensures Apart(o, |s.bytes|, q, |t.bytes|)
  {
    var _ := SiteOffset(f, d, s);
    var _ := SiteOffset(f, d, t);
    assert Within(t, t.va) && !Within(s, t.va);
    assert Within(s, s.va) && !Within(t, s.va);
    if o <= q < o + |s.bytes| { OnlyItsAddresses(f, d, s, t.va, o); }
    if q <= o < q + |t.bytes| { OnlyItsAddresses(f, d, t, s.va, q); }
  }

  /** The order in which such sites are patched does not matter to a single byte of the file. */
  lemma OrderDoesNotMatter(f: Layout, d: seq<Byte>, s: Site, t: Site)
    requires Sound(f) && Image(f, d) && Fits(f, d, s) && Fits(f, d, t)
    requires Apart(s.va, |s.bytes|, t.va, |t.bytes|)
    ensures PatchAt(f, PatchAt(f, d, s), t) == PatchAt(f, PatchAt(f, d, t), s)
  {
    var o := SiteOffset(f, d, s);
    var q := SiteOffset(f, d, t);
    SitesApart(f, d, s, t, o, q);
    PatchKeepsHeaders(f, d, s, t.va);
    PatchKeepsHeaders(f, d, t, s.va);
    SplicesSwap(d, o, s.bytes, q, t.bytes);
  }
}

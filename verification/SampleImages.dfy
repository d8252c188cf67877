/**
Files that the patch scripts accept: two that meet the premises of the theorems about them, with
one program header and one LOAD segment that maps the whole file at address 0, and one whose
headers the patch overwrites.  Each lemma that returns a file builds it piece by piece.
 */
module SampleImages {
  import opened Options
  import opened Bytes
  import opened Overwrite
  import opened ElfPatch
  import opened PatchScripts

  // ----- files with one segment

  predicate OneSegment(f: Layout, d: seq<Byte>, e: nat) {
    && HeaderOk(f, d) && Count(f, d) == 1 && EntryAt(f, d, 0) == e && e + f.entryLen <= |d|
    && SegmentAt(f, d, e) == Segment(PT_LOAD, 0, 0, |d|)
  }

  lemma OneSegmentImage(f: Layout, d: seq<Byte>, e: nat)
    requires OneSegment(f, d, e)
    ensures Image(f, d)
  {
    assert InFile(f, d, 0);
  }

  lemma OneSegmentFits(f: Layout, d: seq<Byte>, e: nat, s: Site)
    requires OneSegment(f, d, e) && f.headLen <= s.va && e + f.entryLen <= s.va
    requires s.va + |s.bytes| <= |d| && s.bytes != []
    ensures Fits(f, d, s)
  {
    assert InSegment(f, d, s, 0);
  }

  /** Code in the file at an offset is seen at the same address. */
  lemma OneSegmentShows(f: Layout, d: seq<Byte>, e: nat, va: nat, code: seq<Byte>)
    requires OneSegment(f, d, e) && code != [] && At(d, va, code)
    ensures Translate(f, d, va) == Some(va) && Shows(f, d, va, code)
  {
    AtByte(d, va, code, 0);
    OneSegmentImage(f, d, e);
    assert Covers(Seg(f, d, 0), va);
    TranslateIsTheSegment(f, d, va, 0);
  }

  // ----- building a file piece by piece

  function Zeros(n: nat): (r: seq<Byte>)
    ensures |r| == n
  {
    seq(n, _ => 0)
  }

  /** `piece` at `off`, behind all of `d`. */
  lemma PutPiece(d: seq<Byte>, off: nat, piece: seq<Byte>) returns (c: seq<Byte>)
    requires |d| <= off
    ensures d <= c && |c| == off + |piece| && At(c, off, piece)
  {
    c := d + Zeros(off - |d|) + piece;
    AtIsSlice(c, off, piece);
  }

  /** What stands in a file still stands there when more is appended. */
  lemma {:induction false} AtStays(d: seq<Byte>, c: seq<Byte>, off: nat, piece: seq<Byte>)
    requires d <= c && At(d, off, piece)
    ensures At(c, off, piece)
    decreases |piece|
  {
    if piece != [] {
      AtStays(d, c, off + 1, piece[1..]);
    }
  }

  lemma {:induction false} PowerGrows(n: nat)
    requires n >= 4
    ensures Pow256(n) >= 0x1_0000_0000
  {
    SmallPowers();
    if n > 4 {
      PowerGrows(n - 1);
    }
  }

  lemma WordRead(d: seq<Byte>, off: nat, n: nat, v: nat)
    requires n >= 4 && v < 0x1_0000_0000 && At(d, off, LittleEndian(n, v))
    ensures Read(d, off, n) == v
  {
    PowerGrows(n);
    ReadBack(d, off, n, v);
  }

  const MAGIC: nat := 0x464C_457F

  /**
  The ELF header of a file whose only program header is at `e`; `gap` stands right before the
  field that says so.
   */
  predicate HasHead(f: Layout, d: seq<Byte>, e: nat, gap: seq<Byte>) {
    && f.headLen <= |d| && |gap| <= f.phoffAt
    && At(d, 0, LittleEndian(4, MAGIC)) && At(d, 4, [f.classByte, 1]) && At(d, f.phoffAt - |gap|, gap)
    && At(d, f.phoffAt, LittleEndian(f.word, e)) && At(d, f.countAt, LittleEndian(2, 1))
  }

  predicate HasEntry(f: Layout, d: seq<Byte>, e: nat, g: Segment) {
    && At(d, e, LittleEndian(4, g.kind)) && At(d, e + f.offsetAt, LittleEndian(f.word, g.offset))
    && At(d, e + f.vaddrAt, LittleEndian(f.word, g.vaddr)) && At(d, e + f.fileSizeAt, LittleEndian(f.word, g.fileSize))
  }

  lemma HeadStays(f: Layout, d: seq<Byte>, c: seq<Byte>, e: nat, gap: seq<Byte>)
    requires d <= c && HasHead(f, d, e, gap)
    ensures HasHead(f, c, e, gap)
  {
    AtStays(d, c, 0, LittleEndian(4, MAGIC));
    AtStays(d, c, 4, [f.classByte, 1]);
    AtStays(d, c, f.phoffAt - |gap|, gap);
    AtStays(d, c, f.phoffAt, LittleEndian(f.word, e));
    AtStays(d, c, f.countAt, LittleEndian(2, 1));
  }

  lemma EntryStays(f: Layout, d: seq<Byte>, c: seq<Byte>, e: nat, g: Segment)
    requires d <= c && HasEntry(f, d, e, g)
    ensures HasEntry(f, c, e, g)
  {
    AtStays(d, c, e, LittleEndian(4, g.kind));
    AtStays(d, c, e + f.offsetAt, LittleEndian(f.word, g.offset));
    AtStays(d, c, e + f.vaddrAt, LittleEndian(f.word, g.vaddr));
    AtStays(d, c, e + f.fileSizeAt, LittleEndian(f.word, g.fileSize));
  }

  lemma HeadRead(f: Layout, d: seq<Byte>, e: nat, gap: seq<Byte>)
    requires f.word >= 4 && e < 0x1_0000_0000 && HasHead(f, d, e, gap)
    ensures HeaderOk(f, d) && Count(f, d) == 1 && EntryAt(f, d, 0) == e
  {
    SmallPowers();
    WordRead(d, 0, 4, MAGIC);
    WordRead(d, f.phoffAt, f.word, e);
    ReadBack(d, f.countAt, 2, 1);
    AtByte(d, 4, [f.classByte, 1], 0);
    AtByte(d, 4, [f.classByte, 1], 1);
  }

  predicate Small(g: Segment) {
    g.kind < 0x1_0000_0000 && g.offset < 0x1_0000_0000 && g.vaddr < 0x1_0000_0000 && g.fileSize < 0x1_0000_0000
  }

  lemma EntryRead(f: Layout, d: seq<Byte>, e: nat, g: Segment)
    requires f.word >= 4 && Small(g) && HasEntry(f, d, e, g)
    ensures SegmentAt(f, d, e) == g
  {
    WordRead(d, e, 4, g.kind);
    WordRead(d, e + f.offsetAt, f.word, g.offset);
    WordRead(d, e + f.vaddrAt, f.word, g.vaddr);
    WordRead(d, e + f.fileSizeAt, f.word, g.fileSize);
  }

  /** The fields of a layout in the order in which they are put. */
  predicate Laid(f: Layout) {
    && f.word >= 4 && 6 <= f.phoffAt && f.phoffAt + f.word <= f.entSizeAt && f.entSizeAt + 2 <= f.countAt
    && f.countAt + 2 == f.headLen && 4 <= f.offsetAt && f.offsetAt + f.word <= f.vaddrAt
    && f.vaddrAt + f.word <= f.fileSizeAt && f.fileSizeAt + f.word <= f.entryLen
  }

  lemma PutHead(f: Layout, e: nat, gap: seq<Byte>) returns (d: seq<Byte>)
    requires Laid(f) && 6 + |gap| <= f.phoffAt
    ensures |d| == f.headLen && HasHead(f, d, e, gap)
  {
    var a := PutPiece([], 0, LittleEndian(4, MAGIC));
    var b := PutPiece(a, 4, [f.classByte, 1]);
    var c := PutPiece(b, f.phoffAt - |gap|, gap);
    var g := PutPiece(c, f.phoffAt, LittleEndian(f.word, e));
    var h := PutPiece(g, f.entSizeAt, LittleEndian(2, f.entryLen));
    d := PutPiece(h, f.countAt, LittleEndian(2, 1));
    AtStays(a, d, 0, LittleEndian(4, MAGIC));
    AtStays(b, d, 4, [f.classByte, 1]);
    AtStays(c, d, f.phoffAt - |gap|, gap);
    AtStays(g, d, f.phoffAt, LittleEndian(f.word, e));
  }

  lemma PutEntry(f: Layout, d: seq<Byte>, e: nat, g: Segment) returns (c: seq<Byte>)
    requires Laid(f) && |d| <= e
    ensures d <= c && |c| <= e + f.entryLen && HasEntry(f, c, e, g)
  {
    var h := PutPiece(d, e, LittleEndian(4, g.kind));
    var i := PutPiece(h, e + f.offsetAt, LittleEndian(f.word, g.offset));
    var j := PutPiece(i, e + f.vaddrAt, LittleEndian(f.word, g.vaddr));
    c := PutPiece(j, e + f.fileSizeAt, LittleEndian(f.word, g.fileSize));
    AtStays(h, c, e, LittleEndian(4, g.kind));
    AtStays(i, c, e + f.offsetAt, LittleEndian(f.word, g.offset));
    AtStays(j, c, e + f.vaddrAt, LittleEndian(f.word, g.vaddr));
  }

  /** Both headers, for a file of one program header. */
  lemma PutHeaders(f: Layout, e: nat, gap: seq<Byte>, g: Segment) returns (d: seq<Byte>)
    requires Laid(f) && 6 + |gap| <= f.phoffAt && f.headLen <= e
    ensures |d| <= e + f.entryLen && HasHead(f, d, e, gap) && HasEntry(f, d, e, g)
  {
    var h := PutHead(f, e, gap);
    d := PutEntry(f, h, e, g);
    HeadStays(f, h, d, e, gap);
  }

  lemma HeadersRead(f: Layout, d: seq<Byte>, c: seq<Byte>, e: nat, gap: seq<Byte>, g: Segment)
    requires f.word >= 4 && e < 0x1_0000_0000 && Small(g)
    requires HasHead(f, d, e, gap) && HasEntry(f, d, e, g) && d <= c
    ensures HeaderOk(f, c) && Count(f, c) == 1 && EntryAt(f, c, 0) == e && SegmentAt(f, c, e) == g
  {
    HeadStays(f, d, c, e, gap);
    EntryStays(f, d, c, e, g);
    HeadRead(f, c, e, gap);
    EntryRead(f, c, e, g);
  }

  // ----- a RIL library

  /** A file with one segment that holds the build ID and, at the function's address, its prologue. */
  lemma RilFile() returns (d: seq<Byte>)
    ensures OneSegment(ELF64, d, 64) && |d| == QUERY_PROXY_ID_VA + 8
    ensures At(d, 120, RIL_BUILD_ID) && At(d, QUERY_PROXY_ID_VA, ORIGINAL)
  {
    var g := Segment(PT_LOAD, 0, 0, QUERY_PROXY_ID_VA + 8);
    var h := PutHeaders(ELF64, 64, [], g);
    var i := PutPiece(h, 120, RIL_BUILD_ID);
    d := PutPiece(i, QUERY_PROXY_ID_VA, ORIGINAL);
    AtStays(i, d, 120, RIL_BUILD_ID);
    HeadersRead(ELF64, h, d, 64, [], g);
  }

  /** The premises of the theorems about the RIL script can be met. */
  lemma RilSample() returns (d: seq<Byte>)
    ensures ProxyAccepts(d) && Image(ELF64, d) && Fits(ELF64, d, PROXY_SITE)
  {
    d := RilFile();
    OneSegmentImage(ELF64, d, 64);
    OneSegmentFits(ELF64, d, 64, PROXY_SITE);
    OneSegmentShows(ELF64, d, 64, QUERY_PROXY_ID_VA, ORIGINAL);
  }

  // ----- an audio HAL

  const AUDIO_SIZE: nat := 0xC3C88

  /** Two pieces, the second behind the first. */
  lemma PutTwo(d: seq<Byte>, off: nat, x: seq<Byte>, off': nat, y: seq<Byte>) returns (c: seq<Byte>)
    requires |d| <= off && off + |x| <= off'
    ensures d <= c && |c| == off' + |y| && At(c, off, x) && At(c, off', y)
  {
    var b := PutPiece(d, off, x);
    c := PutPiece(b, off', y);
    AtStays(b, c, off, x);
  }

  lemma AudioFile() returns (d: seq<Byte>)
    ensures OneSegment(ELF32, d, 52) && |d| == AUDIO_SIZE && At(d, 100, AUDIO_BUILD_ID)
    ensures At(d, NULL_GUARD.va, NULL_DEREF) && At(d, INIT.va, PROLOGUE) && At(d, PASSTHROUGH.va, PROLOGUE)
  {
    var g := Segment(PT_LOAD, 0, 0, AUDIO_SIZE);
    var h := PutHeaders(ELF32, 52, [], g);
    var i := PutTwo(h, 100, AUDIO_BUILD_ID, NULL_GUARD.va, NULL_DEREF);
    var rest := Zeros(16);
    d := PutTwo(i, INIT.va, PROLOGUE, PASSTHROUGH.va, PROLOGUE + rest);
    AtConcat(d, PASSTHROUGH.va, PROLOGUE, rest);
    AtStays(i, d, 100, AUDIO_BUILD_ID);
    AtStays(i, d, NULL_GUARD.va, NULL_DEREF);
    HeadersRead(ELF32, h, d, 52, [], g);
  }

  lemma AudioSitesFit(d: seq<Byte>)
    requires OneSegment(ELF32, d, 52) && |d| == AUDIO_SIZE
    ensures AudioFits(d)
  {
    forall i | 0 <= i < |AUDIO_SITES| ensures Fits(ELF32, d, AUDIO_SITES[i]) {
      OneSegmentFits(ELF32, d, 52, AUDIO_SITES[i]);
    }
  }

  lemma AudioSitesAway(d: seq<Byte>)
    requires OneSegment(ELF32, d, 52) && AudioAccepts(d) && Translate(ELF32, d, INIT.va) == Some(INIT.va)
    requires Translate(ELF32, d, PASSTHROUGH.va) == Some(PASSTHROUGH.va)
    requires Translate(ELF32, d, NULL_GUARD.va) == Some(NULL_GUARD.va)
    ensures AudioAway(d)
  {
  }

  /** The premises of the theorems about the audio script can be met. */
  lemma AudioSample() returns (d: seq<Byte>)
    ensures AudioAccepts(d) && AudioAway(d) && Image(ELF32, d) && AudioFits(d)
  {
    d := AudioFile();
    OneSegmentShows(ELF32, d, 52, INIT.va, PROLOGUE);
    OneSegmentShows(ELF32, d, 52, PASSTHROUGH.va, PROLOGUE);
    OneSegmentShows(ELF32, d, 52, NULL_GUARD.va, NULL_DEREF);
    OneSegmentImage(ELF32, d, 52);
    AudioSitesFit(d);
    AudioSitesAway(d);
  }

  // ----- a file whose ELF header the RIL patch overwrites

  /**
  The address translates to offset 25, so that the last byte of the prologue is the low byte of
  the field that says where the program headers are.
   */
  lemma BadFile() returns (d: seq<Byte>)
    ensures |d| == 241 && HeaderOk(ELF64, d) && Count(ELF64, d) == 1 && EntryAt(ELF64, d, 0) == 169
    ensures SegmentAt(ELF64, d, 169) == Segment(PT_LOAD, 25, QUERY_PROXY_ID_VA, 8)
    ensures At(d, 25, ORIGINAL) && At(d, 33, LittleEndian(7, 0)) && At(d, 225, RIL_BUILD_ID)
  {
    assert ORIGINAL == ORIGINAL[..7] + [169];
    d := LowHeadersFile(ELF64, 169, ORIGINAL, ORIGINAL[..7], Segment(PT_LOAD, 25, QUERY_PROXY_ID_VA, 8), RIL_BUILD_ID);
  }

  /** A file whose header field reads `low`, the bytes before the field being the front of `x`. */
  lemma LowHeadersFile(f: Layout, low: Byte, x: seq<Byte>, front: seq<Byte>, g: Segment, id: seq<Byte>)
      returns (d: seq<Byte>)
    requires Laid(f) && f.word >= 4 && Small(g) && 6 + |front| <= f.phoffAt && f.headLen <= low && x == front + [low]
    ensures |d| == low + f.entryLen + |id| && At(d, low + f.entryLen, id)
    ensures HeaderOk(f, d) && Count(f, d) == 1 && EntryAt(f, d, 0) == low && SegmentAt(f, d, low) == g
    ensures At(d, f.phoffAt - |front|, x) && At(d, f.phoffAt + 1, LittleEndian(f.word - 1, 0))
  {
    var h := PutHeaders(f, low, front, g);
    d := PutPiece(h, low + f.entryLen, id);
    HeadersRead(f, h, d, low, front, g);
    HeadStays(f, h, d, low, front);
    LowByteJoins(d, f.phoffAt - |front|, x, front, low, f.word - 1);
  }

  /** A number below 256 is its byte and zeros. */
  lemma LowByte(n: nat, low: Byte)
    ensures LittleEndian(n + 1, low) == [low] + LittleEndian(n, 0)
  {
    assert low % 256 == low && low / 256 == 0;
  }

  /** Such a number behind other bytes: its low byte continues them to `x`. */
  lemma LowByteJoins(d: seq<Byte>, off: nat, x: seq<Byte>, front: seq<Byte>, low: Byte, n: nat)
    requires x == front + [low] && At(d, off, front) && At(d, off + |front|, LittleEndian(n + 1, low))
    ensures At(d, off, x) && At(d, off + |x|, LittleEndian(n, 0))
  {
    LowByte(n, low);
    AtConcat(d, off + |front|, [low], LittleEndian(n, 0));
    AtConcat(d, off, front, [low]);
  }

  lemma FirstCovers(f: Layout, d: seq<Byte>, e: nat, va: nat)
    requires HeaderOk(f, d) && Count(f, d) > 0 && EntryAt(f, d, 0) == e && e + f.entryLen <= |d|
    requires Covers(SegmentAt(f, d, e), va)
    ensures Translate(f, d, va) == Some(SegmentAt(f, d, e).offset + va - SegmentAt(f, d, e).vaddr)
  {
  }

  /** No program header in the file: nothing translates. */
  lemma HeadersBehindTheEnd(f: Layout, d: seq<Byte>, va: nat)
    requires EntryAt(f, d, 0) + f.entryLen > |d|
    ensures Translate(f, d, va).None?
  {
  }

  /** The patch moves the program headers to offset 214. */
  lemma PatchedEntry(d: seq<Byte>, c: seq<Byte>)
    requires |d| == 241 && At(d, 33, LittleEndian(7, 0)) && c == Splice(d, 25, PATCHED)
    ensures |c| == 241 && EntryAt(ELF64, c, 0) == 214
  {
    SpliceAt(d, 25, PATCHED, 32);
    SpliceKeeps(d, 25, PATCHED, 33, LittleEndian(7, 0));
    WordRead(c, 33, 7, 0);
    assert Read(c, 32, 8) == ByteAt(c, 32) + 256 * Read(c, 33, 7);
  }

  /** An accepted file whose patched form the script refuses: the condition on the headers is needed. */
  lemma RerunCanFail() returns (d: seq<Byte>)
    ensures ProxyAccepts(d) && !ProxyAccepts(ProxyResult(d))
  {
    d := BadFile();
    FirstCovers(ELF64, d, 169, QUERY_PROXY_ID_VA);
    PatchedEntry(d, ProxyResult(d));
    HeadersBehindTheEnd(ELF64, ProxyResult(d), QUERY_PROXY_ID_VA);
  }
}

/**
The two scripts that patch vendor libraries by virtual address: the RIL library
(tools/patch_librilmtk_proxy_channel.py) and the audio HAL (tools/patch_audio_dc_calibration.py).
 */
module PatchScripts {
  import opened Options
  import opened Bytes
  import opened Overwrite
  import opened ElfPatch

  /** `Refused` is the script raising, with nothing written. */
  datatype Run = Written(blob: seq<Byte>) | Refused

  /** id in blob */
  predicate Contains(d: seq<Byte>, id: seq<Byte>) {
    exists i :: 0 <= i <= |d| && At(d, i, id)
  }

  /** The translated address shows `expected`. */
  predicate Shows(f: Layout, d: seq<Byte>, va: nat, expected: seq<Byte>) {
    match Translate(f, d, va)
    case Some(o) => At(d, o, expected)
    case None => false
  }

  /** The same said with slices. */
  predicate StandsAt(d: seq<Byte>, o: nat, p: seq<Byte>) { o + |p| <= |d| && d[o..o + |p|] == p }

  ghost predicate Occurs(d: seq<Byte>, p: seq<Byte>) { exists o: nat :: StandsAt(d, o, p) }

  lemma StandsIsAt(d: seq<Byte>, o: nat, p: seq<Byte>)
    requires p != []
    ensures StandsAt(d, o, p) <==> At(d, o, p)
  {
    if o <= |d| {
      AtIsSlice(d, o, p);
    }
  }

  lemma OccursIs(d: seq<Byte>, p: seq<Byte>)
    requires p != []
    ensures Occurs(d, p) <==> Contains(d, p)
  {
    forall o: nat ensures StandsAt(d, o, p) <==> At(d, o, p) {
      StandsIsAt(d, o, p);
    }
    if Occurs(d, p) {
      var o: nat :| StandsAt(d, o, p);
      assert At(d, o, p);
    }
  }

  /** `c` is `d` with `p` in place of what stood at `o`. */
  ghost predicate Replaced(c: seq<Byte>, d: seq<Byte>, o: nat, p: seq<Byte>) {
    && |c| == |d| && o + |p| <= |d|
    && forall i :: 0 <= i < |d| ==> c[i] == if o <= i < o + |p| then p[i - o] else d[i]
  }

  lemma SpliceReplaces(d: seq<Byte>, o: nat, p: seq<Byte>)
    requires o + |p| <= |d|
    ensures Replaced(Splice(d, o, p), d, o, p)
  {
    forall i | 0 <= i < |d| ensures |Splice(d, o, p)| == |d|
      && Splice(d, o, p)[i] == if o <= i < o + |p| then p[i - o] else d[i] {
      SpliceAt(d, o, p, i);
    }
    SpliceAt(d, o, p, 0);
  }

  // ----- the RIL library

  const RIL_BUILD_ID: seq<Byte> :=
    [0x32, 0xB3, 0xF9, 0x83, 0x76, 0x60, 0x44, 0x2C, 0x82, 0xCD, 0xAC, 0x2A, 0x5E, 0x8E, 0xC3, 0xBA]
  const QUERY_PROXY_ID_VA: nat := 0x1B318
  const ORIGINAL: seq<Byte> := [0xF5, 0x0F, 0x1D, 0xF8, 0xF4, 0x4F, 0x01, 0xA9]
  const PATCHED: seq<Byte> := [0x40, 0x00, 0x80, 0x52, 0xC0, 0x03, 0x5F, 0xD6]
  const PROXY_SITE := Site(QUERY_PROXY_ID_VA, PATCHED)

  predicate ProxyAccepts(d: seq<Byte>) {
    && Contains(d, RIL_BUILD_ID)
    && (Shows(ELF64, d, QUERY_PROXY_ID_VA, PATCHED) || Shows(ELF64, d, QUERY_PROXY_ID_VA, ORIGINAL))
  }

  /** Both accepting branches write the same thing: the file with the site patched. */
  method PatchProxyChannel(source: seq<Byte>) returns (r: Run)
    ensures r.Written? <==> ProxyAccepts(source)
    ensures r.Written? <==>
              && Occurs(source, RIL_BUILD_ID) && Translate(ELF64, source, 0x1B318).Some?
              && (StandsAt(source, Translate(ELF64, source, 0x1B318).value, ORIGINAL)
                  || StandsAt(source, Translate(ELF64, source, 0x1B318).value, PATCHED))
    ensures r.Written? ==> r.blob == ProxyResult(source)
    ensures r.Written? ==> Replaced(r.blob, source, Translate(ELF64, source, 0x1B318).value, PATCHED)
  {
    ProxyAcceptsIs(source);
    var blob := source;
    if !Contains(blob, RIL_BUILD_ID) {
      return Refused;
    }
    var patchOffset := VirtualToFileOffset(ELF64, blob, QUERY_PROXY_ID_VA);
    if patchOffset.None? {
      return Refused;
    }
    if At(blob, patchOffset.value, PATCHED) {
      SpliceOfSame(blob, patchOffset.value, PATCHED);
    } else if At(blob, patchOffset.value, ORIGINAL) {
      blob := Splice(blob, patchOffset.value, PATCHED);
    } else {
      return Refused;
    }
    return Written(blob);
  }

  /** What is accepted, and what an accepted file becomes, byte by byte. */
  lemma ProxyAcceptsIs(d: seq<Byte>)
    ensures ProxyAccepts(d) <==>
              && Occurs(d, RIL_BUILD_ID) && Translate(ELF64, d, 0x1B318).Some?
              && (StandsAt(d, Translate(ELF64, d, 0x1B318).value, ORIGINAL)
                  || StandsAt(d, Translate(ELF64, d, 0x1B318).value, PATCHED))
    ensures ProxyAccepts(d) ==> Replaced(ProxyResult(d), d, Translate(ELF64, d, 0x1B318).value, PATCHED)
  {
    OccursIs(d, RIL_BUILD_ID);
    if Translate(ELF64, d, 0x1B318).Some? {
      var o := Translate(ELF64, d, 0x1B318).value;
      StandsIsAt(d, o, ORIGINAL);
      StandsIsAt(d, o, PATCHED);
      if ProxyAccepts(d) {
        SpliceReplaces(d, o, PATCHED);
      }
    }
  }

  lemma NoCommonByte(a: nat, b: nat)
    requires a < 16 && b < 8
    ensures RIL_BUILD_ID[a] != ORIGINAL[b]
  {
  }

  lemma ApartIfNoCommonByte(d: seq<Byte>, i: nat, x: seq<Byte>, o: nat, y: seq<Byte>)
    requires At(d, i, x) && At(d, o, y) && x != [] && y != []
    requires forall a, b :: 0 <= a < |x| && 0 <= b < |y| ==> x[a] != y[b]
    ensures Apart(i, |x|, o, |y|)
  {
    AtByte(d, i, x, if i <= o < i + |x| then o - i else 0);
    AtByte(d, o, y, if o <= i < o + |y| then i - o else 0);
  }

  /** The build ID survives the patch: it has no byte in common with the prologue that is overwritten. */
  lemma BuildIdSurvives(d: seq<Byte>, o: nat)
    requires Contains(d, RIL_BUILD_ID) && At(d, o, ORIGINAL)
    ensures Contains(Splice(d, o, PATCHED), RIL_BUILD_ID)
  {
    var i :| 0 <= i <= |d| && At(d, i, RIL_BUILD_ID);
    forall a, b | 0 <= a < |RIL_BUILD_ID| && 0 <= b < |ORIGINAL| ensures RIL_BUILD_ID[a] != ORIGINAL[b] {
      NoCommonByte(a, b);
    }
    ApartIfNoCommonByte(d, i, RIL_BUILD_ID, o, ORIGINAL);
    AtByte(d, o, ORIGINAL, 0);
    SpliceKeeps(d, o, PATCHED, i, RIL_BUILD_ID);
  }

  /** The file after one accepted run. */
  function ProxyResult(d: seq<Byte>): seq<Byte> { PatchAt(ELF64, d, PROXY_SITE) }

  /** Where the script finds the function. */
  function ProxyOffset(d: seq<Byte>): nat
    requires ProxyAccepts(d)
  {
    Translate(ELF64, d, QUERY_PROXY_ID_VA).value
  }

  lemma ProxyKeepsBuildId(d: seq<Byte>)
    requires ProxyAccepts(d)
    ensures Contains(ProxyResult(d), RIL_BUILD_ID)
  {
    var o := ProxyOffset(d);
    if At(d, o, PATCHED) {
      SpliceOfSame(d, o, PATCHED);
    } else {
      BuildIdSurvives(d, o);
    }
  }

  lemma SpliceUnchanged(d: seq<Byte>, o: nat, p: seq<Byte>)
    requires Splice(d, o, p) == d && p != []
    ensures At(d, o, p)
  {
    assert o + |p| <= |d|;
    SpliceShows(d, o, p);
  }

  /**
  Running the script on its own output is accepted and changes nothing exactly when the address
  still translates to a place that shows the patch.  Two conditions on the file given to the
  first run, each enough for that: the patch was there already, or it goes to a place away from
  the headers.
   */
  lemma ProxyRunsAgain(d: seq<Byte>)
    requires ProxyAccepts(d)
    ensures ProxyAccepts(ProxyResult(d)) && ProxyResult(ProxyResult(d)) == ProxyResult(d)
       <==> Shows(ELF64, ProxyResult(d), QUERY_PROXY_ID_VA, PATCHED)
    ensures At(d, ProxyOffset(d), PATCHED) || AwayFromHeaders(ELF64, d, ProxyOffset(d), 8)
        ==> Shows(ELF64, ProxyResult(d), QUERY_PROXY_ID_VA, PATCHED)
  {
    var c, o := ProxyResult(d), ProxyOffset(d);
    ProxyKeepsBuildId(d);
    var again := Translate(ELF64, c, QUERY_PROXY_ID_VA);
    if again.Some? {
      if At(c, again.value, PATCHED) {
        SpliceOfSame(c, again.value, PATCHED);
      } else if ProxyResult(c) == c {
        SpliceUnchanged(c, again.value, PATCHED);
      }
    }
    if At(d, o, PATCHED) {
      SpliceOfSame(d, o, PATCHED);
    } else if AwayFromHeaders(ELF64, d, o, 8) {
      PatchShows(d);
    }
  }

  lemma PatchShows(d: seq<Byte>)
    requires ProxyAccepts(d) && AwayFromHeaders(ELF64, d, ProxyOffset(d), 8)
    ensures Shows(ELF64, ProxyResult(d), QUERY_PROXY_ID_VA, PATCHED)
  {
    var o := ProxyOffset(d);
    AtByte(d, o, if At(d, o, PATCHED) then PATCHED else ORIGINAL, 0);
    HeadersSame(ELF64, d, o, PATCHED);
    HeadersDecide(ELF64, d, ProxyResult(d), QUERY_PROXY_ID_VA);
    SpliceShows(d, o, PATCHED);
  }

  /** In memory the function at the address is now the patch, and nothing else has changed. */
  lemma ProxyChannelPinned(d: seq<Byte>, va: nat)
    requires ProxyAccepts(d) && Image(ELF64, d) && Fits(ELF64, d, PROXY_SITE)
    ensures Load(ELF64, ProxyResult(d), va) == Overlay(Load(ELF64, d, va), PROXY_SITE, va)
  {
    PatchCommutesWithLoading(ELF64, d, PROXY_SITE, va);
  }

  // ----- the audio HAL

  const AUDIO_BUILD_ID: seq<Byte> :=
    [0x50, 0xDC, 0x24, 0x58, 0xD2, 0x0F, 0xC8, 0xBE, 0x7D, 0xCA, 0x25, 0x53, 0xA0, 0xB4, 0xEB, 0xC0]
  const PROLOGUE: seq<Byte> := [0xF0, 0x48, 0x2D, 0xE9]
  const NULL_DEREF: seq<Byte> := [0x00, 0x10, 0x90, 0xE5, 0x08, 0x10, 0x91, 0xE5, 0x31, 0xFF, 0x2F, 0xE1]
  const INIT := Site(0xC3AC0, [0x00, 0x00, 0xA0, 0xE3, 0x1E, 0xFF, 0x2F, 0xE1])
  const PASSTHROUGH := Site(0xC3C74,
    [0x00, 0x10, 0x83, 0xE5, 0x00, 0x00, 0x9D, 0xE5, 0x00, 0x20, 0x80, 0xE5, 0x00, 0x00, 0xA0, 0xE3,
     0x1E, 0xFF, 0x2F, 0xE1])
  const NULL_GUARD := Site(0x95E58,
    [0x00, 0x00, 0x50, 0xE3, 0x0B, 0x00, 0x00, 0x0A, 0x00, 0x10, 0x90, 0xE5, 0x08, 0x10, 0x91, 0xE5,
     0x31, 0xFF, 0x2F, 0xE1, 0x04, 0x00, 0x00, 0xEA])
  const AUDIO_SITES: seq<Site> := [INIT, PASSTHROUGH, NULL_GUARD]

  predicate AudioAccepts(d: seq<Byte>) {
    && Contains(d, AUDIO_BUILD_ID)
    && Shows(ELF32, d, INIT.va, PROLOGUE) && Shows(ELF32, d, PASSTHROUGH.va, PROLOGUE)
    && Shows(ELF32, d, NULL_GUARD.va, NULL_DEREF)
  }

  ghost predicate AudioFits(d: seq<Byte>) {
    forall i :: 0 <= i < |AUDIO_SITES| ==> Fits(ELF32, d, AUDIO_SITES[i])
  }

  /** The three overwrites, at the offsets translated before the first of them. */
  function AudioResult(d: seq<Byte>): seq<Byte>
    requires AudioAccepts(d)
  {
    var first := Splice(d, Translate(ELF32, d, INIT.va).value, INIT.bytes);
    var second := Splice(first, Translate(ELF32, d, PASSTHROUGH.va).value, PASSTHROUGH.bytes);
    Splice(second, Translate(ELF32, d, NULL_GUARD.va).value, NULL_GUARD.bytes)
  }

  method PatchAudio(source: seq<Byte>) returns (r: Run)
    ensures r.Written? <==> AudioAccepts(source)
    ensures r.Written? <==>
              && Occurs(source, AUDIO_BUILD_ID) && ShowsAt(source, 0xC3AC0, [0xF0, 0x48, 0x2D, 0xE9])
              && ShowsAt(source, 0xC3C74, [0xF0, 0x48, 0x2D, 0xE9]) && ShowsAt(source, 0x95E58, NULL_DEREF)
    ensures r.Written? ==> r.blob == AudioResult(source)
    ensures r.Written? ==> AudioBytes(r.blob, source)
  {
    AudioAcceptsIs(source);
    var blob := source;
    if !Contains(blob, AUDIO_BUILD_ID) {
      return Refused;
    }
    var initOffset := VirtualToFileOffset(ELF32, blob, INIT.va);
    var passthroughOffset := VirtualToFileOffset(ELF32, blob, PASSTHROUGH.va);
    var nullDerefOffset := VirtualToFileOffset(ELF32, blob, NULL_GUARD.va);
    if initOffset.None? || passthroughOffset.None? || nullDerefOffset.None? {
      return Refused;
    }
    if !At(blob, initOffset.value, PROLOGUE) || !At(blob, passthroughOffset.value, PROLOGUE)
       || !At(blob, nullDerefOffset.value, NULL_DEREF) {
      return Refused;
    }
    blob := Splice(blob, initOffset.value, INIT.bytes);
    blob := Splice(blob, passthroughOffset.value, PASSTHROUGH.bytes);
    blob := Splice(blob, nullDerefOffset.value, NULL_GUARD.bytes);
    return Written(blob);
  }

  predicate ShowsAt(d: seq<Byte>, va: nat, expected: seq<Byte>) {
    Translate(ELF32, d, va).Some? && StandsAt(d, Translate(ELF32, d, va).value, expected)
  }

  /** Position `i` lies in the range that the patch `p` for address `va` overwrites. */
  predicate Hit(d: seq<Byte>, va: nat, p: seq<Byte>, i: nat) {
    Translate(ELF32, d, va).Some? && Translate(ELF32, d, va).value <= i < Translate(ELF32, d, va).value + |p|
  }

  /** A byte of the output: of the last of the three patches that lies there, else as before. */
  predicate IsAudioByte(c: seq<Byte>, d: seq<Byte>, i: nat)
    requires i < |c|
  {
    if Hit(d, 0x95E58, NULL_GUARD.bytes, i) then c[i] == NULL_GUARD.bytes[i - Translate(ELF32, d, 0x95E58).value]
    else if Hit(d, 0xC3C74, PASSTHROUGH.bytes, i) then
      c[i] == PASSTHROUGH.bytes[i - Translate(ELF32, d, 0xC3C74).value]
    else if Hit(d, 0xC3AC0, INIT.bytes, i) then c[i] == INIT.bytes[i - Translate(ELF32, d, 0xC3AC0).value]
    else i < |d| && c[i] == d[i]
  }

  ghost predicate AudioBytes(c: seq<Byte>, d: seq<Byte>) {
    |c| >= |d| && forall i :: 0 <= i < |c| ==> IsAudioByte(c, d, i)
  }

  lemma AudioAcceptsIs(d: seq<Byte>)
    ensures AudioAccepts(d) <==>
              && Occurs(d, AUDIO_BUILD_ID) && ShowsAt(d, 0xC3AC0, [0xF0, 0x48, 0x2D, 0xE9])
              && ShowsAt(d, 0xC3C74, [0xF0, 0x48, 0x2D, 0xE9]) && ShowsAt(d, 0x95E58, NULL_DEREF)
    ensures AudioAccepts(d) ==> AudioBytes(AudioResult(d), d)
  {
    OccursIs(d, AUDIO_BUILD_ID);
    ShowsIs(d, 0xC3AC0, PROLOGUE);
    ShowsIs(d, 0xC3C74, PROLOGUE);
    ShowsIs(d, 0x95E58, NULL_DEREF);
    if AudioAccepts(d) {
      AudioResultBytes(d);
    }
  }

  lemma ShowsIs(d: seq<Byte>, va: nat, expected: seq<Byte>)
    requires expected != []
    ensures ShowsAt(d, va, expected) <==> Shows(ELF32, d, va, expected)
  {
    if Translate(ELF32, d, va).Some? {
      StandsIsAt(d, Translate(ELF32, d, va).value, expected);
    }
  }

  lemma AudioResultBytes(d: seq<Byte>)
    requires AudioAccepts(d)
    ensures AudioBytes(AudioResult(d), d)
  {
    var o, q, r := OffsetsInFile(d);
    var first := Splice(d, o, INIT.bytes);
    var second := Splice(first, q, PASSTHROUGH.bytes);
    var c := Splice(second, r, NULL_GUARD.bytes);
    forall i: nat ensures ThreeAt(d, o, q, r, i, c) {
      ThreeSplices(d, o, q, r, i);
    }
    ThreeAreBytes(d, o, q, r, c);
  }

  lemma ThreeSplices(d: seq<Byte>, o: nat, q: nat, r: nat, i: nat)
    requires o <= |d| && q <= |d| && r <= |d|
    ensures var first := Splice(d, o, INIT.bytes);
            var second := Splice(first, q, PASSTHROUGH.bytes);
            ThreeAt(d, o, q, r, i, Splice(second, r, NULL_GUARD.bytes))
  {
    var first := Splice(d, o, INIT.bytes);
    var second := Splice(first, q, PASSTHROUGH.bytes);
    SpliceAt(d, o, INIT.bytes, i);
    SpliceAt(first, q, PASSTHROUGH.bytes, i);
    SpliceAt(second, r, NULL_GUARD.bytes, i);
  }

  lemma ThreeAreBytes(d: seq<Byte>, o: nat, q: nat, r: nat, c: seq<Byte>)
    requires Translate(ELF32, d, INIT.va) == Some(o) && Translate(ELF32, d, PASSTHROUGH.va) == Some(q)
    requires Translate(ELF32, d, NULL_GUARD.va) == Some(r)
    requires |c| >= |d| && forall i: nat :: ThreeAt(d, o, q, r, i, c)
    ensures AudioBytes(c, d)
  {
    forall i | 0 <= i < |c| ensures IsAudioByte(c, d, i) {
      assert ThreeAt(d, o, q, r, i, c);
    }
  }

  /** Three overwrites one after the other, seen at position `i`. */
  ghost predicate ThreeAt(d: seq<Byte>, o: nat, q: nat, r: nat, i: nat, c: seq<Byte>) {
    && |c| >= |d|
    && ByteAt(c, i) == (if r <= i < r + |NULL_GUARD.bytes| then NULL_GUARD.bytes[i - r]
                        else if q <= i < q + |PASSTHROUGH.bytes| then PASSTHROUGH.bytes[i - q]
                        else if o <= i < o + |INIT.bytes| then INIT.bytes[i - o] else ByteAt(d, i))
    && (|d| <= i < |c| ==>
          o <= i < o + |INIT.bytes| || q <= i < q + |PASSTHROUGH.bytes| || r <= i < r + |NULL_GUARD.bytes|)
  }

  /** Translating early is as good as translating before each overwrite. */
  lemma AudioIsPatchAll(d: seq<Byte>)
    requires AudioAccepts(d) && Image(ELF32, d) && AudioFits(d)
    ensures AudioResult(d) == PatchAll(ELF32, d, AUDIO_SITES)
  {
    assert Fits(ELF32, d, AUDIO_SITES[0]) && Fits(ELF32, d, AUDIO_SITES[1]);
    var c := PatchAt(ELF32, d, INIT);
    PatchKeepsHeaders(ELF32, d, INIT, PASSTHROUGH.va);
    PatchKeepsHeaders(ELF32, d, INIT, NULL_GUARD.va);
    FitsSame(ELF32, d, c, PASSTHROUGH);
    PatchKeepsHeaders(ELF32, c, PASSTHROUGH, NULL_GUARD.va);
    PatchAllOfThree(ELF32, d, INIT, PASSTHROUGH, NULL_GUARD);
  }

  lemma PatchAllOfThree(f: Layout, d: seq<Byte>, s: Site, t: Site, u: Site)
    ensures PatchAll(f, d, [s, t, u]) == PatchAt(f, PatchAt(f, PatchAt(f, d, s), t), u)
  {
    assert [s, t, u][1..] == [t, u] && [t, u][1..] == [u];
    var x := PatchAt(f, d, s);
    assert PatchAll(f, d, [s, t, u]) == PatchAll(f, x, [t, u]);
    assert PatchAll(f, x, [t, u]) == PatchAll(f, PatchAt(f, x, t), [u]);
  }

  lemma OverlayOfThree(b: Option<Byte>, s: Site, t: Site, u: Site, va: nat)
    ensures OverlayAll(b, [s, t, u], va) == Overlay(Overlay(Overlay(b, s, va), t, va), u, va)
  {
    assert [s, t, u][1..] == [t, u] && [t, u][1..] == [u];
    var x := Overlay(b, s, va);
    assert OverlayAll(b, [s, t, u], va) == OverlayAll(x, [t, u], va);
    assert OverlayAll(x, [t, u], va) == OverlayAll(Overlay(x, t, va), [u], va);
  }

  /** The memory a phone should see: each of the three functions replaced, everything else as before. */
  function AudioMemory(before: Option<Byte>, va: nat): Option<Byte> {
    if Within(INIT, va) then Some(INIT.bytes[va - INIT.va])
    else if Within(PASSTHROUGH, va) then Some(PASSTHROUGH.bytes[va - PASSTHROUGH.va])
    else if Within(NULL_GUARD, va) then Some(NULL_GUARD.bytes[va - NULL_GUARD.va])
    else before
  }

  lemma ThreeFunctions(before: Option<Byte>, va: nat)
    ensures OverlayAll(before, AUDIO_SITES, va) == AudioMemory(before, va)
  {
    OverlayOfThree(before, INIT, PASSTHROUGH, NULL_GUARD, va);
  }

  /** In memory exactly the three functions are changed. */
  lemma AudioPatched(d: seq<Byte>, va: nat)
    requires AudioAccepts(d) && Image(ELF32, d) && AudioFits(d)
    ensures |AudioResult(d)| == |d| && Image(ELF32, AudioResult(d))
    ensures Translate(ELF32, AudioResult(d), va) == Translate(ELF32, d, va)
    ensures Load(ELF32, AudioResult(d), va) == AudioMemory(Load(ELF32, d, va), va)
  {
    AudioIsPatchAll(d);
    PatchAllCommutesWithLoading(ELF32, d, AUDIO_SITES, va);
    ThreeFunctions(Load(ELF32, d, va), va);
  }

  /** The three overwrites go to places away from the headers. */
  predicate AudioAway(d: seq<Byte>)
    requires AudioAccepts(d)
  {
    && AwayFromHeaders(ELF32, d, Translate(ELF32, d, INIT.va).value, |INIT.bytes|)
    && AwayFromHeaders(ELF32, d, Translate(ELF32, d, PASSTHROUGH.va).value, |PASSTHROUGH.bytes|)
    && AwayFromHeaders(ELF32, d, Translate(ELF32, d, NULL_GUARD.va).value, |NULL_GUARD.bytes|)
  }

  predicate Lacks(p: seq<Byte>, x: Byte) { forall k :: 0 <= k < |p| ==> p[k] != x }

  /** An overwrite without the byte `x` does not put it where it was not. */
  lemma SpliceLacks(d: seq<Byte>, o: nat, p: seq<Byte>, at: nat, x: Byte)
    requires o <= |d| && Lacks(p, x) && (ByteAt(d, at) != x || o <= at < o + |p|)
    ensures ByteAt(Splice(d, o, p), at) != x
  {
    SpliceAt(d, o, p, at);
  }

  /** No patch has the byte that the expected prologue starts with. */
  lemma PatchesLackPrologue()
    ensures Lacks(INIT.bytes, PROLOGUE[0]) && Lacks(PASSTHROUGH.bytes, PROLOGUE[0])
    ensures Lacks(NULL_GUARD.bytes, PROLOGUE[0])
  {
  }

  /** The headers after the three overwrites, whether or not these overlap or reach past the end of the file. */
  lemma AudioKeepsHeaders(d: seq<Byte>)
    requires AudioAccepts(d) && AudioAway(d)
    ensures SameHeaders(ELF32, d, AudioResult(d))
  {
    var o, q, r := OffsetsInFile(d);
    var first := Splice(d, o, INIT.bytes);
    var second := Splice(first, q, PASSTHROUGH.bytes);
    var third := Splice(second, r, NULL_GUARD.bytes);
    HeadersSame(ELF32, d, o, INIT.bytes);
    AwaySame(ELF32, d, first, q, |PASSTHROUGH.bytes|);
    HeadersSame(ELF32, first, q, PASSTHROUGH.bytes);
    SameHeadersTrans(ELF32, d, first, second);
    AwaySame(ELF32, d, second, r, |NULL_GUARD.bytes|);
    HeadersSame(ELF32, second, r, NULL_GUARD.bytes);
    SameHeadersTrans(ELF32, d, second, third);
  }

  lemma OffsetsInFile(d: seq<Byte>) returns (o: nat, q: nat, r: nat)
    requires AudioAccepts(d)
    ensures Translate(ELF32, d, INIT.va) == Some(o) && Translate(ELF32, d, PASSTHROUGH.va) == Some(q)
    ensures Translate(ELF32, d, NULL_GUARD.va) == Some(r)
    ensures o < |d| && q < |d| && r < |d|
  {
    o := Translate(ELF32, d, INIT.va).value;
    q := Translate(ELF32, d, PASSTHROUGH.va).value;
    r := Translate(ELF32, d, NULL_GUARD.va).value;
  }

  /**
  The script refuses its own output whenever its overwrites leave the headers alone: the address
  of the first patch still translates to the same place, and no patch has the byte the expected
  prologue starts with.
   */
  lemma AudioRunsOnce(d: seq<Byte>)
    requires AudioAccepts(d) && AudioAway(d)
    ensures !AudioAccepts(AudioResult(d))
  {
    var o, q, r := OffsetsInFile(d);
    AudioKeepsHeaders(d);
    HeadersDecide(ELF32, d, AudioResult(d), INIT.va);
    PatchesLackPrologue();
    var first := Splice(d, o, INIT.bytes);
    var second := Splice(first, q, PASSTHROUGH.bytes);
    SpliceLacks(d, o, INIT.bytes, o, PROLOGUE[0]);
    SpliceLacks(first, q, PASSTHROUGH.bytes, o, PROLOGUE[0]);
    SpliceLacks(second, r, NULL_GUARD.bytes, o, PROLOGUE[0]);
  }
}

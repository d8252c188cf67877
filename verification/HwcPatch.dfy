/**
The hardware composer patcher (patches/patch-hwc-retire-fence.py): six instructions, each either
stock or already a NOP, are turned into NOPs if the file with all of them stock has the known digest.
 */
module HwcPatch {
  import opened Bytes
  import opened Overwrite

  const NOP: seq<Byte> := [0x1F, 0x20, 0x03, 0xD5]

  datatype Patch = Patch(offset: nat, original: seq<Byte>)

  const PATCHES := [
    Patch(0x23D60, [0x29, 0x08, 0x00, 0x35]), Patch(0x23F00, [0x29, 0x08, 0x00, 0x35]),
    Patch(0x240A0, [0x29, 0x08, 0x00, 0x35]), Patch(0x24234, [0x68, 0x06, 0x00, 0x35]),
    Patch(0x252A0, [0xC8, 0x0F, 0x00, 0x35]), Patch(0x26D54, [0x08, 0x05, 0x00, 0x35])]

  const ORIGINAL_SHA256 := "257ca2f9ec1e952bae2c6caa72efe4d8fff526d70aba80d703d6bb58adcafbd4"

  /** One instruction per site, no two sites overlapping, and every stock instruction different from a NOP. */
  predicate Spaced(table: seq<Patch>) {
    && (forall k :: 0 <= k < |table| ==> |table[k].original| == 4 && table[k].original != NOP)
    && (forall j, k :: 0 <= j < k < |table| ==> SitesApart(table, j, k))
  }

  predicate SitesApart(table: seq<Patch>, j: nat, k: nat)
    requires j < |table| && k < |table|
  {
    Apart(table[j].offset, 4, table[k].offset, 4)
  }

  lemma PatchesSpaced()
    ensures Spaced(PATCHES)
  {
  }

  predicate IsNop(d: seq<Byte>, p: Patch) { At(d, p.offset, NOP) }

  predicate Known(d: seq<Byte>, p: Patch) { At(d, p.offset, p.original) || IsNop(d, p) }

  predicate AllKnown(d: seq<Byte>, table: seq<Patch>) {
    forall k :: 0 <= k < |table| ==> Known(d, table[k])
  }

  // ----- writing every site

  datatype Fill = Stock | Nops

  function FillOf(p: Patch, w: Fill): seq<Byte> { if w.Stock? then p.original else NOP }

  /** The first `n` sites all stock, or all NOPs. */
  function Fixed(d: seq<Byte>, table: seq<Patch>, n: nat, w: Fill): seq<Byte>
    requires n <= |table|
  {
    if n == 0 then d else Splice(Fixed(d, table, n - 1, w), table[n - 1].offset, FillOf(table[n - 1], w))
  }

  function All(d: seq<Byte>, table: seq<Patch>, w: Fill): seq<Byte> { Fixed(d, table, |table|, w) }

  predicate SitesInFile(d: seq<Byte>, table: seq<Patch>) {
    forall k :: 0 <= k < |table| ==> table[k].offset + 4 <= |d|
  }

  predicate InSite(p: Patch, i: nat) { p.offset <= i < p.offset + 4 }

  /** Position `i` belongs to one of the first `n` sites. */
  predicate InSites(table: seq<Patch>, n: nat, i: nat)
    requires n <= |table|
  {
    n > 0 && (InSite(table[n - 1], i) || InSites(table, n - 1, i))
  }

  /** Byte by byte: what `Fixed` puts at `i` depends on `d` only outside the sites. */
  function FixedByte(d: seq<Byte>, table: seq<Patch>, n: nat, w: Fill, i: nat): Byte
    requires n <= |table| && Spaced(table)
  {
    if n == 0 then ByteAt(d, i)
    else if InSite(table[n - 1], i) then FillOf(table[n - 1], w)[i - table[n - 1].offset]
    else FixedByte(d, table, n - 1, w, i)
  }

  lemma {:induction false} FixedIs(d: seq<Byte>, table: seq<Patch>, n: nat, w: Fill, i: nat)
    requires n <= |table| && Spaced(table) && SitesInFile(d, table)
    ensures |Fixed(d, table, n, w)| == |d|
    ensures ByteAt(Fixed(d, table, n, w), i) == FixedByte(d, table, n, w, i)
  {
    if n > 0 {
      FixedIs(d, table, n - 1, w, i);
      SpliceAt(Fixed(d, table, n - 1, w), table[n - 1].offset, FillOf(table[n - 1], w), i);
    }
  }

  /** Outside the sites nothing changes; inside, the old content does not matter. */
  lemma {:induction false} FixedByteOf(d: seq<Byte>, e: seq<Byte>, table: seq<Patch>, n: nat, w: Fill, i: nat)
    requires n <= |table| && Spaced(table)
    ensures !InSites(table, n, i) ==> FixedByte(d, table, n, w, i) == ByteAt(d, i)
    ensures InSites(table, n, i) || ByteAt(d, i) == ByteAt(e, i) ==>
              FixedByte(d, table, n, w, i) == FixedByte(e, table, n, w, i)
  {
    if n > 0 {
      FixedByteOf(d, e, table, n - 1, w, i);
    }
  }

  lemma SameBytes(a: seq<Byte>, b: seq<Byte>)
    requires |a| == |b| && forall i :: 0 <= i < |a| ==> ByteAt(a, i) == ByteAt(b, i)
    ensures a == b
  {
    forall i | 0 <= i < |a| ensures a[i] == b[i] {
      assert ByteAt(a, i) == ByteAt(b, i);
    }
  }

  /** A second filling hides the first. */
  lemma LastFillingWins(d: seq<Byte>, table: seq<Patch>, v: Fill, w: Fill)
    requires Spaced(table) && SitesInFile(d, table)
    ensures |All(d, table, v)| == |d| && All(All(d, table, v), table, w) == All(d, table, w)
  {
    var c := All(d, table, v);
    FixedIs(d, table, |table|, v, 0);
    FixedIs(c, table, |table|, w, 0);
    FixedIs(d, table, |table|, w, 0);
    forall i | 0 <= i < |d| ensures ByteAt(All(c, table, w), i) == ByteAt(All(d, table, w), i) {
      FixedIs(d, table, |table|, v, i);
      FixedIs(c, table, |table|, w, i);
      FixedIs(d, table, |table|, w, i);
      FixedByteOf(d, d, table, |table|, v, i);
      FixedByteOf(c, d, table, |table|, w, i);
    }
    SameBytes(All(c, table, w), All(d, table, w));
  }

  // ----- what stands at the sites

  lemma KnownInFile(d: seq<Byte>, table: seq<Patch>)
    requires Spaced(table) && AllKnown(d, table)
    ensures SitesInFile(d, table)
  {
    forall k | 0 <= k < |table| ensures table[k].offset + 4 <= |d| {
      assert Known(d, table[k]);
      AtByte(d, table[k].offset, if IsNop(d, table[k]) then NOP else table[k].original, 0);
    }
  }

  lemma {:induction false} FixedShows(d: seq<Byte>, table: seq<Patch>, n: nat, w: Fill, k: nat)
    requires k < n <= |table| && Spaced(table) && SitesInFile(d, table)
    ensures At(Fixed(d, table, n, w), table[k].offset, FillOf(table[k], w))
  {
    FixedIs(d, table, n - 1, w, 0);
    var before := Fixed(d, table, n - 1, w);
    if k == n - 1 {
      SpliceShows(before, table[k].offset, FillOf(table[k], w));
    } else {
      FixedShows(d, table, n - 1, w, k);
      assert SitesApart(table, k, n - 1);
      SpliceKeeps(before, table[n - 1].offset, FillOf(table[n - 1], w), table[k].offset, FillOf(table[k], w));
    }
  }

  lemma {:induction false} FixedLater(d: seq<Byte>, table: seq<Patch>, n: nat, w: Fill, k: nat)
    requires n <= k < |table| && Spaced(table) && SitesInFile(d, table)
    ensures IsNop(Fixed(d, table, n, w), table[k]) == IsNop(d, table[k])
  {
    if n > 0 {
      FixedIs(d, table, n - 1, w, 0);
      FixedLater(d, table, n - 1, w, k);
      assert SitesApart(table, n - 1, k);
      SpliceKeeps(Fixed(d, table, n - 1, w), table[n - 1].offset, FillOf(table[n - 1], w), table[k].offset, NOP);
    }
  }

  /** The sites among the first `n` that still hold the stock instruction. */
  function Unpatched(d: seq<Byte>, table: seq<Patch>, n: nat): set<nat>
    requires n <= |table|
  {
    set k: nat | k < n && At(d, table[k].offset, table[k].original)
  }

  lemma UnpatchedStep(d: seq<Byte>, table: seq<Patch>, n: nat)
    requires n < |table| && Spaced(table) && AllKnown(d, table)
    ensures |Unpatched(d, table, n + 1)| == |Unpatched(d, table, n)| + if IsNop(d, table[n]) then 0 else 1
  {
    var p := table[n];
    assert Known(d, p);
    if IsNop(d, p) {
      NotBoth(d, p);
      assert Unpatched(d, table, n + 1) == Unpatched(d, table, n);
    } else {
      assert Unpatched(d, table, n + 1) == Unpatched(d, table, n) + {n};
    }
  }

  lemma NotBoth(d: seq<Byte>, p: Patch)
    requires |p.original| == 4 && p.original != NOP && IsNop(d, p)
    ensures !At(d, p.offset, p.original)
  {
    AtByte(d, p.offset, NOP, 0);
    AtIsSlice(d, p.offset, NOP);
    AtIsSlice(d, p.offset, p.original);
  }

  // ----- acceptance and result, said about the bytes alone

  /** Position `i` belongs to no site. */
  predicate Outside(table: seq<Patch>, i: nat) {
    forall k :: 0 <= k < |table| ==> !(table[k].offset <= i < table[k].offset + 4)
  }

  /** `n` has the stock instruction at every site and is otherwise `d`. */
  ghost predicate StockFormOf(n: seq<Byte>, d: seq<Byte>, table: seq<Patch>) {
    && |n| == |d|
    && (forall k :: 0 <= k < |table| ==> At(n, table[k].offset, table[k].original))
    && forall i :: 0 <= i < |d| && Outside(table, i) ==> n[i] == d[i]
  }

  /** `n` has a NOP at every site and is otherwise `d`. */
  ghost predicate NopFormOf(n: seq<Byte>, d: seq<Byte>, table: seq<Patch>) {
    && |n| == |d|
    && (forall k :: 0 <= k < |table| ==> At(n, table[k].offset, [0x1F, 0x20, 0x03, 0xD5]))
    && forall i :: 0 <= i < |d| && Outside(table, i) ==> n[i] == d[i]
  }

  /** `d` shows the stock instruction or a NOP at every site. */
  ghost predicate ShowsKnown(d: seq<Byte>, table: seq<Patch>) {
    forall k :: 0 <= k < |table| ==>
      At(d, table[k].offset, table[k].original) || At(d, table[k].offset, [0x1F, 0x20, 0x03, 0xD5])
  }

  lemma {:induction false} OutsideIs(table: seq<Patch>, n: nat, i: nat)
    requires n <= |table|
    ensures !InSites(table, n, i) <==> forall k :: 0 <= k < n ==> !(table[k].offset <= i < table[k].offset + 4)
  {
    if n > 0 {
      OutsideIs(table, n - 1, i);
    }
  }

  lemma OutsideKept(d: seq<Byte>, table: seq<Patch>, w: Fill)
    requires Spaced(table) && SitesInFile(d, table)
    ensures |All(d, table, w)| == |d|
    ensures forall i :: 0 <= i < |d| && Outside(table, i) ==> All(d, table, w)[i] == d[i]
  {
    FixedIs(d, table, |table|, w, 0);
    forall i | 0 <= i < |d| && Outside(table, i) ensures All(d, table, w)[i] == d[i] {
      OutsideIs(table, |table|, i);
      FixedIs(d, table, |table|, w, i);
      FixedByteOf(d, d, table, |table|, w, i);
    }
  }

  /** The scripts' rewriting gives the two forms. */
  lemma FormsOf(d: seq<Byte>, table: seq<Patch>)
    requires Spaced(table) && SitesInFile(d, table)
    ensures StockFormOf(All(d, table, Stock), d, table) && NopFormOf(All(d, table, Nops), d, table)
  {
    OutsideKept(d, table, Stock);
    OutsideKept(d, table, Nops);
    forall k | 0 <= k < |table|
      ensures At(All(d, table, Stock), table[k].offset, table[k].original)
      ensures At(All(d, table, Nops), table[k].offset, NOP)
    {
      FixedShows(d, table, |table|, Stock, k);
      FixedShows(d, table, |table|, Nops, k);
    }
  }

  /** There is only one stock form. */
  lemma OneStockForm(n: seq<Byte>, d: seq<Byte>, table: seq<Patch>)
    requires Spaced(table) && SitesInFile(d, table) && StockFormOf(n, d, table)
    ensures n == All(d, table, Stock)
  {
    FormsOf(d, table);
    var m := All(d, table, Stock);
    forall i | 0 <= i < |d| ensures n[i] == m[i] {
      if k :| 0 <= k < |table| && table[k].offset <= i < table[k].offset + 4 {
        SameAt(n, m, table[k].offset, table[k].original, i);
      } else {
        assert Outside(table, i);
      }
    }
  }

  lemma SameAt(n: seq<Byte>, m: seq<Byte>, o: nat, p: seq<Byte>, i: nat)
    requires At(n, o, p) && At(m, o, p) && o <= i < o + |p|
    ensures i < |n| && i < |m| && n[i] == m[i]
  {
    AtByte(n, o, p, i - o);
    AtByte(m, o, p, i - o);
  }

  lemma UnpatchedIs(d: seq<Byte>, table: seq<Patch>)
    ensures Unpatched(d, table, |table|) == set k: nat | k < |table| && At(d, table[k].offset, table[k].original)
  {
  }

  /** What is accepted: known instructions at all sites, and a stock form with the digest. */
  lemma AcceptsIs(digest: seq<Byte> -> string, d: seq<Byte>, table: seq<Patch>)
    requires Spaced(table)
    ensures Accepts(digest, d, table) <==>
              ShowsKnown(d, table) && exists n :: StockFormOf(n, d, table) && digest(n) == ORIGINAL_SHA256
  {
    ShowsKnownIs(d, table);
    if AllKnown(d, table) {
      KnownInFile(d, table);
      FormsOf(d, table);
      forall n | StockFormOf(n, d, table) ensures n == All(d, table, Stock) {
        OneStockForm(n, d, table);
      }
    }
  }

  lemma ShowsKnownIs(d: seq<Byte>, table: seq<Patch>)
    ensures ShowsKnown(d, table) <==> AllKnown(d, table)
  {
    if AllKnown(d, table) {
      forall k | 0 <= k < |table|
        ensures At(d, table[k].offset, table[k].original) || At(d, table[k].offset, NOP)
      {
        assert Known(d, table[k]);
      }
    }
  }

  /**
  For a digest that only `stock` has, the accepted files are exactly the mixtures of patched and
  unpatched sites of `stock`.
   */
  lemma OnlyMixtures(digest: seq<Byte> -> string, stock: seq<Byte>, d: seq<Byte>, table: seq<Patch>)
    requires Spaced(table) && forall x :: digest(x) == ORIGINAL_SHA256 <==> x == stock
    ensures Accepts(digest, d, table) <==> ShowsKnown(d, table) && StockFormOf(stock, d, table)
  {
    AcceptsIs(digest, d, table);
  }

  // ----- the run

  /** Every site is known and the file with all of them stock has the digest. */
  predicate Accepts(digest: seq<Byte> -> string, d: seq<Byte>, table: seq<Patch>) {
    AllKnown(d, table) && digest(All(d, table, Stock)) == ORIGINAL_SHA256
  }

  /** The checking loop. */
  method Normalise(blob: seq<Byte>, table: seq<Patch>) returns (ok: bool, normalized: seq<Byte>)
    ensures ok == AllKnown(blob, table)
    ensures ok ==> normalized == All(blob, table, Stock)
  {
    normalized := blob;
    var n := 0;
    while n < |table|
      invariant n <= |table| && normalized == Fixed(blob, table, n, Stock)
      invariant forall k :: 0 <= k < n ==> Known(blob, table[k])
    {
      var p := table[n];
      if !At(blob, p.offset, p.original) && !At(blob, p.offset, NOP) {
        assert !Known(blob, table[n]);
        return false, normalized;
      }
      normalized := Splice(normalized, p.offset, p.original);
      n := n + 1;
    }
    ok := true;
  }

  /** One turn of the patching loop: skipping a NOP is as good as writing it again. */
  lemma NopStep(d: seq<Byte>, table: seq<Patch>, n: nat)
    requires n < |table| && Spaced(table) && AllKnown(d, table)
    ensures At(Fixed(d, table, n, Nops), table[n].offset, NOP) ==>
      && Fixed(d, table, n + 1, Nops) == Fixed(d, table, n, Nops)
      && |Unpatched(d, table, n + 1)| == |Unpatched(d, table, n)|
    ensures !At(Fixed(d, table, n, Nops), table[n].offset, NOP) ==>
      && Fixed(d, table, n + 1, Nops) == Splice(Fixed(d, table, n, Nops), table[n].offset, NOP)
      && |Unpatched(d, table, n + 1)| == |Unpatched(d, table, n)| + 1
  {
    KnownInFile(d, table);
    UnpatchedStep(d, table, n);
    FixedLater(d, table, n, Nops, n);
    if At(Fixed(d, table, n, Nops), table[n].offset, NOP) {
      SpliceOfSame(Fixed(d, table, n, Nops), table[n].offset, NOP);
    }
  }

  /** The patching loop. */
  method ApplyNops(path: seq<Byte>, table: seq<Patch>) returns (blob: seq<Byte>, changed: nat)
    requires Spaced(table) && AllKnown(path, table)
    ensures blob == All(path, table, Nops) && changed == |Unpatched(path, table, |table|)|
    ensures changed == 0 ==> blob == path
  {
    blob := path;
    changed := 0;
    var n := 0;
    while n < |table|
      invariant n <= |table| && blob == Fixed(path, table, n, Nops)
      invariant changed == |Unpatched(path, table, n)| && (changed == 0 ==> blob == path)
    {
      var p := table[n];
      NopStep(path, table, n);
      if !At(blob, p.offset, NOP) {
        blob := Splice(blob, p.offset, NOP);
        changed := changed + 1;
      }
      n := n + 1;
    }
  }

  /** `file` is what the path holds afterwards; `changed` the reported number of sites. */
  method PatchFile(digest: seq<Byte> -> string, path: seq<Byte>, table: seq<Patch>)
    returns (status: nat, file: seq<Byte>, changed: nat)
    requires Spaced(table)
    ensures status == 0 || status == 1
    ensures status == 0 <==>
              ShowsKnown(path, table) && exists n :: StockFormOf(n, path, table) && digest(n) == ORIGINAL_SHA256
    ensures status != 0 ==> file == path && changed == 0
    ensures status == 0 ==>
              && NopFormOf(file, path, table) && file == All(path, table, Nops)
              && changed == |set k: nat | k < |table| && At(path, table[k].offset, table[k].original)|
  {
    AcceptsIs(digest, path, table);
    var ok, normalized := Normalise(path, table);
    if !ok || digest(normalized) != ORIGINAL_SHA256 {
      return 1, path, 0;
    }
    var blob;
    KnownInFile(path, table);
    FormsOf(path, table);
    UnpatchedIs(path, table);
    blob, changed := ApplyNops(path, table);
    if changed == 0 {
      return 0, path, 0;
    }
    return 0, blob, changed;
  }

  method PatchHwc(digest: seq<Byte> -> string, path: seq<Byte>) returns (status: nat, file: seq<Byte>, changed: nat)
    ensures status == 0 || status == 1
    ensures status == 0 <==>
              ShowsKnown(path, PATCHES) && exists n :: StockFormOf(n, path, PATCHES) && digest(n) == ORIGINAL_SHA256
    ensures status != 0 ==> file == path && changed == 0
    ensures status == 0 ==>
              && NopFormOf(file, path, PATCHES) && file == All(path, PATCHES, Nops)
              && changed == |set k: nat | k < 6 && At(path, PATCHES[k].offset, PATCHES[k].original)|
  {
    PatchesSpaced();
    assert |PATCHES| == 6;
    status, file, changed := PatchFile(digest, path, PATCHES);
  }

  // ----- convergence

  /** Two files end up the same exactly when they have the same normalised form. */
  lemma Converges(d: seq<Byte>, e: seq<Byte>, table: seq<Patch>)
    requires Spaced(table) && AllKnown(d, table) && AllKnown(e, table)
    ensures All(d, table, Nops) == All(e, table, Nops) <==> All(d, table, Stock) == All(e, table, Stock)
  {
    KnownInFile(d, table);
    KnownInFile(e, table);
    LastFillingWins(d, table, Stock, Nops);
    LastFillingWins(e, table, Stock, Nops);
    LastFillingWins(d, table, Nops, Stock);
    LastFillingWins(e, table, Nops, Stock);
  }

  /** Only the sites change, and all of them are NOPs afterwards. */
  lemma OnlyTheSites(d: seq<Byte>, table: seq<Patch>, i: nat)
    requires Spaced(table) && AllKnown(d, table)
    ensures |All(d, table, Nops)| == |d|
    ensures !InSites(table, |table|, i) ==> ByteAt(All(d, table, Nops), i) == ByteAt(d, i)
    ensures forall k :: 0 <= k < |table| ==> IsNop(All(d, table, Nops), table[k])
  {
    KnownInFile(d, table);
    FixedIs(d, table, |table|, Nops, i);
    FixedByteOf(d, d, table, |table|, Nops, i);
    forall k | 0 <= k < |table| ensures IsNop(All(d, table, Nops), table[k]) {
      FixedShows(d, table, |table|, Nops, k);
    }
  }

  /** A second run is accepted, finds nothing to do and leaves the file as it is. */
  lemma SecondRun(digest: seq<Byte> -> string, d: seq<Byte>, table: seq<Patch>)
    requires Spaced(table) && Accepts(digest, d, table)
    ensures Accepts(digest, All(d, table, Nops), table)
    ensures Unpatched(All(d, table, Nops), table, |table|) == {}
    ensures All(All(d, table, Nops), table, Nops) == All(d, table, Nops)
  {
    var c := All(d, table, Nops);
    KnownInFile(d, table);
    OnlyTheSites(d, table, 0);
    LastFillingWins(d, table, Nops, Nops);
    LastFillingWins(d, table, Nops, Stock);
    forall k | 0 <= k < |table| ensures !At(c, table[k].offset, table[k].original) {
      NotBoth(c, table[k]);
    }
  }

  /** Any mixture of patched and unpatched sites of one stock file leads to the same file. */
  lemma MixturesConverge(digest: seq<Byte> -> string, stock: seq<Byte>, d: seq<Byte>, table: seq<Patch>)
    requires Spaced(table) && AllKnown(d, table) && |d| == |stock|
    requires forall k :: 0 <= k < |table| ==> At(stock, table[k].offset, table[k].original)
    requires forall i :: 0 <= i < |d| && !InSites(table, |table|, i) ==> ByteAt(d, i) == ByteAt(stock, i)
    ensures All(d, table, Stock) == stock && All(d, table, Nops) == All(stock, table, Nops)
    ensures Accepts(digest, d, table) <==> Accepts(digest, stock, table)
  {
    KnownInFile(d, table);
    KnownInFile(stock, table);
    forall k | 0 <= k < |table| ensures StockAt(stock, table, k) {
    }
    StockIsStock(stock, table, |table|);
    FixedIs(d, table, |table|, Stock, 0);
    forall i | 0 <= i < |d| ensures ByteAt(All(d, table, Stock), i) == ByteAt(All(stock, table, Stock), i) {
      FixedIs(d, table, |table|, Stock, i);
      FixedIs(stock, table, |table|, Stock, i);
      FixedByteOf(d, stock, table, |table|, Stock, i);
    }
    SameBytes(All(d, table, Stock), stock);
    Converges(d, stock, table);
  }

  /** Site `k` shows its stock instruction. */
  predicate StockAt(d: seq<Byte>, table: seq<Patch>, k: nat)
    requires k < |table|
  {
    At(d, table[k].offset, table[k].original)
  }

  lemma StockSplice(d: seq<Byte>, table: seq<Patch>, k: nat)
    requires k < |table| && StockAt(d, table, k) && table[k].original != []
    ensures Splice(d, table[k].offset, FillOf(table[k], Stock)) == d
  {
    SpliceOfSame(d, table[k].offset, table[k].original);
  }

  lemma {:induction false} StockIsStock(d: seq<Byte>, table: seq<Patch>, n: nat)
    requires n <= |table| && Spaced(table) && forall k :: 0 <= k < |table| ==> StockAt(d, table, k)
    ensures Fixed(d, table, n, Stock) == d
  {
    if n > 0 {
      StockIsStock(d, table, n - 1);
      StockSplice(d, table, n - 1);
    }
  }
}

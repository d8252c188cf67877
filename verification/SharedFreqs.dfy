/**
Collecting the radio frequencies in use (mtk_get_shared_radio_freqs_data and
mtk_get_shared_radio_freqs, wpa_supplicant_8_lib/mediatek_driver_cmd_nl80211.c): a walk over
the interfaces that keeps distinct frequencies in a bounded array.
 */
module SharedFreqs {
  import opened Options

  datatype Mode = Infra | Ap | P2pGo | OtherMode

  datatype Ssid = Ssid(mode: Mode, frequency: int, p2pGroup: bool)

  /** `hasBssid`: whether wpa_drv_get_bssid succeeds for the interface. */
  datatype Iface = Iface(ssid: Option<Ssid>, assocFreq: int, hasBssid: bool)

  datatype FreqData = FreqData(freq: int, flags: int)

  const USED_BY_INFRA_STATION := 1
  const USED_BY_P2P_CLIENT := 2

  // ----- the reference

  /** The frequency an interface contributes, if it qualifies. */
  function Effective(f: Iface): Option<int> {
    if f.ssid.None? || f.assocFreq == 0 then None
    else if f.ssid.value.mode == Ap || f.ssid.value.mode == P2pGo then Some(f.ssid.value.frequency)
    else if f.hasBssid then Some(f.assocFreq)
    else None
  }

  /** The list of distinct frequencies after one more interface. */
  function Added(before: seq<int>, e: Option<int>): seq<int> {
    if e.Some? && e.value !in before then before + [e.value] else before
  }

  /** Distinct effective frequencies, in order of first occurrence. */
  function Distinct(fs: seq<Iface>): (r: seq<int>)
    ensures forall i, j :: 0 <= i < j < |r| ==> r[i] != r[j]
  {
    if fs == [] then []
    else
      Added(Distinct(fs[..|fs| - 1]), Effective(fs[|fs| - 1]))
  }

  /** The interfaces that are looked at: the walk stops once `len` frequencies are found. */
  function Seen(fs: seq<Iface>, len: nat): seq<Iface> {
    if fs == [] then []
    else
      var before := Seen(fs[..|fs| - 1], len);
      if |Distinct(before)| >= len then before else before + [fs[|fs| - 1]]
  }

  /** The mark left by the last station interface on `freq`; 0 without one. */
  function FlagsOf(fs: seq<Iface>, freq: int): int {
    if fs == [] then 0
    else
      var f := fs[|fs| - 1];
      if Effective(f) == Some(freq) && f.ssid.value.mode == Infra
      then (if f.ssid.value.p2pGroup then USED_BY_P2P_CLIENT else USED_BY_INFRA_STATION)
      else FlagsOf(fs[..|fs| - 1], freq)
  }

  function Min(a: nat, b: nat): nat { if a < b then a else b }

  lemma DistinctAppend(fs: seq<Iface>, f: Iface)
    ensures Distinct(fs + [f]) == Added(Distinct(fs), Effective(f))
  {
    assert (fs + [f])[..|fs|] == fs;
  }

  function Cut(r: seq<int>, len: nat): seq<int> { r[..Min(len, |r|)] }

  /** The bound cuts the list of distinct frequencies, it does not change it. */
  lemma {:induction false} SeenIsEnough(fs: seq<Iface>, len: nat)
    ensures Distinct(Seen(fs, len)) == Distinct(fs)[..Min(len, |Distinct(fs)|)]
    ensures |Distinct(Seen(fs, len))| < len ==> Seen(fs, len) == fs
  {
    if fs != [] {
      var front, last := fs[..|fs| - 1], fs[|fs| - 1];
      SeenIsEnough(front, len);
      assert fs == front + [last];
      SeenOneMore(front, last, len);
    }
  }

  lemma SeenOneMore(fs: seq<Iface>, f: Iface, len: nat)
    requires Distinct(Seen(fs, len)) == Cut(Distinct(fs), len)
    requires |Distinct(Seen(fs, len))| < len ==> Seen(fs, len) == fs
    ensures Distinct(Seen(fs + [f], len)) == Cut(Distinct(fs + [f]), len)
    ensures |Distinct(Seen(fs + [f], len))| < len ==> Seen(fs + [f], len) == fs + [f]
  {
    SeenAppend(fs, f, len);
    DistinctAppend(fs, f);
    if |Distinct(Seen(fs, len))| >= len {
      StillCut(Distinct(fs), Effective(f), len);
    } else {
      NotYetCut(Distinct(fs), Effective(f), len);
    }
  }

  lemma SeenAppend(fs: seq<Iface>, f: Iface, len: nat)
    ensures Seen(fs + [f], len) == if |Distinct(Seen(fs, len))| >= len then Seen(fs, len) else Seen(fs, len) + [f]
  {
    assert (fs + [f])[..|fs|] == fs;
  }

  /** Below the bound there is room for one more. */
  lemma NotYetCut(before: seq<int>, e: Option<int>, len: nat)
    requires |before| < len
    ensures Cut(Added(before, e), len) == Added(before, e)
  {
  }

  /** Adding behind the bound changes nothing before it. */
  lemma StillCut(before: seq<int>, e: Option<int>, len: nat)
    requires len <= |before|
    ensures Cut(Added(before, e), len) == Cut(before, len)
  {
  }

  /** A frequency that was never seen has no mark. */
  lemma {:induction false} NoFlagsBefore(fs: seq<Iface>, freq: int)
    requires freq !in Distinct(fs)
    ensures FlagsOf(fs, freq) == 0
  {
    if fs != [] {
      NoFlagsBefore(fs[..|fs| - 1], freq);
    }
  }

  // ----- the reference, said about the interfaces

  /** The interface is associated and uses `freq`: its own as AP or group owner, else that of its association. */
  predicate Uses(f: Iface, freq: int) {
    && f.ssid.Some? && f.assocFreq != 0
    && if f.ssid.value.mode == Ap || f.ssid.value.mode == P2pGo then f.ssid.value.frequency == freq
       else f.hasBssid && f.assocFreq == freq
  }

  /** Interface `i` is the first to use `freq`. */
  predicate FirstUser(fs: seq<Iface>, freq: int, i: nat) {
    i < |fs| && Uses(fs[i], freq) && forall k :: 0 <= k < i ==> !Uses(fs[k], freq)
  }

  lemma UsesEffective(f: Iface, freq: int)
    ensures Uses(f, freq) <==> Effective(f) == Some(freq)
  {
  }

  /** The list holds each frequency in use, placed by its first user. */
  ghost predicate Lists(r: seq<int>, fs: seq<Iface>, first: seq<nat>) {
    && |first| == |r|
    && (forall x :: 0 <= x < |r| ==> FirstUser(fs, r[x], first[x]))
    && (forall x, y :: 0 <= x < y < |r| ==> first[x] < first[y])
    && (forall i, freq :: 0 <= i < |fs| && Uses(fs[i], freq) ==> freq in r)
  }

  /** The distinct frequencies are those in use, in the order of their first users. */
  lemma {:induction false} DistinctIs(fs: seq<Iface>) returns (first: seq<nat>)
    ensures Lists(Distinct(fs), fs, first)
  {
    if fs == [] {
      return [];
    }
    var front, f := fs[..|fs| - 1], fs[|fs| - 1];
    assert fs == front + [f];
    first := DistinctIs(front);
    DistinctAppend(front, f);
    first := ListsNext(Distinct(front), front, first, f);
  }

  lemma ListsNext(r: seq<int>, fs: seq<Iface>, first: seq<nat>, f: Iface) returns (next: seq<nat>)
    requires Lists(r, fs, first)
    ensures Lists(Added(r, Effective(f)), fs + [f], next)
  {
    var all := fs + [f];
    next := first;
    forall x | 0 <= x < |r| ensures FirstUser(all, r[x], first[x]) {
      assert FirstUser(fs, r[x], first[x]);
    }
    if Effective(f).Some? {
      var freq := Effective(f).value;
      UsesEffective(f, freq);
      if freq !in r {
        next := first + [|fs|];
        assert FirstUser(all, freq, |fs|);
      }
    }
    forall i, freq | 0 <= i < |all| && Uses(all[i], freq) ensures freq in Added(r, Effective(f)) {
      if i < |fs| {
        assert Uses(fs[i], freq);
      } else {
        UsesEffective(f, freq);
      }
    }
  }

  /** Interface `k` is the last one in infrastructure mode that uses `freq`. */
  predicate LastStation(fs: seq<Iface>, freq: int, k: nat) {
    k < |fs| && IsStation(fs[k], freq) && forall j :: k < j < |fs| ==> !IsStation(fs[j], freq)
  }

  /** `x` is the mark of the last station on `freq`, 2 for a P2P client and 1 otherwise; 0 without a station. */
  ghost predicate MarkIs(fs: seq<Iface>, freq: int, x: int) {
    || ((forall j :: 0 <= j < |fs| ==> !IsStation(fs[j], freq)) && x == 0)
    || exists k: nat :: LastStation(fs, freq, k) && x == if fs[k].ssid.value.p2pGroup then 2 else 1
  }

  predicate IsStation(f: Iface, freq: int) { Uses(f, freq) && f.ssid.value.mode == Infra }

  lemma MarkStays(fs: seq<Iface>, f: Iface, freq: int, x: int)
    requires MarkIs(fs, freq, x) && !IsStation(f, freq)
    ensures MarkIs(fs + [f], freq, x)
  {
    var all := fs + [f];
    if k: nat :| LastStation(fs, freq, k) && x == if fs[k].ssid.value.p2pGroup then 2 else 1 {
      assert all[k] == fs[k];
      assert LastStation(all, freq, k);
    }
  }

  lemma {:induction false} MarkOf(fs: seq<Iface>, freq: int)
    ensures MarkIs(fs, freq, FlagsOf(fs, freq))
  {
    if fs != [] {
      var front, f := fs[..|fs| - 1], fs[|fs| - 1];
      assert fs == front + [f];
      MarkOf(front, freq);
      UsesEffective(f, freq);
      if IsStation(f, freq) {
        assert LastStation(fs, freq, |fs| - 1);
      } else {
        MarkStays(front, f, freq, FlagsOf(front, freq));
      }
    }
  }

  /** The first `j` interfaces use at least `len` frequencies. */
  predicate Full(fs: seq<Iface>, j: nat, len: nat) {
    j <= |fs| && |Distinct(fs[..j])| >= len
  }

  lemma FullInFront(fs: seq<Iface>, j: nat, len: nat)
    requires j < |fs|
    ensures Full(fs[..|fs| - 1], j, len) == Full(fs, j, len)
  {
    assert fs[..|fs| - 1][..j] == fs[..j];
  }

  /** The interfaces looked at are the shortest beginning that has `len` frequencies, or all of them. */
  lemma {:induction false} SeenIs(fs: seq<Iface>, len: nat) returns (k: nat)
    ensures k <= |fs| && Seen(fs, len) == fs[..k] && (k < |fs| ==> Full(fs, k, len))
    ensures forall j :: 0 <= j < k ==> !Full(fs, j, len)
  {
    if fs == [] {
      return 0;
    }
    var front := fs[..|fs| - 1];
    var n := SeenIs(front, len);
    assert front[..n] == fs[..n];
    forall j | 0 <= j < |fs| ensures Full(front, j, len) == Full(fs, j, len) {
      FullInFront(fs, j, len);
    }
    k := SeenNext(fs, n, len);
  }

  lemma SeenNext(fs: seq<Iface>, n: nat, len: nat) returns (k: nat)
    requires fs != [] && n < |fs| && Seen(fs[..|fs| - 1], len) == fs[..n]
    requires n < |fs| - 1 ==> Full(fs, n, len)
    ensures n <= k <= |fs| && Seen(fs, len) == fs[..k] && (k < |fs| ==> Full(fs, k, len))
    ensures k > n ==> k == |fs| == n + 1 && !Full(fs, n, len)
  {
    k := if |Distinct(fs[..n])| >= len then n else |fs|;
    if k > n {
      assert fs == fs[..n] + [fs[|fs| - 1]];
    }
  }

  // ----- the collectors

  /** The first `idx` entries are the distinct frequencies of `seen` with their marks, the rest zero. */
  ghost predicate Holds(data: seq<FreqData>, idx: nat, len: nat, seen: seq<Iface>) {
    && idx == |Distinct(seen)| <= len <= |data|
    && (forall i :: 0 <= i < idx ==> data[i] == FreqData(Distinct(seen)[i], FlagsOf(seen, Distinct(seen)[i])))
    && (forall i :: idx <= i < len ==> data[i] == FreqData(0, 0))
  }

  /** The inner loop: where the frequency is already kept, or `idx`. */
  method Find(data: array<FreqData>, idx: nat, freq: int) returns (i: nat)
    requires idx <= data.Length
    ensures i <= idx && (i < idx ==> data[i].freq == freq)
    ensures forall j :: 0 <= j < i ==> data[j].freq != freq
  {
    i := 0;
    while i < idx
      invariant i <= idx && forall j :: 0 <= j < i ==> data[j].freq != freq
    {
      if data[i].freq == freq {
        break;
      }
      i := i + 1;
    }
  }

  /** What the loop body does with one interface. */
  method Take(data: array<FreqData>, idx: nat, len: nat, f: Iface, ghost seen: seq<Iface>) returns (next: nat)
    requires Holds(data[..], idx, len, seen) && idx < len
    modifies data
    ensures Holds(data[..], next, len, seen + [f])
    ensures forall i :: len <= i < data.Length ==> data[i] == old(data[i])
  {
    next := idx;
    assert (seen + [f])[..|seen|] == seen;
    if f.ssid.None? || f.assocFreq == 0 {
      return;
    }
    var freq;
    if f.ssid.value.mode == Ap || f.ssid.value.mode == P2pGo {
      freq := f.ssid.value.frequency;
    } else if f.hasBssid {
      freq := f.assocFreq;
    } else {
      return;
    }
    var i := Find(data, idx, freq);
    assert forall j :: 0 <= j < idx ==> data[..][j] == data[j];
    if i == idx {
      assert freq !in Distinct(seen);
      NoFlagsBefore(seen, freq);
      data[idx] := data[idx].(freq := freq);
      next := idx + 1;
    }
    if f.ssid.value.mode == Infra {
      data[i] := data[i].(flags := if f.ssid.value.p2pGroup then USED_BY_P2P_CLIENT else USED_BY_INFRA_STATION);
    }
  }

  /** memset of the first `len` entries. */
  method Clear(data: array<FreqData>, len: nat)
    requires len <= data.Length
    modifies data
    ensures forall j :: 0 <= j < len ==> data[j] == FreqData(0, 0)
    ensures forall j :: len <= j < data.Length ==> data[j] == old(data[j])
  {
    for i := 0 to len
      invariant forall j :: 0 <= j < i ==> data[j] == FreqData(0, 0)
      invariant forall j :: len <= j < data.Length ==> data[j] == old(data[j])
    {
      data[i] := FreqData(0, 0);
    }
  }

  /** What the array holds, said about all interfaces. */
  lemma HoldsDistinct(data: seq<FreqData>, n: nat, len: nat, fs: seq<Iface>)
    requires Holds(data, n, len, Seen(fs, len))
    ensures n == Min(len, |Distinct(fs)|) && forall i :: 0 <= i < n ==> data[i].freq == Distinct(fs)[i]
  {
    SeenIsEnough(fs, len);
  }

  lemma HoldsNone(data: seq<FreqData>, len: nat, fs: seq<Iface>)
    requires len <= |data| && forall j :: 0 <= j < len ==> data[j] == FreqData(0, 0)
    ensures Holds(data, 0, len, Seen(fs[..0], len))
  {
    assert fs[..0] == [];
  }

  /** One turn of the loop, the array not being full. */
  method TakeNext(data: array<FreqData>, idx: nat, len: nat, fs: seq<Iface>, k: nat) returns (next: nat)
    requires k < |fs| && Holds(data[..], idx, len, Seen(fs[..k], len)) && idx < len
    modifies data
    ensures Holds(data[..], next, len, Seen(fs[..k + 1], len))
    ensures forall i :: len <= i < data.Length ==> data[i] == old(data[i])
  {
    assert fs[..k + 1] == fs[..k] + [fs[k]];
    SeenAppend(fs[..k], fs[k], len);
    next := Take(data, idx, len, fs[k], Seen(fs[..k], len));
  }

  /** mtk_get_shared_radio_freqs_data */
  method SharedFreqsData(fs: seq<Iface>, data: array<FreqData>, len: nat) returns (n: nat)
    requires len <= data.Length
    modifies data
    ensures Holds(data[..], n, len, Seen(fs, len))
    ensures n == Min(len, |Distinct(fs)|) && forall i :: 0 <= i < n ==> data[..][i].freq == Distinct(fs)[i]
    ensures forall i :: len <= i < data.Length ==> data[i] == old(data[i])
  {
    Clear(data, len);
    HoldsNone(data[..], len, fs);
    n := 0;
    var k := 0;
    while k < |fs|
      invariant k <= |fs| && Holds(data[..], n, len, Seen(fs[..k], len))
      invariant forall j :: len <= j < data.Length ==> data[j] == old(data[j])
    {
      if n == len {
        break;
      }
      n := TakeNext(data, n, len, fs, k);
      k := k + 1;
    }
    Collected(data[..], n, len, fs, k);
  }

  /** The loop is over: it saw all interfaces that count. */
  lemma Collected(data: seq<FreqData>, n: nat, len: nat, fs: seq<Iface>, k: nat)
    requires k <= |fs| && Holds(data, n, len, Seen(fs[..k], len)) && (k == |fs| || n == len)
    ensures Holds(data, n, len, Seen(fs, len))
    ensures n == Min(len, |Distinct(fs)|) && forall i :: 0 <= i < n ==> data[i].freq == Distinct(fs)[i]
  {
    SeenStops(fs, k, len);
    HoldsDistinct(data, n, len, fs);
  }

  /** Once full, the remaining interfaces make no difference. */
  lemma {:induction false} SeenStops(fs: seq<Iface>, k: nat, len: nat)
    requires k <= |fs| && (k == |fs| || |Distinct(Seen(fs[..k], len))| >= len)
    ensures Seen(fs, len) == Seen(fs[..k], len)
    decreases |fs|
  {
    if k == |fs| {
      assert fs[..k] == fs;
    } else {
      var front := fs[..|fs| - 1];
      assert front[..k] == fs[..k];
      SeenStops(front, k, len);
    }
  }

  /** mtk_get_shared_radio_freqs; `memory`: whether the temporary array could be had. */
  method CopyFreqs(fs: seq<Iface>, out: array<int>, len: nat, memory: bool) returns (num: int)
    requires len <= out.Length
    modifies out
    ensures num == if memory then Min(len, |Distinct(fs)|) else -1
    ensures forall i :: 0 <= i < len ==> out[i] == if i < num then Distinct(fs)[i] else 0
    ensures forall i :: len <= i < out.Length ==> out[i] == old(out[i])
  {
    for i := 0 to len
      invariant forall j :: 0 <= j < i ==> out[j] == 0
      invariant forall j :: len <= j < out.Length ==> out[j] == old(out[j])
    {
      out[i] := 0;
    }
    if !memory {
      return -1;
    }
    var data := new FreqData[len](_ => FreqData(0, 0));
    var n := SharedFreqsData(fs, data, len);
    assert forall j :: 0 <= j < n ==> data[..][j] == data[j];
    for i := 0 to n
      invariant forall j :: 0 <= j < n ==> data[j].freq == Distinct(fs)[j]
      invariant forall j :: 0 <= j < len ==> out[j] == if j < i then Distinct(fs)[j] else 0
      invariant forall j :: len <= j < out.Length ==> out[j] == old(out[j])
    {
      out[i] := data[i].freq;
    }
    num := n;
  }
}

/**
The OMX plugin (omx/MtkOMXPlugin.cpp) hides the components that cannot work: indices given by
its caller count the usable ones only, while the core underneath counts them all.
 */
module OmxFilter {
  import opened Options

  datatype Error = ErrorNone | ErrorNoMore | ErrorUndefined | ErrorComponentNotFound | Other(code: int)

  /**
  The core underneath: the names it enumerates before its first error, which error that is, and
  how it answers a request for an instance.
   */
  datatype Core = Core(names: seq<string>, end: Error, getHandle: Option<string> -> Error)

  const BROKEN_ENCODER := "OMX.MTK.VIDEO.ENCODER.AVC"
  const DECODER_PREFIX := "OMX.MTK.VIDEO.DECODER."

  predicate StartsWith(s: string, prefix: string) { |prefix| <= |s| && s[..|prefix|] == prefix }

  /** isBrokenComponent; a missing name is not broken. */
  predicate IsBroken(name: Option<string>) {
    name.Some? && (name.value == BROKEN_ENCODER || StartsWith(name.value, DECODER_PREFIX))
  }

  predicate Usable(core: seq<string>, raw: nat)
    requires raw < |core|
  {
    !IsBroken(Some(core[raw]))
  }

  /** The usable names among the first `n` of the core. */
  function Visible(core: seq<string>, n: nat): seq<string>
    requires n <= |core|
  {
    if n == 0 then []
    else if Usable(core, n - 1) then Visible(core, n - 1) + [core[n - 1]]
    else Visible(core, n - 1)
  }

  function AllVisible(core: seq<string>): seq<string> { Visible(core, |core|) }

  /** Where the plugin's index `i` is found in the core. */
  function RawIndex(core: seq<string>, n: nat, i: nat): (raw: nat)
    requires n <= |core| && i < |Visible(core, n)|
    ensures raw < n && Usable(core, raw) && |Visible(core, raw)| == i && core[raw] == Visible(core, n)[i]
  {
    if i < |Visible(core, n - 1)| then RawIndex(core, n - 1, i) else n - 1
  }

  lemma {:induction false} VisiblePrefix(core: seq<string>, m: nat, n: nat)
    requires m <= n <= |core|
    ensures Visible(core, m) <= Visible(core, n)
    decreases n
  {
    if m < n {
      VisiblePrefix(core, m, n - 1);
    }
  }

  /** Counting up meets the usable components in the order of the core. */
  lemma RawIndexIncreases(core: seq<string>, i: nat, j: nat)
    requires i < j < |AllVisible(core)|
    ensures RawIndex(core, |core|, i) < RawIndex(core, |core|, j)
  {
    var r, s := RawIndex(core, |core|, i), RawIndex(core, |core|, j);
    if s <= r {
      VisiblePrefix(core, s, r);
    }
  }

  /** The plugin's index `i` leads to the component at `raw`. */
  predicate MetAt(core: seq<string>, raw: nat, i: nat) {
    i < |AllVisible(core)| && RawIndex(core, |core|, i) == raw
  }

  /** Every usable component is met, at exactly one index: that of the usable ones before it. */
  lemma EachUsableOnce(core: seq<string>, raw: nat)
    requires raw < |core|
    ensures Usable(core, raw) <==> exists i: nat :: MetAt(core, raw, i)
    ensures forall i: nat :: MetAt(core, raw, i) ==> i == |Visible(core, raw)|
  {
    if Usable(core, raw) {
      var i := |Visible(core, raw)|;
      VisiblePrefix(core, raw + 1, |core|);
      var r := RawIndex(core, |core|, i);
      SameCount(core, r, raw);
      assert MetAt(core, raw, i);
    }
  }

  lemma VisibleGrows(core: seq<string>, r: nat, s: nat)
    requires r < s <= |core| && Usable(core, r)
    ensures |Visible(core, r)| < |Visible(core, s)|
  {
    VisiblePrefix(core, r + 1, s);
  }

  lemma SameCount(core: seq<string>, r: nat, s: nat)
    requires r < |core| && s < |core| && Usable(core, r) && Usable(core, s)
    requires |Visible(core, r)| == |Visible(core, s)|
    ensures r == s
  {
    if r < s {
      VisibleGrows(core, r, s);
    } else if s < r {
      VisibleGrows(core, s, r);
    }
  }

  /** Mtk_OMX_ComponentNameEnum up to its first error. */
  function CoreEnum(core: Core, raw: nat): (Error, Option<string>) {
    if raw < |core.names| then (ErrorNone, Some(core.names[raw])) else (core.end, None)
  }

  method EnumerateComponents(loaded: bool, core: Core, index: nat) returns (err: Error, name: Option<string>)
    requires core.end != ErrorNone
    ensures err == if !loaded then ErrorUndefined
                   else if index < |AllVisible(core.names)| then ErrorNone else core.end
    ensures err == ErrorNone ==> name == Some(AllVisible(core.names)[index]) && !IsBroken(name)
    ensures err == ErrorNone ==> name.value != "OMX.MTK.VIDEO.ENCODER.AVC" && !BeginsDecoder(name.value)
  {
    if !loaded {
      return ErrorUndefined, None;
    }
    var visible := 0;
    var raw := 0;
    while true
      invariant raw <= |core.names| && visible == |Visible(core.names, raw)| && visible <= index
      decreases |core.names| - raw
    {
      err, name := CoreEnum(core, raw).0, CoreEnum(core, raw).1;
      if err != ErrorNone {
        return;
      }
      BrokenNames(name.value);
      if !IsBroken(name) {
        if visible == index {
          VisiblePrefix(core.names, raw + 1, |core.names|);
          return;
        }
        visible := visible + 1;
      }
      raw := raw + 1;
    }
  }

  predicate BeginsDecoder(name: string) { |name| >= 22 && name[..22] == "OMX.MTK.VIDEO.DECODER." }

  /** The refused names: one encoder, and everything that begins like a decoder. */
  lemma BrokenNames(name: string)
    ensures IsBroken(Some(name)) <==> name == "OMX.MTK.VIDEO.ENCODER.AVC" || BeginsDecoder(name)
    ensures !IsBroken(None)
  {
  }

  /** A name is enumerated exactly when it is one of the core's and not one that is refused. */
  lemma {:induction false} VisibleMembers(core: seq<string>, n: nat, name: string)
    requires n <= |core|
    ensures name in Visible(core, n) <==>
              name in core[..n] && name != "OMX.MTK.VIDEO.ENCODER.AVC" && !BeginsDecoder(name)
    ensures name in Visible(core, n) <==> name in core[..n] && !IsBroken(Some(name))
  {
    BrokenNames(name);
    if n > 0 {
      VisibleMembers(core, n - 1, name);
      assert core[..n] == core[..n - 1] + [core[n - 1]];
    } else {
      assert core[..n] == [];
    }
  }

  /** Of the core's names exactly those that are enumerated get past the filter. */
  method MakeComponentInstance(loaded: bool, core: Core, name: Option<string>) returns (err: Error)
    ensures !loaded ==> err == ErrorUndefined
    ensures loaded && name.Some? && name.value in core.names ==>
      err == if name.value in AllVisible(core.names) then core.getHandle(name) else ErrorComponentNotFound
    ensures loaded ==>
      err == if name.Some? && (name.value == "OMX.MTK.VIDEO.ENCODER.AVC" || BeginsDecoder(name.value))
             then ErrorComponentNotFound else core.getHandle(name)
  {
    if !loaded {
      return ErrorUndefined;
    }
    if name.Some? {
      BrokenNames(name.value);
      VisibleMembers(core.names, |core.names|, name.value);
      assert core.names[..|core.names|] == core.names;
    }
    if IsBroken(name) {
      return ErrorComponentNotFound;
    }
    return core.getHandle(name);
  }

  /**
  What a client does with an index: enumerate it, then ask for an instance of the name.  The
  filter never stands between: every usable component is asked for at the core, in order.
   */
  method InstantiateAt(core: Core, index: nat) returns (err: Error)
    requires core.end != ErrorNone
    ensures err == if index < |AllVisible(core.names)| then core.getHandle(Some(AllVisible(core.names)[index]))
                   else core.end
  {
    var name;
    err, name := EnumerateComponents(true, core, index);
    if err == ErrorNone {
      err := MakeComponentInstance(true, core, name);
    }
  }
}

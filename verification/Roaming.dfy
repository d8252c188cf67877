/**
The cache of roaming limits (wifi_get_roaming_capabilities and wifi_configure_roaming,
wifi_hal/wifi_hal.cpp): the driver is asked until it reports a limit other than zero, and
configurations are checked against what was cached.
 */
module Roaming {
  import opened Options
  import opened Bytes
  import opened Netlink

  const ROAMING_CAPABILITIES := 12
  const MAX_BLACKLIST_BSSID := 16
  const MAX_WHITELIST_SSID := 8

  const WIFI_SUCCESS := 0
  const WIFI_ERROR_NOT_SUPPORTED := -3
  const WIFI_ERROR_INVALID_ARGS := -5

  /** Also the caller's wifi_roaming_capabilities. */
  datatype Limits = Limits(black: nat, white: nat)

  const NoLimits := Limits(0, 0)

  predicate Below(x: Limits, y: Limits) { x.black <= y.black && x.white <= y.white }

  const HalMaxima := Limits(MAX_BLACKLIST_BSSID, MAX_WHITELIST_SSID)

  /** A reply; `buf` is memory from the header of its vendor-data attribute on. */
  datatype Msg = Msg(isVendor: bool, hasData: bool, buf: seq<Byte>)

  /** What a request brings: the replies and the error code it ends with. */
  datatype Reply = Reply(msgs: seq<Msg>, err: int)

  // ----- reading a reply

  function Walked(m: Msg): seq<Attr> {
    if m.isVendor && m.hasData then Attrs(m.buf, NLA_HDRLEN, NlaLen(m.buf, 0) - NLA_HDRLEN) else []
  }

  /** The capabilities among the attributes, in order. */
  function Values(b: seq<Byte>, s: seq<Attr>): seq<nat> {
    if s == [] then []
    else (if s[0].ty == ROAMING_CAPABILITIES then [Read(b, s[0].off, 4)] else []) + Values(b, s[1..])
  }

  function Reported(m: Msg): seq<nat> { Values(m.buf, Walked(m)) }

  function Capped(v: nat, max: nat): nat { if v > max then max else v }

  /** The first capability is the blacklist limit, the second the whitelist limit, the rest is ignored. */
  function Filled(caps: Limits, vals: seq<nat>): Limits {
    Limits(if |vals| > 0 then Capped(vals[0], MAX_BLACKLIST_BSSID) else caps.black,
           if |vals| > 1 then Capped(vals[1], MAX_WHITELIST_SSID) else caps.white)
  }

  function FilledByAll(caps: Limits, ms: seq<Msg>): Limits
    decreases |ms|
  {
    if ms == [] then caps else FilledByAll(Filled(caps, Reported(ms[0])), ms[1..])
  }

  /** The caller's two words while the attributes are walked: `i` of them are final. */
  function FilledFrom(caps: Limits, vals: seq<nat>, i: nat): Limits {
    if i == 0 then Filled(caps, vals)
    else if i == 1 && |vals| > 0 then caps.(white := Capped(vals[0], MAX_WHITELIST_SSID))
    else caps
  }

  /** One attribute of the walk: the next word is set, or nothing changes. */
  lemma FilledStep(caps: Limits, b: seq<Byte>, s: seq<Attr>, i: nat)
    requires s != [] && i <= 2
    ensures FilledFrom(caps, Values(b, s), i)
         == if s[0].ty == ROAMING_CAPABILITIES && i < 2
            then FilledFrom(WithWord(caps, i, Read(b, s[0].off, 4)), Values(b, s[1..]), i + 1)
            else FilledFrom(caps, Values(b, s[1..]), i)
  {
  }

  function WithWord(caps: Limits, i: nat, v: nat): Limits {
    if i == 0 then caps.(black := Capped(v, MAX_BLACKLIST_BSSID)) else caps.(white := Capped(v, MAX_WHITELIST_SSID))
  }

  /** GetFeatureSetCommand::handleResponse for roaming capabilities. */
  method HandleResponse(m: Msg, matrix: array<nat>)
    requires matrix.Length == 2
    modifies matrix
    ensures Limits(matrix[0], matrix[1]) == Filled(old(Limits(matrix[0], matrix[1])), Reported(m))
  {
    if !m.isVendor || !m.hasData {
      return;
    }
    ghost var caps := Limits(matrix[0], matrix[1]);
    ghost var want := Filled(caps, Reported(m));
    var i := 0;
    var it := new NlIterator(m.buf, 0);
    var more := it.HasNext();
    while more
      invariant it.buf == m.buf && more == (it.Left() != []) && 0 <= i <= 2
      invariant caps == Limits(matrix[0], matrix[1]) && FilledFrom(caps, Values(m.buf, it.Left()), i) == want
      decreases |it.Left()|
    {
      var a := it.Get();
      FilledStep(caps, m.buf, it.Left(), i);
      if a.ty == ROAMING_CAPABILITIES && i < 2 {
        var max := if i == 0 then MAX_BLACKLIST_BSSID else MAX_WHITELIST_SSID;
        var v := Read(m.buf, a.off, 4);
        matrix[i] := if v > max then max else v;
        caps := WithWord(caps, i, v);
        i := i + 1;
      }
      it.Next();
      more := it.HasNext();
    }
  }

  // ----- which value becomes which limit

  /** `at` are the positions of the capabilities among the attributes, in order, and `vals` their numbers. */
  ghost predicate ValuesAt(b: seq<Byte>, s: seq<Attr>, vals: seq<nat>, at: seq<nat>) {
    && |at| == |vals| && PositionsOf(s, 12, at)
    && (forall x :: 0 <= x < |at| ==> at[x] < |s| && vals[x] == Read(b, s[at[x]].off, 4))
  }

  lemma {:induction false} ValuesAppend(b: seq<Byte>, s: seq<Attr>, a: Attr)
    ensures Values(b, s + [a]) == Values(b, s) + if a.ty == 12 then [Read(b, a.off, 4)] else []
    decreases |s|
  {
    if s == [] {
      assert (s + [a])[1..] == [];
    } else {
      assert (s + [a])[1..] == s[1..] + [a];
      ValuesAppend(b, s[1..], a);
    }
  }

  /** What is reported are the numbers of the capability attributes, in order. */
  lemma {:induction false} ValuesOf(b: seq<Byte>, s: seq<Attr>) returns (at: seq<nat>)
    ensures ValuesAt(b, s, Values(b, s), at)
    decreases |s|
  {
    if s == [] {
      return [];
    }
    var front, a := s[..|s| - 1], s[|s| - 1];
    assert s == front + [a];
    at := ValuesOf(b, front);
    ValuesAppend(b, front, a);
    at := OneMoreAt(b, front, a, Values(b, front), at);
  }

  lemma OneMoreAt(b: seq<Byte>, s: seq<Attr>, a: Attr, vals: seq<nat>, at: seq<nat>) returns (more: seq<nat>)
    requires ValuesAt(b, s, vals, at)
    ensures ValuesAt(b, s + [a], vals + (if a.ty == 12 then [Read(b, a.off, 4)] else []), more)
  {
    more := if a.ty == 12 then at + [|s|] else at;
    PositionsNext(s, a, 12, at);
  }

  /** Reply `i` is the last one that reports more than `n` capabilities. */
  predicate LastWith(ms: seq<Msg>, n: nat, i: nat) {
    i < |ms| && |Reported(ms[i])| > n && forall k :: i < k < |ms| ==> |Reported(ms[k])| <= n
  }

  predicate NoneWith(ms: seq<Msg>, n: nat) {
    forall k :: 0 <= k < |ms| ==> |Reported(ms[k])| <= n
  }

  /** `x` is capability `n` of the last reply that has one, `max` if that is larger, or `before` without one. */
  ghost predicate LimitIs(ms: seq<Msg>, n: nat, max: nat, before: nat, x: nat) {
    || (NoneWith(ms, n) && x == before)
    || exists i: nat :: LastWith(ms, n, i) && x == if Reported(ms[i])[n] <= max then Reported(ms[i])[n] else max
  }

  lemma LimitFirst(ms: seq<Msg>, n: nat, max: nat, before: nat, x: nat)
    requires ms != []
    requires LimitIs(ms[1..], n, max, if |Reported(ms[0])| > n then Capped(Reported(ms[0])[n], max) else before, x)
    ensures LimitIs(ms, n, max, before, x)
  {
    var rest := ms[1..];
    if NoneWith(rest, n) {
      assert forall k :: 0 < k < |ms| ==> ms[k] == rest[k - 1];
      assert LastWith(ms, n, 0) || NoneWith(ms, n);
    } else {
      var i: nat :| LastWith(rest, n, i) && x == if Reported(rest[i])[n] <= max then Reported(rest[i])[n] else max;
      assert ms[i + 1] == rest[i] && forall k :: i + 1 < k < |ms| ==> ms[k] == rest[k - 1];
      assert LastWith(ms, n, i + 1);
    }
  }

  /** The blacklist limit is the first capability of the last reply that has one, the whitelist limit the second. */
  lemma {:induction false} LimitsAre(caps: Limits, ms: seq<Msg>)
    ensures LimitIs(ms, 0, 16, caps.black, FilledByAll(caps, ms).black)
    ensures LimitIs(ms, 1, 8, caps.white, FilledByAll(caps, ms).white)
    decreases |ms|
  {
    if ms != [] {
      LimitsAre(Filled(caps, Reported(ms[0])), ms[1..]);
      LimitFirst(ms, 0, 16, caps.black, FilledByAll(caps, ms).black);
      LimitFirst(ms, 1, 8, caps.white, FilledByAll(caps, ms).white);
    }
  }

  /** A reply that carries the two numbers. */
  function ReplyOf(black: nat, white: nat): Msg {
    Msg(true, true, Encode(Nest(0, [U32Item(ROAMING_CAPABILITIES, black), U32Item(ROAMING_CAPABILITIES, white)])))
  }

  lemma ReplyReports(black: nat, white: nat)
    requires black < 0x1_0000_0000 && white < 0x1_0000_0000
    ensures Reported(ReplyOf(black, white)) == [black, white]
  {
    var x, y := U32Item(ROAMING_CAPABILITIES, black), U32Item(ROAMING_CAPABILITIES, white);
    PairWalked(ReplyOf(black, white), x, y);
    PairRead(ReplyOf(black, white).buf, Walked(ReplyOf(black, white)), black, white);
  }

  lemma PairWalked(m: Msg, x: Item, y: Item)
    requires m.isVendor && m.hasData && m.buf == Encode(Nest(0, [x, y]))
    requires Fits(x) && Fits(y) && |Encode(x)| == 8 && |Encode(y)| == 8
    ensures AllCarry(m.buf, Walked(m), [x, y])
  {
    PairSize(x, y);
    WalkOfNest(0, [x, y]);
  }

  lemma PairRead(b: seq<Byte>, s: seq<Attr>, black: nat, white: nat)
    requires black < 0x1_0000_0000 && white < 0x1_0000_0000
    requires AllCarry(b, s, [U32Item(ROAMING_CAPABILITIES, black), U32Item(ROAMING_CAPABILITIES, white)])
    ensures Values(b, s) == [black, white]
  {
    var x, y := U32Item(ROAMING_CAPABILITIES, black), U32Item(ROAMING_CAPABILITIES, white);
    CarryAt(b, s, [x, y], 0);
    CarryAt(b, s, [x, y], 1);
    ReadsU32(b, s[0], ROAMING_CAPABILITIES, black);
    ReadsU32(b, s[1], ROAMING_CAPABILITIES, white);
    TwoValues(b, s);
  }

  lemma PairSize(x: Item, y: Item)
    ensures |EncodeAll([x, y])| == |Encode(x)| + |Encode(y)|
  {
    EncodeAllAppend([x], y);
    assert EncodeAll([x]) == Encode(x) + EncodeAll([]);
    assert [x] + [y] == [x, y];
  }

  /** Such a reply sets both limits, each cut at its maximum. */
  lemma ReplySets(caps: Limits, black: nat, white: nat)
    requires black < 0x1_0000_0000 && white < 0x1_0000_0000
    ensures FilledByAll(caps, [ReplyOf(black, white)])
         == Limits(if black <= 16 then black else 16, if white <= 8 then white else 8)
  {
    ReplyReports(black, white);
    OneReply(caps, ReplyOf(black, white));
  }

  lemma OneReply(caps: Limits, m: Msg)
    ensures FilledByAll(caps, [m]) == Filled(caps, Reported(m))
    ensures !m.isVendor || !m.hasData ==> FilledByAll(caps, [m]) == caps
  {
    assert [m][1..] == [];
    assert FilledByAll(Filled(caps, Reported(m)), []) == Filled(caps, Reported(m));
  }

  lemma TwoValues(b: seq<Byte>, s: seq<Attr>)
    requires |s| == 2 && s[0].ty == 12 && s[1].ty == 12
    ensures Values(b, s) == [Read(b, s[0].off, 4), Read(b, s[1].off, 4)]
  {
    assert s[1..][1..] == [];
    assert Values(b, s[1..]) == [Read(b, s[1].off, 4)] + Values(b, s[1..][1..]);
  }

  // ----- the two calls

  /** The part of hal_info that holds the limits. */
  class RoamingInfo {
    var capa: Limits

    constructor ()
      ensures capa == NoLimits
    {
      capa := NoLimits;
    }

    /** wifi_get_roaming_capabilities; `caps` is the caller's struct, `reply` what the driver would answer. */
    method GetRoamingCapabilities(caps: array?<nat>, reply: Reply) returns (ret: int)
      requires caps != null ==> caps.Length == 2
      modifies this, caps
      ensures caps == null ==> ret == WIFI_ERROR_INVALID_ARGS && capa == old(capa)
      ensures caps != null && old(capa) == NoLimits ==>
        && ret == reply.err && Limits(caps[0], caps[1]) == FilledByAll(old(Limits(caps[0], caps[1])), reply.msgs)
        && capa == if reply.err == WIFI_SUCCESS then Limits(caps[0], caps[1]) else NoLimits
      ensures caps != null && old(capa) != NoLimits ==>
        ret == WIFI_SUCCESS && capa == old(capa) && Limits(caps[0], caps[1]) == old(capa)
      ensures caps != null ==>
        (ret, capa, Limits(caps[0], caps[1])) == Gotten(old(capa), old(Limits(caps[0], caps[1])), reply)
    {
      if caps == null {
        return WIFI_ERROR_INVALID_ARGS;
      }
      if capa.black == 0 && capa.white == 0 {
        for i := 0 to |reply.msgs|
          invariant capa == NoLimits
          invariant FilledByAll(Limits(caps[0], caps[1]), reply.msgs[i..])
                 == FilledByAll(old(Limits(caps[0], caps[1])), reply.msgs)
        {
          HandleResponse(reply.msgs[i], caps);
          assert reply.msgs[i..][1..] == reply.msgs[i + 1..];
        }
        if reply.err == WIFI_SUCCESS {
          capa := Limits(caps[0], caps[1]);
        }
        return reply.err;
      }
      caps[0], caps[1] := capa.black, capa.white;
      return WIFI_SUCCESS;
    }

    /** wifi_configure_roaming; `created` and `err` are how building and sending the request end. */
    method ConfigureRoaming(config: Option<Limits>, created: int, err: int) returns (ret: int, sent: Option<Limits>)
      ensures config.None? ==> ret == WIFI_ERROR_INVALID_ARGS && sent.None?
      ensures config.Some? ==>
        var fits := config.value.black <= capa.black && config.value.white <= capa.white;
        && sent == (if fits && created == WIFI_SUCCESS then config else None)
        && ret == if !fits then WIFI_ERROR_NOT_SUPPORTED else if created != WIFI_SUCCESS then created else err
      ensures config.Some? ==> sent == SentBy(capa, config.value, created)
    {
      if config.None? {
        return WIFI_ERROR_INVALID_ARGS, None;
      }
      if config.value.black > capa.black {
        return WIFI_ERROR_NOT_SUPPORTED, None;
      }
      if config.value.white > capa.white {
        return WIFI_ERROR_NOT_SUPPORTED, None;
      }
      if created != WIFI_SUCCESS {
        return created, None;
      }
      return err, config;
    }
  }

  /** Return value, cache and caller's struct after a get. */
  function Gotten(cache: Limits, caps: Limits, reply: Reply): (int, Limits, Limits) {
    if cache != NoLimits then (WIFI_SUCCESS, cache, cache)
    else
      var got := FilledByAll(caps, reply.msgs);
      (reply.err, if reply.err == WIFI_SUCCESS then got else cache, got)
  }

  function SentBy(cache: Limits, config: Limits, created: int): Option<Limits> {
    if Below(config, cache) && created == WIFI_SUCCESS then Some(config) else None
  }

  // ----- any sequence of calls

  datatype Call = Get(caps: Limits, reply: Reply) | Configure(config: Limits, created: int)

  function Step(cache: Limits, c: Call): Limits {
    if c.Get? then Gotten(cache, c.caps, c.reply).1 else cache
  }

  function After(cache: Limits, calls: seq<Call>): Limits
    decreases |calls|
  {
    if calls == [] then cache else After(Step(cache, calls[0]), calls[1..])
  }

  /** A successful get that is told a limit other than zero. */
  predicate Answered(c: Call) {
    c.Get? && c.reply.err == WIFI_SUCCESS && FilledByAll(c.caps, c.reply.msgs) != NoLimits
  }

  /** The first such get. */
  function FirstGet(calls: seq<Call>): (r: Option<Call>)
    ensures r.Some? ==> r.value in calls && Answered(r.value)
  {
    if calls == [] then None else if Answered(calls[0]) then Some(calls[0]) else FirstGet(calls[1..])
  }

  /** What it was told; zero limits if there is none. */
  function FirstAnswer(calls: seq<Call>): Limits {
    var first := FirstGet(calls);
    if first.Some? then FilledByAll(first.value.caps, first.value.reply.msgs) else NoLimits
  }

  lemma {:induction false} CacheIsKept(cache: Limits, calls: seq<Call>)
    requires cache != NoLimits
    ensures After(cache, calls) == cache
    decreases |calls|
  {
    if calls != [] {
      CacheIsKept(cache, calls[1..]);
    }
  }

  /** The cache is the first answer other than zero, whatever came after it. */
  lemma {:induction false} CacheIsFirstAnswer(calls: seq<Call>)
    ensures After(NoLimits, calls) == FirstAnswer(calls)
    decreases |calls|
  {
    if calls != [] {
      if Step(NoLimits, calls[0]) != NoLimits {
        CacheIsKept(Step(NoLimits, calls[0]), calls[1..]);
      } else {
        CacheIsFirstAnswer(calls[1..]);
      }
    }
  }

  /** A later get repeats the first answer. */
  lemma LaterGetsRepeat(calls: seq<Call>, caps: Limits, reply: Reply)
    requires FirstAnswer(calls) != NoLimits
    ensures Gotten(After(NoLimits, calls), caps, reply) == (WIFI_SUCCESS, FirstAnswer(calls), FirstAnswer(calls))
  {
    CacheIsFirstAnswer(calls);
  }

  // ----- when the limits are within the maxima

  /** Some message reports capability number `n`. */
  predicate Has(ms: seq<Msg>, n: nat) {
    ms != [] && (|Reported(ms[0])| > n || Has(ms[1..], n))
  }

  /** Exactly when a reply leaves limits within the maxima: each word was reported, or was small before. */
  lemma {:induction false} WithinMaxima(caps: Limits, ms: seq<Msg>)
    ensures FilledByAll(caps, ms).black <= MAX_BLACKLIST_BSSID <==> Has(ms, 0) || caps.black <= MAX_BLACKLIST_BSSID
    ensures FilledByAll(caps, ms).white <= MAX_WHITELIST_SSID <==> Has(ms, 1) || caps.white <= MAX_WHITELIST_SSID
    decreases |ms|
  {
    if ms != [] {
      WithinMaxima(Filled(caps, Reported(ms[0])), ms[1..]);
    }
  }

  /** A successful reply without the attributes leaves the caller's own words to be cached. */
  lemma MissingAttributesAreCached(caps: Limits)
    ensures After(NoLimits, [Get(caps, Reply([], WIFI_SUCCESS))]) == caps
    ensures SentBy(After(NoLimits, [Get(caps, Reply([], WIFI_SUCCESS))]), caps, WIFI_SUCCESS) == Some(caps)
  {
    var calls := [Get(caps, Reply([], WIFI_SUCCESS))];
    assert calls[1..] == [];
    assert After(Step(NoLimits, calls[0]), calls[1..]) == Step(NoLimits, calls[0]);
  }

  /** Every successful reply reports both limits. */
  predicate BothReported(calls: seq<Call>) {
    forall c :: c in calls && c.Get? && c.reply.err == WIFI_SUCCESS ==> Has(c.reply.msgs, 0) && Has(c.reply.msgs, 1)
  }

  /** Each of the two words was reported to this get, or was small enough before it. */
  predicate Covered(c: Call)
    requires c.Get?
  {
    && (Has(c.reply.msgs, 0) || c.caps.black <= MAX_BLACKLIST_BSSID)
    && (Has(c.reply.msgs, 1) || c.caps.white <= MAX_WHITELIST_SSID)
  }

  /**
  Exactly when the cached limits are within the maxima after any sequence of calls: the get
  whose answer was cached, if there is one, had both its words covered.
   */
  lemma CacheWithinMaxima(calls: seq<Call>)
    ensures Below(After(NoLimits, calls), HalMaxima) <==> FirstGet(calls).None? || Covered(FirstGet(calls).value)
  {
    CacheIsFirstAnswer(calls);
    if FirstGet(calls).Some? {
      WithinMaxima(FirstGet(calls).value.caps, FirstGet(calls).value.reply.msgs);
    }
  }

  /** A caller can see to it beforehand: no reply does harm if and only if its own two words are within the maxima. */
  lemma CallerCanMakeSure(caps: Limits)
    ensures Below(caps, HalMaxima) <==>
            forall reply: Reply :: Below(Gotten(NoLimits, caps, reply).1, HalMaxima)
  {
    if Below(caps, HalMaxima) {
      forall reply: Reply ensures Below(Gotten(NoLimits, caps, reply).1, HalMaxima) {
        WithinMaxima(caps, reply.msgs);
      }
    } else {
      assert Gotten(NoLimits, caps, Reply([], WIFI_SUCCESS)).1 == caps;
    }
  }

  /** Callers who always do so keep the cache within the maxima, whatever the driver replies. */
  lemma CarefulCallers(calls: seq<Call>)
    requires forall c :: c in calls && c.Get? ==> Below(c.caps, HalMaxima)
    ensures Below(After(NoLimits, calls), HalMaxima)
  {
    CacheWithinMaxima(calls);
  }

  /**
  Over any sequence of calls: the limits stay within the maxima, and a configuration that is
  sent respects the first answer given, so it is empty while there is none.
   */
  lemma LimitsRespected(calls: seq<Call>, config: Limits, created: int)
    requires BothReported(calls)
    ensures Below(After(NoLimits, calls), HalMaxima)
    ensures SentBy(After(NoLimits, calls), config, created).Some? ==>
              Below(config, FirstAnswer(calls)) && Below(config, HalMaxima)
    ensures SentBy(After(NoLimits, calls), config, created).Some? && FirstAnswer(calls) == NoLimits ==>
              config == NoLimits
  {
    CacheIsFirstAnswer(calls);
    CacheWithinMaxima(calls);
  }
}

/**
RTT result accumulation and self-termination (RttCommand::handleEvent, wifi_hal/rtt.cpp): results
arrive over several events, are collected in a fixed array, delivered once when the driver says
complete, freed, and the command takes itself out of both tables of hal_info.
 */
module Rtt {
  import opened Options
  import opened Bytes
  import opened Netlink
  import HT = HandlerTables

  const RESULTS_COMPLETE := 30
  const RESULTS_PER_TARGET := 31
  const RESULT := 33
  const MAX_RESULTS := 1024
  const RTT_EVENT_COMPLETE := 4

  type Blob = seq<Byte>

  function KeyOfRtt(): HT.Key { HT.Vendor(HT.GOOGLE_OUI, RTT_EVENT_COMPLETE) }

  // ----- the reference: what a stream of events amounts to

  /** Results kept so far, mCompleted, and how many times malloc was called. */
  datatype Progress = Progress(results: seq<Blob>, completed: int, allocs: nat)

  /** One target's nest; a failed allocation marks completion and leaves the nest. */
  function TargetFold(b: seq<Byte>, s: seq<Attr>, st: Progress, alloc: nat -> bool): Progress {
    if s == [] then st
    else if s[0].ty != RESULT then TargetFold(b, s[1..], st, alloc)
    else if !alloc(st.allocs) then st.(completed := 1, allocs := st.allocs + 1)
    else
      TargetFold(b, s[1..], WithResult(st, Copy(b, s[0].off, s[0].len)), alloc)
  }

  function AttrStep(b: seq<Byte>, a: Attr, st: Progress, alloc: nat -> bool): Progress {
    if a.ty == RESULTS_COMPLETE then st.(completed := S32(Read(b, a.off, 4)))
    else if a.ty == RESULTS_PER_TARGET then TargetFold(b, Inside(b, a), st, alloc)
    else st
  }

  function EventFold(b: seq<Byte>, s: seq<Attr>, st: Progress, alloc: nat -> bool): Progress {
    if s == [] then st else EventFold(b, s[1..], AttrStep(b, s[0], st, alloc), alloc)
  }

  /** An event is memory from its vendor data attribute on. */
  function Walked(b: seq<Byte>): seq<Attr> {
    Attrs(b, NLA_HDRLEN, NlaLen(b, 0) - NLA_HDRLEN)
  }

  function After(st: Progress, b: seq<Byte>, alloc: nat -> bool): Progress {
    EventFold(b, Walked(b), st, alloc)
  }

  // ----- room in the result array

  /** No result of the nest that is reached finds the array full. */
  predicate TargetRoom(b: seq<Byte>, s: seq<Attr>, st: Progress, alloc: nat -> bool)
    decreases |s|
  {
    if s == [] then true
    else if s[0].ty != RESULT then TargetRoom(b, s[1..], st, alloc)
    else
      && |st.results| < MAX_RESULTS
      && (alloc(st.allocs) ==> TargetRoom(b, s[1..], WithResult(st, Copy(b, s[0].off, s[0].len)), alloc))
  }

  function WithResult(st: Progress, blob: Blob): Progress {
    st.(results := st.results + [blob], allocs := st.allocs + 1)
  }

  predicate AttrRoom(b: seq<Byte>, a: Attr, st: Progress, alloc: nat -> bool) {
    a.ty == RESULTS_PER_TARGET ==> TargetRoom(b, Inside(b, a), st, alloc)
  }

  predicate EventRoom(b: seq<Byte>, s: seq<Attr>, st: Progress, alloc: nat -> bool)
    decreases |s|
  {
    s == [] || (AttrRoom(b, s[0], st, alloc) && EventRoom(b, s[1..], AttrStep(b, s[0], st, alloc), alloc))
  }

  // ----- the command

  class RttCommand {
    const id: int
    const rttResults: array<Option<Blob>>
    var currentIdx: nat
    var totalCnt: nat
    var completed: int
    var allocs: nat                     // malloc calls made
    var delivered: seq<seq<Option<Blob>>>   // arguments of every on_rtt_results call
    var freed: seq<Option<Blob>>        // arguments of every free call

    ghost predicate Holds(st: Progress)
      reads this, rttResults
    {
      && rttResults.Length == MAX_RESULTS
      && totalCnt == currentIdx == |st.results| <= MAX_RESULTS
      && rttResults[..currentIdx] == Somes(st.results)
      && completed == st.completed && allocs == st.allocs
    }

    constructor (id: int)
      ensures this.id == id && fresh(rttResults) && Holds(Progress([], 0, 0)) && delivered == [] && freed == []
    {
      this.id := id;
      rttResults := new Option<Blob>[MAX_RESULTS](_ => None);
      currentIdx, totalCnt, completed, allocs := 0, 0, 0, 0;
      delivered, freed := [], [];
    }

    /** malloc, memcpy and the two counters; `ok` is what malloc did. */
    method Keep(blob: Blob, ok: bool, ghost st: Progress)
      requires Holds(st) && |st.results| < MAX_RESULTS
      modifies this`currentIdx, this`totalCnt, this`completed, this`allocs, rttResults
      ensures Holds(if ok then WithResult(st, blob)
                    else st.(completed := 1, allocs := st.allocs + 1))
    {
      allocs := allocs + 1;
      if !ok {
        rttResults[currentIdx] := None;
        completed := 1;
        return;
      }
      SomesAppend(st.results, blob);
      rttResults[currentIdx] := Some(blob);
      totalCnt := totalCnt + 1;
      currentIdx := currentIdx + 1;
    }

    /** One attribute of a target; `ok` is false where the loop is left. */
    method HandleResult(b: seq<Byte>, c: Attr, alloc: nat -> bool, ghost st: Progress) returns (ok: bool)
      requires Holds(st) && (c.ty == RESULT ==> |st.results| < MAX_RESULTS)
      modifies this`currentIdx, this`totalCnt, this`completed, this`allocs, rttResults
      ensures ok == (c.ty == RESULT ==> alloc(st.allocs))
      ensures Holds(if !ok then st.(completed := 1, allocs := st.allocs + 1)
                    else if c.ty == RESULT then WithResult(st, Copy(b, c.off, c.len)) else st)
    {
      ok := true;
      if c.ty == RESULT {
        ok := alloc(allocs);
        Keep(Copy(b, c.off, c.len), ok, st);
      }
    }

    /** The loop over one target's attributes. */
    method HandleTarget(b: seq<Byte>, a: Attr, alloc: nat -> bool, ghost st: Progress)
      requires Holds(st) && TargetRoom(b, Inside(b, a), st, alloc)
      requires a.off >= NLA_HDRLEN && NlaLen(b, a.off - NLA_HDRLEN) == a.len + NLA_HDRLEN
      modifies this`currentIdx, this`totalCnt, this`completed, this`allocs, rttResults
      ensures Holds(TargetFold(b, Inside(b, a), st, alloc))
    {
      ghost var cur := st;
      var it := new NlIterator(b, a.off - NLA_HDRLEN);
      ghost var left := Inside(b, a);
      assert it.Left() == left;
      var more := it.HasNext();
      while more
        invariant it.buf == b && more == (left != []) && fresh(it)
        invariant left == it.Left() && Holds(cur) && TargetRoom(b, left, cur, alloc)
        invariant TargetFold(b, left, cur, alloc) == TargetFold(b, Inside(b, a), st, alloc)
        decreases |left|
      {
        var c := it.Get();
        var ok := HandleResult(b, c, alloc, cur);
        if !ok {
          return;
        }
        cur := if c.ty == RESULT then WithResult(cur, Copy(b, c.off, c.len)) else cur;
        left := left[1..];
        it.Next();
        more := it.HasNext();
      }
    }

    /** One attribute of an event. */
    method HandleAttr(b: seq<Byte>, a: Attr, alloc: nat -> bool, ghost st: Progress)
      requires Holds(st) && AttrRoom(b, a, st, alloc)
      requires a.off >= NLA_HDRLEN && NlaLen(b, a.off - NLA_HDRLEN) == a.len + NLA_HDRLEN
      modifies this`currentIdx, this`totalCnt, this`completed, this`allocs, rttResults
      ensures Holds(AttrStep(b, a, st, alloc))
    {
      if a.ty == RESULTS_COMPLETE {
        completed := S32(Read(b, a.off, 4));
      } else if a.ty == RESULTS_PER_TARGET {
        HandleTarget(b, a, alloc, st);
      }
    }

    /** The loop over the event's attributes. */
    method Collect(b: seq<Byte>, alloc: nat -> bool, ghost st: Progress)
      requires Holds(st) && EventRoom(b, Walked(b), st, alloc)
      modifies this`currentIdx, this`totalCnt, this`completed, this`allocs, rttResults
      ensures Holds(After(st, b, alloc))
    {
      ghost var cur := st;
      var it := new NlIterator(b, 0);
      assert it.Left() == Walked(b);
      var more := it.HasNext();
      while more
        invariant it.buf == b && more == (it.Left() != []) && fresh(it)
        invariant Holds(cur) && EventRoom(b, it.Left(), cur, alloc)
        invariant EventFold(b, it.Left(), cur, alloc) == After(st, b, alloc)
        decreases |it.Left()|
      {
        var a := it.Get();
        assert a == it.Left()[0];
        HandleAttr(b, a, alloc, cur);
        cur := AttrStep(b, a, cur, alloc);
        it.Next();
        more := it.HasNext();
      }
    }

    /** The loop that frees and clears every slot. */
    method FreeAll(ghost st: Progress)
      requires Holds(st)
      modifies this`currentIdx, this`totalCnt, this`freed, rttResults
      ensures Holds(st.(results := [])) && freed == old(freed) + Somes(st.results)
    {
      ghost var kept := rttResults[..currentIdx];
      for i := 0 to currentIdx
        invariant currentIdx == old(currentIdx) && freed == old(freed) + kept[..i]
        invariant forall j :: i <= j < currentIdx ==> rttResults[j] == kept[j]
      {
        freed := freed + [rttResults[i]];
        rttResults[i] := None;
        assert kept[..i + 1] == kept[..i] + [kept[i]];
      }
      assert kept[..currentIdx] == kept;
      totalCnt, currentIdx := 0, 0;
    }

    /**
    handleEvent.  On completion: unregister the event, hand all results over, free them, and
    take the command out of the command table; `released` is the command whose owner share is
    then given up, if it was still there.
     */
    method HandleEvent(info: HT.HalInfo, b: seq<Byte>, alloc: nat -> bool, ghost st: Progress)
        returns (released: Option<HT.Ptr>)
      requires info.Valid() && Holds(st) && EventRoom(b, Walked(b), st, alloc)
      requires rttResults as object != info.eventCb && rttResults as object != info.cmd
      modifies this, rttResults, info, info.eventCb, info.cmd
      ensures info.Valid()
      ensures var after := After(st, b, alloc);
              if after.completed == 0 then
                && Holds(after) && delivered == old(delivered) && freed == old(freed) && released.None?
                && info.Callbacks() == old(info.Callbacks()) && info.Commands() == old(info.Commands())
              else
                && Holds(after.(results := []))
                && delivered == old(delivered) + [Somes(after.results)] && freed == old(freed) + Somes(after.results)
                && info.Callbacks() == HT.RemoveKey(old(info.Callbacks()), KeyOfRtt())
                && info.Commands() == HT.RemoveId(old(info.Commands()), id)
                && released == HT.FindId(old(info.Commands()), id)
    {
      released := None;
      Collect(b, alloc, st);
      ghost var after := After(st, b, alloc);
      if completed != 0 {
        info.UnregisterVendorHandler(HT.GOOGLE_OUI, RTT_EVENT_COMPLETE);
        delivered := delivered + [rttResults[..totalCnt]];
        FreeAll(after);
        released := info.UnregisterCmdById(id);
      }
    }

    /** Nothing delivered, and the event still leads here; or everything delivered, and it no longer does. */
    ghost predicate Tracks(info: HT.HalInfo, self: HT.Ptr, st: Progress)
      requires info.Valid()
      reads this, rttResults, info, info.eventCb
    {
      if st.completed == 0 then
        Holds(st) && delivered == [] && freed == [] && HT.ArgsOf(info.Callbacks(), KeyOfRtt()) == [self]
      else
        && delivered == [Somes(st.results)] && freed == Somes(st.results)
        && HT.ArgsOf(info.Callbacks(), KeyOfRtt()) == []
    }

    /** What the event thread does with one RTT event: look up, and call if found. */
    method DispatchOne(info: HT.HalInfo, self: HT.Ptr, b: seq<Byte>, alloc: nat -> bool, ghost st: Progress)
        returns (released: Option<HT.Ptr>)
      requires info.Valid() && Tracks(info, self, st) && (st.completed == 0 ==> EventRoom(b, Walked(b), st, alloc))
      requires rttResults as object != info.eventCb && rttResults as object != info.cmd
      modifies this, rttResults, info, info.eventCb, info.cmd
      ensures info.Valid() && Tracks(info, self, Next(st, b, alloc))
      ensures var ends := st.completed == 0 && After(st, b, alloc).completed != 0;
              && info.Commands() == (if ends then HT.RemoveId(old(info.Commands()), id) else old(info.Commands()))
              && released == if ends then HT.FindId(old(info.Commands()), id) else None
    {
      released := None;
      HT.DispatchIsHead(info.Callbacks(), KeyOfRtt());
      var found := info.LookUp(HT.NL80211_CMD_VENDOR, HT.GOOGLE_OUI, RTT_EVENT_COMPLETE);
      if found.Some? {
        HT.ArgsOfRemove(info.Callbacks(), KeyOfRtt(), KeyOfRtt());
        released := HandleEvent(info, b, alloc, st);
      }
    }

    /**
    After the events up to `st`: an uncompleted command is as it was in the command table; a
    completed one is gone from it, and the owner share of what was found there is given up.
     */
    ghost predicate Ended(info: HT.HalInfo, commands: seq<HT.CmdInfo>, released: seq<HT.Ptr>, st: Progress)
      requires info.Valid()
      reads info, info.cmd
    {
      if st.completed == 0 then info.Commands() == commands && released == []
      else info.Commands() == HT.RemoveId(commands, id) && released == Found(HT.FindId(commands, id))
    }

    /** One turn of the event thread: event `i` of the stream. */
    method DispatchNext(info: HT.HalInfo, self: HT.Ptr, events: seq<seq<Byte>>, alloc: nat -> bool, i: nat,
                        ghost commands: seq<HT.CmdInfo>, released: seq<HT.Ptr>) returns (all: seq<HT.Ptr>)
      requires i < |events| && info.Valid() && Tracks(info, self, Stream(events, i, alloc))
      requires Ended(info, commands, released, Stream(events, i, alloc)) && EventFinds(events, i, alloc)
      requires rttResults as object != info.eventCb && rttResults as object != info.cmd
      modifies this, rttResults, info, info.eventCb, info.cmd
      ensures info.Valid() && Tracks(info, self, Stream(events, i + 1, alloc))
      ensures Ended(info, commands, all, Stream(events, i + 1, alloc))
    {
      ghost var st := Stream(events, i, alloc);
      assert Stream(events, i + 1, alloc) == Next(st, events[i], alloc);
      var r := DispatchOne(info, self, events[i], alloc, st);
      all := released + Found(r);
    }

    /** What the event thread does with a stream of RTT events: look up, and call if found. */
    method DispatchAll(info: HT.HalInfo, self: HT.Ptr, events: seq<seq<Byte>>, alloc: nat -> bool)
        returns (released: seq<HT.Ptr>)
      requires info.Valid() && Tracks(info, self, Progress([], 0, 0))
      requires rttResults as object != info.eventCb && rttResults as object != info.cmd
      requires StreamRoom(events, |events|, alloc)
      modifies this, rttResults, info, info.eventCb, info.cmd
      ensures info.Valid() && Tracks(info, self, Stream(events, |events|, alloc))
      ensures Ended(info, old(info.Commands()), released, Stream(events, |events|, alloc))
    {
      released := [];
      ghost var commands := info.Commands();
      for i := 0 to |events|
        invariant info.Valid() && Tracks(info, self, Stream(events, i, alloc))
        invariant Ended(info, commands, released, Stream(events, i, alloc))
      {
        RoomAt(events, |events|, alloc, i);
        released := DispatchNext(info, self, events, alloc, i, commands, released);
      }
    }
  }

  function Found(r: Option<HT.Ptr>): seq<HT.Ptr> { if r.Some? then [r.value] else [] }

  // ----- streams

  /** The first `k` events; those after completion change nothing. */
  function Stream(events: seq<seq<Byte>>, k: nat, alloc: nat -> bool): Progress
    requires k <= |events|
  {
    if k == 0 then Progress([], 0, 0) else Next(Stream(events, k - 1, alloc), events[k - 1], alloc)
  }

  /** After completion an event changes nothing. */
  function Next(st: Progress, b: seq<Byte>, alloc: nat -> bool): Progress {
    if st.completed != 0 then st else After(st, b, alloc)
  }

  /** Event `i` finds room for its results, unless completion came before it. */
  predicate EventFinds(events: seq<seq<Byte>>, i: nat, alloc: nat -> bool)
    requires i < |events|
  {
    var before := Stream(events, i, alloc);
    before.completed == 0 ==> EventRoom(events[i], Walked(events[i]), before, alloc)
  }

  /** None of the first `k` events finds the array full, not looking at those after completion. */
  predicate StreamRoom(events: seq<seq<Byte>>, k: nat, alloc: nat -> bool)
    requires k <= |events|
  {
    k == 0 || (StreamRoom(events, k - 1, alloc) && EventFinds(events, k - 1, alloc))
  }

  lemma {:induction false} RoomAt(events: seq<seq<Byte>>, k: nat, alloc: nat -> bool, i: nat)
    requires i < k <= |events| && StreamRoom(events, k, alloc)
    ensures EventFinds(events, i, alloc)
  {
    if i < k - 1 {
      RoomAt(events, k - 1, alloc, i);
    }
  }

  // ----- with memory available, the results are those of the events, in arrival order

  function TargetResults(b: seq<Byte>, s: seq<Attr>): seq<Blob> {
    if s == [] then []
    else if s[0].ty == RESULT then [Copy(b, s[0].off, s[0].len)] + TargetResults(b, s[1..])
    else TargetResults(b, s[1..])
  }

  function AttrResults(b: seq<Byte>, a: Attr): seq<Blob> {
    if a.ty == RESULTS_PER_TARGET then TargetResults(b, Inside(b, a)) else []
  }

  function EventResults(b: seq<Byte>, s: seq<Attr>): seq<Blob> {
    if s == [] then [] else AttrResults(b, s[0]) + EventResults(b, s[1..])
  }

  /** The results of the events up to and including number `n`, in the order they arrived. */
  function Arrived(events: seq<seq<Byte>>, n: nat): seq<Blob>
    requires n <= |events|
  {
    if n == 0 then [] else Arrived(events, n - 1) + EventResults(events[n - 1], Walked(events[n - 1]))
  }

  lemma {:induction false} TargetInOrder(b: seq<Byte>, s: seq<Attr>, st: Progress, alloc: nat -> bool)
    requires forall n: nat :: alloc(n)
    ensures TargetFold(b, s, st, alloc).results == st.results + TargetResults(b, s)
    ensures TargetFold(b, s, st, alloc).completed == st.completed
    decreases |s|
  {
    if s != [] {
      if s[0].ty == RESULT {
        var blob := Copy(b, s[0].off, s[0].len);
        TargetInOrder(b, s[1..], WithResult(st, blob), alloc);
        ConcatAssoc(st.results, [blob], TargetResults(b, s[1..]));
      } else {
        TargetInOrder(b, s[1..], st, alloc);
      }
    }
  }

  lemma {:induction false} EventInOrder(b: seq<Byte>, s: seq<Attr>, st: Progress, alloc: nat -> bool)
    requires forall n: nat :: alloc(n)
    ensures EventFold(b, s, st, alloc).results == st.results + EventResults(b, s)
    decreases |s|
  {
    if s != [] {
      AttrInOrder(b, s[0], st, alloc);
      EventInOrder(b, s[1..], AttrStep(b, s[0], st, alloc), alloc);
      ConcatAssoc(st.results, AttrResults(b, s[0]), EventResults(b, s[1..]));
    }
  }

  lemma AttrInOrder(b: seq<Byte>, a: Attr, st: Progress, alloc: nat -> bool)
    requires forall n: nat :: alloc(n)
    ensures AttrStep(b, a, st, alloc).results == st.results + AttrResults(b, a)
  {
    if a.ty == RESULTS_PER_TARGET {
      TargetInOrder(b, Inside(b, a), st, alloc);
    }
  }

  /**
  Some event number `n` is the last one that counts: everything that arrived up to it is what
  the first `k` events amount to, and `n` is `k` unless completion came with it.
   */
  lemma {:induction false} StreamInOrder(events: seq<seq<Byte>>, k: nat, alloc: nat -> bool) returns (n: nat)
    requires k <= |events| && forall m: nat :: alloc(m)
    ensures n <= k && Stream(events, k, alloc) == Stream(events, n, alloc)
    ensures Stream(events, k, alloc).results == Arrived(events, n)
    ensures n < k ==> n > 0 && Stream(events, k, alloc).completed != 0
    ensures n > 0 ==> Stream(events, n - 1, alloc).completed == 0
  {
    if k == 0 {
      return 0;
    }
    n := StreamInOrder(events, k - 1, alloc);
    var before, last := Stream(events, k - 1, alloc), events[k - 1];
    if before.completed == 0 {
      EventInOrder(last, Walked(last), before, alloc);
      n := k;
    }
  }

  // ----- exactly when the array is large enough

  lemma {:induction false} TargetFits(b: seq<Byte>, s: seq<Attr>, st: Progress, alloc: nat -> bool)
    requires (forall m: nat :: alloc(m)) && |st.results| <= MAX_RESULTS
    ensures TargetRoom(b, s, st, alloc) <==> |TargetFold(b, s, st, alloc).results| <= MAX_RESULTS
    decreases |s|
  {
    TargetInOrder(b, s, st, alloc);
    if s != [] {
      if s[0].ty != RESULT {
        TargetFits(b, s[1..], st, alloc);
      } else if |st.results| < MAX_RESULTS {
        TargetFits(b, s[1..], WithResult(st, Copy(b, s[0].off, s[0].len)), alloc);
      }
    }
  }

  lemma {:induction false} EventFits(b: seq<Byte>, s: seq<Attr>, st: Progress, alloc: nat -> bool)
    requires (forall m: nat :: alloc(m)) && |st.results| <= MAX_RESULTS
    ensures EventRoom(b, s, st, alloc) <==> |EventFold(b, s, st, alloc).results| <= MAX_RESULTS
    decreases |s|
  {
    if s != [] {
      var next := AttrStep(b, s[0], st, alloc);
      if s[0].ty == RESULTS_PER_TARGET {
        TargetFits(b, Inside(b, s[0]), st, alloc);
      }
      EventInOrder(b, s[1..], next, alloc);
      if |next.results| <= MAX_RESULTS {
        EventFits(b, s[1..], next, alloc);
      }
    }
  }

  /**
  With memory available the result array is never overrun if and only if at most 1024 results
  arrive up to the completing event.
   */
  lemma {:induction false} StreamFits(events: seq<seq<Byte>>, k: nat, alloc: nat -> bool)
    requires k <= |events| && forall m: nat :: alloc(m)
    ensures StreamRoom(events, k, alloc) <==> |Stream(events, k, alloc).results| <= MAX_RESULTS
  {
    if k > 0 {
      StreamFits(events, k - 1, alloc);
      LastFits(events, k - 1, alloc);
    }
  }

  lemma LastFits(events: seq<seq<Byte>>, i: nat, alloc: nat -> bool)
    requires i < |events| && forall m: nat :: alloc(m)
    ensures |Stream(events, i, alloc).results| <= |Stream(events, i + 1, alloc).results|
    ensures |Stream(events, i, alloc).results| <= MAX_RESULTS ==>
              (EventFinds(events, i, alloc) <==> |Stream(events, i + 1, alloc).results| <= MAX_RESULTS)
  {
    var before, last := Stream(events, i, alloc), events[i];
    EventInOrder(last, Walked(last), before, alloc);
    if |before.results| <= MAX_RESULTS {
      EventFits(last, Walked(last), before, alloc);
    }
  }

  // ----- events that overrun it

  /** `n` results without content. */
  function Empties(n: nat): (r: seq<Item>)
    ensures |r| == n && forall i :: 0 <= i < n ==> r[i] == Item(RESULT, [])
  {
    seq(n, _ => Item(RESULT, []))
  }

  /** An event that reports `n` results of one target. */
  function EventOf(n: nat): seq<Byte> {
    Encode(Nest(0, [Nest(RESULTS_PER_TARGET, Empties(n))]))
  }

  lemma {:induction false} EmptiesSize(n: nat)
    ensures |EncodeAll(Empties(n))| == NLA_HDRLEN * n
  {
    if n > 0 {
      EmptiesSize(n - 1);
      assert Empties(n)[1..] == Empties(n - 1);
    }
  }

  lemma {:induction false} TargetCount(b: seq<Byte>, s: seq<Attr>, xs: seq<Item>)
    requires AllCarry(b, s, xs) && forall x :: x in xs ==> x.ty == RESULT
    ensures |TargetResults(b, s)| == |xs|
    decreases |xs|
  {
    if xs != [] {
      assert xs[0] in xs;
      TargetCount(b, s[1..], xs[1..]);
    }
  }

  /** Walking the event finds the one target. */
  lemma TargetWalked(n: nat)
    requires NLA_HDRLEN * (n + 2) < 0x1_0000
    ensures AllCarry(EventOf(n), Walked(EventOf(n)), [Nest(RESULTS_PER_TARGET, Empties(n))])
  {
    var b, target := EventOf(n), Nest(RESULTS_PER_TARGET, Empties(n));
    EmptiesSize(n);
    NestBytes(RESULTS_PER_TARGET, Empties(n));
    assert EncodeAll([target]) == Encode(target) + EncodeAll([]);
    AtIsSlice(b, 0, b);
    ReadHeader(b, 0, Nest(0, [target]));
    WalkFindsItems(b, NLA_HDRLEN, |Encode(target)|, [target]);
  }

  /** Walking the target finds its results. */
  lemma EventCount(n: nat)
    requires NLA_HDRLEN * (n + 2) < 0x1_0000
    ensures |EventResults(EventOf(n), Walked(EventOf(n)))| == n
  {
    var b := EventOf(n);
    var s := Walked(b);
    TargetWalked(n);
    CarryAt(b, s, [Nest(RESULTS_PER_TARGET, Empties(n))], 0);
    EmptiesSize(n);
    WalkFindsNested(b, s[0], RESULTS_PER_TARGET, Empties(n));
    TargetCount(b, Inside(b, s[0]), Empties(n));
    assert EventResults(b, s) == AttrResults(b, s[0]) + EventResults(b, s[1..]);
  }

  /** One event overruns the array exactly from 1025 results on. */
  lemma OneEventFits(n: nat, alloc: nat -> bool)
    requires NLA_HDRLEN * (n + 2) < 0x1_0000 && forall m: nat :: alloc(m)
    ensures StreamRoom([EventOf(n)], 1, alloc) <==> n <= MAX_RESULTS
  {
    var events := [EventOf(n)];
    EventCount(n);
    var before := Stream(events, 0, alloc);
    EventInOrder(EventOf(n), Walked(EventOf(n)), before, alloc);
    StreamFits(events, 1, alloc);
  }

  function Somes(bs: seq<Blob>): (r: seq<Option<Blob>>)
    ensures |r| == |bs| && forall i :: 0 <= i < |r| ==> r[i] == Some(bs[i])
  {
    if bs == [] then [] else Somes(bs[..|bs| - 1]) + [Some(bs[|bs| - 1])]
  }

  lemma SomesAppend(bs: seq<Blob>, x: Blob)
    ensures Somes(bs + [x]) == Somes(bs) + [Some(x)]
  {
    assert (bs + [x])[..|bs|] == bs;
  }
}

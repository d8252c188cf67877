/**
What a stream of RTT events amounts to, said about the attributes of the events: when the command
is completed, which results are kept when memory runs out, and what events made of given results
bring.
 */
module RttStreams {
  import opened Options
  import opened Bytes
  import opened Netlink
  import opened Rtt
  import HT = HandlerTables

  // ----- one target, with or without memory

  /**
  A target adds its results up to the first one whose allocation fails; such a failure marks
  completion, and what follows it in the target is not looked at.
   */
  lemma {:induction false} TargetOutcome(b: seq<Byte>, s: seq<Attr>, st: Progress, alloc: nat -> bool) returns (n: nat)
    ensures n <= |TargetResults(b, s)| && forall m: nat :: st.allocs <= m < st.allocs + n ==> alloc(m)
    ensures n < |TargetResults(b, s)| ==> !alloc(st.allocs + n)
    ensures TargetFold(b, s, st, alloc)
         == if n == |TargetResults(b, s)| then Progress(st.results + TargetResults(b, s), st.completed, st.allocs + n)
            else Progress(st.results + TargetResults(b, s)[..n], 1, st.allocs + n + 1)
    decreases |s|
  {
    if s == [] {
      n := 0;
    } else if s[0].ty != RESULT {
      n := TargetOutcome(b, s[1..], st, alloc);
    } else if alloc(st.allocs) {
      var blob := Copy(b, s[0].off, s[0].len);
      n := TargetOutcome(b, s[1..], WithResult(st, blob), alloc);
      OneMoreResult(st.results, blob, TargetResults(b, s[1..]), n);
      n := n + 1;
    } else {
      n := 0;
    }
  }

  lemma OneMoreResult(front: seq<Blob>, blob: Blob, rest: seq<Blob>, n: nat)
    requires n <= |rest|
    ensures (front + [blob]) + rest == front + ([blob] + rest)
    ensures (front + [blob]) + rest[..n] == front + ([blob] + rest)[..n + 1]
  {
  }

  /** `at` are the positions of the result attributes, in order, and `rs` their bytes. */
  ghost predicate ResultsAt(b: seq<Byte>, s: seq<Attr>, rs: seq<Blob>, at: seq<nat>) {
    && |at| == |rs| && PositionsOf(s, 33, at)
    && (forall x :: 0 <= x < |at| ==> at[x] < |s| && BytesFrom(b, s[at[x]].off, s[at[x]].len, rs[x]))
  }

  lemma {:induction false} TargetAppend(b: seq<Byte>, s: seq<Attr>, a: Attr)
    ensures TargetResults(b, s + [a]) == TargetResults(b, s) + if a.ty == 33 then [Copy(b, a.off, a.len)] else []
    decreases |s|
  {
    if s == [] {
      assert (s + [a])[1..] == [];
    } else {
      assert (s + [a])[1..] == s[1..] + [a];
      TargetAppend(b, s[1..], a);
    }
  }

  /** The results of a target are the bytes of its result attributes, in order. */
  lemma {:induction false} ResultsOfTarget(b: seq<Byte>, s: seq<Attr>) returns (at: seq<nat>)
    ensures ResultsAt(b, s, TargetResults(b, s), at)
    decreases |s|
  {
    if s == [] {
      return [];
    }
    var front, a := s[..|s| - 1], s[|s| - 1];
    assert s == front + [a];
    at := ResultsOfTarget(b, front);
    TargetAppend(b, front, a);
    at := OneMoreAt(b, front, a, TargetResults(b, front), at);
  }

  lemma OneMoreAt(b: seq<Byte>, s: seq<Attr>, a: Attr, rs: seq<Blob>, at: seq<nat>) returns (more: seq<nat>)
    requires ResultsAt(b, s, rs, at)
    ensures ResultsAt(b, s + [a], rs + (if a.ty == 33 then [Copy(b, a.off, a.len)] else []), more)
  {
    more := if a.ty == 33 then at + [|s|] else at;
    CopyIsBytes(b, a.off, a.len);
    PositionsNext(s, a, 33, at);
  }

  lemma {:induction false} ResultsAppend(b: seq<Byte>, s: seq<Attr>, a: Attr)
    ensures EventResults(b, s + [a]) == EventResults(b, s) + AttrResults(b, a)
    decreases |s|
  {
    if s == [] {
      assert (s + [a])[1..] == [];
    } else {
      assert (s + [a])[1..] == s[1..] + [a];
      ResultsAppend(b, s[1..], a);
      ConcatAssoc(AttrResults(b, s[0]), EventResults(b, s[1..]), AttrResults(b, a));
    }
  }

  /** Attribute `j` of an event adds the results inside it if it is a target, and nothing otherwise. */
  lemma ResultsOfAttr(b: seq<Byte>, s: seq<Attr>, j: nat)
    requires j < |s|
    ensures EventResults(b, s[..j + 1])
         == EventResults(b, s[..j]) + if s[j].ty == 31 then TargetResults(b, Inside(b, s[j])) else []
  {
    assert s[..j + 1] == s[..j] + [s[j]];
    ResultsAppend(b, s[..j], s[j]);
  }

  // ----- when an event completes the command

  lemma {:induction false} EventAppend(b: seq<Byte>, s: seq<Attr>, a: Attr, st: Progress, alloc: nat -> bool)
    ensures EventFold(b, s + [a], st, alloc) == AttrStep(b, a, EventFold(b, s, st, alloc), alloc)
    decreases |s|
  {
    if s == [] {
      assert (s + [a])[1..] == [];
    } else {
      assert (s + [a])[1..] == s[1..] + [a];
      EventAppend(b, s[1..], a, AttrStep(b, s[0], st, alloc), alloc);
    }
  }

  /** Attribute `j` is a target for one of whose results there is no memory. */
  ghost predicate RunsOut(b: seq<Byte>, s: seq<Attr>, j: nat, st: Progress, alloc: nat -> bool) {
    && j < |s| && s[j].ty == 31
    && var from := EventFold(b, s[..j], st, alloc).allocs;
       exists m: nat :: from <= m < from + |TargetResults(b, Inside(b, s[j]))| && !alloc(m)
  }

  /** Attribute `j` says whether the command is completed. */
  ghost predicate Decides(b: seq<Byte>, s: seq<Attr>, j: nat, st: Progress, alloc: nat -> bool) {
    j < |s| && (s[j].ty == 30 || RunsOut(b, s, j, st, alloc))
  }

  ghost predicate LastToDecide(b: seq<Byte>, s: seq<Attr>, m: nat, j: nat, st: Progress, alloc: nat -> bool) {
    j < m <= |s| && Decides(b, s, j, st, alloc) && forall k: nat :: j < k < m ==> !Decides(b, s, k, st, alloc)
  }

  /** What attribute `j` decides: a completion flag its value, a target without memory 1. */
  function Decision(b: seq<Byte>, a: Attr): int { if a.ty == 30 then S32(Read(b, a.off, 4)) else 1 }

  /** `x` is what the last attribute to decide among the first `m` says, or what it was before when none does. */
  ghost predicate CompletedIs(b: seq<Byte>, s: seq<Attr>, m: nat, st: Progress, alloc: nat -> bool, x: int) {
    || ((forall k: nat :: k < m ==> !Decides(b, s, k, st, alloc)) && x == st.completed)
    || exists j: nat :: LastToDecide(b, s, m, j, st, alloc) && x == Decision(b, s[j])
  }

  lemma StepDecides(b: seq<Byte>, s: seq<Attr>, j: nat, st: Progress, alloc: nat -> bool)
    requires j < |s|
    ensures EventFold(b, s[..j + 1], st, alloc).completed
         == if s[j].ty == 30 then S32(Read(b, s[j].off, 4)) else if RunsOut(b, s, j, st, alloc) then 1
            else EventFold(b, s[..j], st, alloc).completed
  {
    var before := EventFold(b, s[..j], st, alloc);
    assert s[..j + 1] == s[..j] + [s[j]];
    EventAppend(b, s[..j], s[j], st, alloc);
    if s[j].ty == 31 {
      var n := TargetOutcome(b, Inside(b, s[j]), before, alloc);
    }
  }

  lemma CompletedNext(b: seq<Byte>, s: seq<Attr>, m: nat, st: Progress, alloc: nat -> bool, x: int)
    requires m < |s| && CompletedIs(b, s, m, st, alloc, x)
    ensures CompletedIs(b, s, m + 1, st, alloc, if Decides(b, s, m, st, alloc) then Decision(b, s[m]) else x)
  {
    if Decides(b, s, m, st, alloc) {
      assert LastToDecide(b, s, m + 1, m, st, alloc);
    } else if j: nat :| LastToDecide(b, s, m, j, st, alloc) && x == Decision(b, s[j]) {
      assert LastToDecide(b, s, m + 1, j, st, alloc);
    }
  }

  /** After an event the command is as completed as the last attribute that decides says. */
  lemma {:induction false} CompletedBy(b: seq<Byte>, s: seq<Attr>, m: nat, st: Progress, alloc: nat -> bool)
    requires m <= |s|
    ensures CompletedIs(b, s, m, st, alloc, EventFold(b, s[..m], st, alloc).completed)
  {
    if m > 0 {
      CompletedBy(b, s, m - 1, st, alloc);
      CompletedNext(b, s, m - 1, st, alloc, EventFold(b, s[..m - 1], st, alloc).completed);
      StepDecides(b, s, m - 1, st, alloc);
    } else {
      assert s[..0] == [];
    }
  }

  /** `x` is the value of the last completion flag, or `before` without one. */
  ghost predicate FlagSays(b: seq<Byte>, s: seq<Attr>, before: int, x: int) {
    (NoneOf(s, |s|, 30) && x == before) || exists j: nat :: LastOf(s, |s|, 30, j) && x == S32(Read(b, s[j].off, 4))
  }

  /** With memory the flag alone decides. */
  lemma FlagDecides(b: seq<Byte>, s: seq<Attr>, st: Progress, alloc: nat -> bool)
    requires forall n: nat :: alloc(n)
    ensures FlagSays(b, s, st.completed, EventFold(b, s, st, alloc).completed)
  {
    var x := EventFold(b, s, st, alloc).completed;
    CompletedBy(b, s, |s|, st, alloc);
    assert s[..|s|] == s;
    forall j: nat ensures Decides(b, s, j, st, alloc) <==> j < |s| && s[j].ty == 30 {
      WithMemory(b, s, j, st, alloc);
    }
    if j: nat :| LastToDecide(b, s, |s|, j, st, alloc) && x == Decision(b, s[j]) {
      assert LastOf(s, |s|, 30, j);
    }
  }

  lemma WithMemory(b: seq<Byte>, s: seq<Attr>, j: nat, st: Progress, alloc: nat -> bool)
    requires forall n: nat :: alloc(n)
    ensures Decides(b, s, j, st, alloc) <==> j < |s| && s[j].ty == 30
  {
  }

  /** The last completion flag of the event is there and not 0. */
  ghost predicate Completes(e: seq<Byte>) {
    var s := Attrs(e, 4, Read(e, 0, 2) - 4);
    exists j: nat :: LastOf(s, |s|, 30, j) && S32(Read(e, s[j].off, 4)) != 0
  }

  lemma EventCompletes(e: seq<Byte>, st: Progress, alloc: nat -> bool)
    requires (forall n: nat :: alloc(n)) && st.completed == 0
    ensures After(st, e, alloc).completed != 0 <==> Completes(e)
  {
    FlagDecides(e, Walked(e), st, alloc);
    FlagCompletes(e, After(st, e, alloc).completed);
  }

  lemma FlagCompletes(e: seq<Byte>, x: int)
    requires FlagSays(e, Walked(e), 0, x)
    ensures x != 0 <==> Completes(e)
  {
    var s := Walked(e);
    forall i: nat, j: nat | LastOf(s, |s|, 30, i) && LastOf(s, |s|, 30, j) ensures i == j {
    }
  }

  /** Which events complete the command. */
  ghost function Flags(events: seq<seq<Byte>>): (r: seq<bool>)
    ensures |r| == |events| && forall i :: 0 <= i < |r| ==> r[i] == Completes(events[i])
  {
    seq(|events|, i requires 0 <= i < |events| => Completes(events[i]))
  }

  /** Event number `n` is the first to complete the command, or the last of `k` that do not. */
  ghost predicate EndsAt(flags: seq<bool>, k: nat, n: nat, done: bool) {
    && n <= k <= |flags| && (forall i :: 0 <= i < n - 1 ==> !flags[i])
    && (n < k ==> done) && (done <==> n > 0 && flags[n - 1])
  }

  /** What event `i` does to a stream that is not completed: its results are added, and `done` tells whether it ends. */
  ghost predicate Grows(events: seq<seq<Byte>>, i: nat, alloc: nat -> bool, done: bool)
    requires i < |events|
  {
    Stream(events, i, alloc).completed == 0 ==>
      && Stream(events, i + 1, alloc).results
      == Stream(events, i, alloc).results + EventResults(events[i], Walked(events[i]))
      && (Stream(events, i + 1, alloc).completed != 0 <==> done)
  }

  lemma {:induction false} StreamEndsAt(events: seq<seq<Byte>>, flags: seq<bool>, k: nat, alloc: nat -> bool)
      returns (n: nat)
    requires k <= |events| == |flags| && forall i :: 0 <= i < |events| ==> Grows(events, i, alloc, flags[i])
    ensures EndsAt(flags, k, n, Stream(events, k, alloc).completed != 0)
    ensures Stream(events, k, alloc).results == Arrived(events, n)
  {
    if k == 0 {
      return 0;
    }
    n := StreamEndsAt(events, flags, k - 1, alloc);
    if Stream(events, k - 1, alloc).completed == 0 {
      assert Grows(events, k - 1, alloc, flags[k - 1]);
      n := k;
    }
  }

  lemma StreamGrows(events: seq<seq<Byte>>, i: nat, alloc: nat -> bool)
    requires i < |events| && forall m: nat :: alloc(m)
    ensures Grows(events, i, alloc, Completes(events[i]))
  {
    var before, last := Stream(events, i, alloc), events[i];
    EventInOrder(last, Walked(last), before, alloc);
    if before.completed == 0 {
      EventCompletes(last, before, alloc);
    }
  }

  lemma FlagsGrow(events: seq<seq<Byte>>, i: nat, alloc: nat -> bool)
    requires i < |events| && forall m: nat :: alloc(m)
    ensures Grows(events, i, alloc, Flags(events)[i])
  {
    StreamGrows(events, i, alloc);
  }

  /**
  With memory available: a stream is completed if and only if one of its events carries a last
  flag that is not 0.  What was collected are the results of all events up to the first such
  event, in arrival order.
   */
  lemma StreamEnds(events: seq<seq<Byte>>, k: nat, alloc: nat -> bool) returns (n: nat)
    requires k <= |events| && forall m: nat :: alloc(m)
    ensures n <= k && Stream(events, k, alloc).results == Arrived(events, n)
    ensures var flags, done := Flags(events), Stream(events, k, alloc).completed != 0;
            && (forall i :: 0 <= i < n - 1 ==> !flags[i]) && (n < k ==> n > 0 && flags[n - 1])
            && (done <==> exists i :: 0 <= i < k && flags[i])
  {
    forall i | 0 <= i < |events| ensures Grows(events, i, alloc, Flags(events)[i]) {
      FlagsGrow(events, i, alloc);
    }
    n := StreamEndsAt(events, Flags(events), k, alloc);
    OneEnds(Flags(events), k, n, Stream(events, k, alloc).completed != 0);
  }

  lemma OneEnds(flags: seq<bool>, k: nat, n: nat, done: bool)
    requires EndsAt(flags, k, n, done)
    ensures done <==> exists i :: 0 <= i < k && flags[i]
  {
    if done {
      assert flags[n - 1];
    }
  }

  // ----- events made of given results

  function ResultItems(blobs: seq<Blob>): (r: seq<Item>)
    ensures |r| == |blobs| && forall i :: 0 <= i < |r| ==> r[i] == Item(RESULT, blobs[i])
  {
    seq(|blobs|, i requires 0 <= i < |blobs| => Item(RESULT, blobs[i]))
  }

  /** One nest for each target, and then the completion flag. */
  function EventItems(targets: seq<seq<Blob>>, flag: int): seq<Item> {
    if targets == [] then [U32Item(RESULTS_COMPLETE, flag)]
    else [Nest(RESULTS_PER_TARGET, ResultItems(targets[0]))] + EventItems(targets[1..], flag)
  }

  function Flat(targets: seq<seq<Blob>>): seq<Blob> {
    if targets == [] then [] else targets[0] + Flat(targets[1..])
  }

  lemma {:induction false} TargetBack(b: seq<Byte>, s: seq<Attr>, blobs: seq<Blob>)
    requires AllCarry(b, s, ResultItems(blobs))
    ensures TargetResults(b, s) == blobs
    decreases |blobs|
  {
    if blobs != [] {
      CarryAt(b, s, ResultItems(blobs), 0);
      CopyBack(b, s[0].off, blobs[0]);
      assert ResultItems(blobs)[1..] == ResultItems(blobs[1..]);
      TargetBack(b, s[1..], blobs[1..]);
      assert blobs == [blobs[0]] + blobs[1..];
    }
  }

  /** `s` are the attributes of such an event. */
  ghost predicate Arrives(b: seq<Byte>, s: seq<Attr>, targets: seq<seq<Blob>>, flag: int) {
    AllCarry(b, s, EventItems(targets, flag)) && |EncodeAll(EventItems(targets, flag))| < 0x1_0000
  }

  lemma FirstTargetBrings(b: seq<Byte>, s: seq<Attr>, targets: seq<seq<Blob>>, flag: int, st: Progress,
                          alloc: nat -> bool)
    requires targets != [] && Arrives(b, s, targets, flag) && forall n: nat :: alloc(n)
    ensures s != [] && Arrives(b, s[1..], targets[1..], flag)
    ensures AttrStep(b, s[0], st, alloc)
         == Progress(st.results + targets[0], st.completed, st.allocs + |targets[0]|)
  {
    var items, nest := EventItems(targets, flag), Nest(RESULTS_PER_TARGET, ResultItems(targets[0]));
    CarryAt(b, s, items, 0);
    assert items[1..] == EventItems(targets[1..], flag);
    ItemWithin(items, nest);
    AllFitWithin(ResultItems(targets[0]));
    WalkFindsNested(b, s[0], RESULTS_PER_TARGET, ResultItems(targets[0]));
    TargetBack(b, Inside(b, s[0]), targets[0]);
    var n := TargetOutcome(b, Inside(b, s[0]), st, alloc);
  }

  lemma FlagBrings(b: seq<Byte>, s: seq<Attr>, flag: int, st: Progress, alloc: nat -> bool)
    requires Arrives(b, s, [], flag) && -0x8000_0000 <= flag < 0x8000_0000
    ensures EventFold(b, s, st, alloc) == st.(completed := flag)
  {
    CarryAt(b, s, EventItems([], flag), 0);
    ReadsU32(b, s[0], RESULTS_COMPLETE, flag);
    SignedAgain(flag);
    assert EventFold(b, s, st, alloc) == EventFold(b, s[1..], AttrStep(b, s[0], st, alloc), alloc);
  }

  lemma {:induction false} ItemsBring(b: seq<Byte>, s: seq<Attr>, targets: seq<seq<Blob>>, flag: int, st: Progress,
                                      alloc: nat -> bool)
    requires Arrives(b, s, targets, flag) && -0x8000_0000 <= flag < 0x8000_0000 && forall n: nat :: alloc(n)
    ensures EventFold(b, s, st, alloc)
         == Progress(st.results + Flat(targets), flag, st.allocs + |Flat(targets)|)
    decreases |targets|
  {
    if targets == [] {
      FlagBrings(b, s, flag, st, alloc);
    } else {
      var next := Progress(st.results + targets[0], st.completed, st.allocs + |targets[0]|);
      FirstTargetBrings(b, s, targets, flag, st, alloc);
      ItemsBring(b, s[1..], targets[1..], flag, next, alloc);
      ConcatAssoc(st.results, targets[0], Flat(targets[1..]));
    }
  }

  function EventWith(targets: seq<seq<Blob>>, flag: int): seq<Byte> {
    Encode(Nest(0, EventItems(targets, flag)))
  }

  lemma {:induction false} ItemTypes(targets: seq<seq<Blob>>, flag: int)
    ensures forall x :: x in EventItems(targets, flag) ==> x.ty == RESULTS_PER_TARGET || x.ty == RESULTS_COMPLETE
  {
    if targets != [] {
      ItemTypes(targets[1..], flag);
    }
  }

  /** An event made of given results and a flag adds those results and sets the flag. */
  lemma EventBrings(targets: seq<seq<Blob>>, flag: int, st: Progress, alloc: nat -> bool)
    requires NLA_HDRLEN + |EncodeAll(EventItems(targets, flag))| < 0x1_0000
    requires -0x8000_0000 <= flag < 0x8000_0000 && forall n: nat :: alloc(n)
    ensures After(st, EventWith(targets, flag), alloc)
         == Progress(st.results + Flat(targets), flag, st.allocs + |Flat(targets)|)
  {
    var b := EventWith(targets, flag);
    EventItemsFit(targets, flag);
    EventWalked(b, EventItems(targets, flag));
    EventArrives(b, Walked(b), targets, flag, st, alloc);
  }

  lemma EventItemsFit(targets: seq<seq<Blob>>, flag: int)
    requires |EncodeAll(EventItems(targets, flag))| < 0x1_0000
    ensures AllFit(EventItems(targets, flag))
  {
    ItemTypes(targets, flag);
    AllFitWithin(EventItems(targets, flag));
  }

  lemma EventWalked(b: seq<Byte>, items: seq<Item>)
    requires b == Encode(Nest(0, items)) && NLA_HDRLEN + |EncodeAll(items)| < 0x1_0000 && AllFit(items)
    ensures AllCarry(b, Walked(b), items)
  {
    WalkOfNest(0, items);
  }

  lemma EventArrives(b: seq<Byte>, s: seq<Attr>, targets: seq<seq<Blob>>, flag: int, st: Progress, alloc: nat -> bool)
    requires AllCarry(b, s, EventItems(targets, flag)) && |EncodeAll(EventItems(targets, flag))| < 0x1_0000
    requires -0x8000_0000 <= flag < 0x8000_0000 && forall n: nat :: alloc(n)
    ensures EventFold(b, s, st, alloc) == Progress(st.results + Flat(targets), flag, st.allocs + |Flat(targets)|)
  {
    ItemsBring(b, s, targets, flag, st, alloc);
  }

  /**
  An event with up to 1024 results and a flag that is not 0, dispatched to a command that waits
  for it: one delivery of exactly these results, each freed once, and the command out of both
  tables.  With flag 0 nothing is delivered.
   */
  method DeliverOne(c: RttCommand, info: HT.HalInfo, self: HT.Ptr, targets: seq<seq<Blob>>, flag: int,
                    alloc: nat -> bool) returns (released: seq<HT.Ptr>)
    requires info.Valid() && c.Tracks(info, self, Progress([], 0, 0))
    requires c.rttResults as object != info.eventCb && c.rttResults as object != info.cmd
    requires NLA_HDRLEN + |EncodeAll(EventItems(targets, flag))| < 0x1_0000 && |Flat(targets)| <= 1024
    requires -0x8000_0000 <= flag < 0x8000_0000 && forall n: nat :: alloc(n)
    modifies c, c.rttResults, info, info.eventCb, info.cmd
    ensures info.Valid()
    ensures flag != 0 ==>
              && c.delivered == [Somes(Flat(targets))] && c.freed == Somes(Flat(targets))
              && HT.ArgsOf(info.Callbacks(), HT.Vendor(0x1A11, 4)) == []
              && info.Commands() == HT.RemoveId(old(info.Commands()), c.id)
              && released == Found(HT.FindId(old(info.Commands()), c.id))
    ensures flag == 0 ==>
              && c.delivered == [] && c.freed == [] && released == []
              && c.currentIdx == |Flat(targets)| <= c.rttResults.Length
              && c.rttResults[..c.currentIdx] == Somes(Flat(targets))
              && HT.ArgsOf(info.Callbacks(), HT.Vendor(0x1A11, 4)) == [self] && info.Commands() == old(info.Commands())
  {
    var events := [EventWith(targets, flag)];
    EventBrings(targets, flag, Progress([], 0, 0), alloc);
    StreamFits(events, 1, alloc);
    assert Stream(events, 0, alloc) == Progress([], 0, 0);
    assert [] + Flat(targets) == Flat(targets);
    released := c.DispatchAll(info, self, events, alloc);
  }
}

/**
The lifetime protocol of WifiCommand objects (wifi_hal/wifi_hal.cpp, wifi_hal/common.cpp,
wifi_hal/gscan.cpp, wifi_hal/rtt.cpp) as a machine of two threads.

The API thread starts, cancels and finally cleans up; the event thread looks a callback up
under cb_lock, takes a reference, drops the lock, runs the callback and releases.  Each step
below is one access to a shared table, one touch of a command object or one reference count
operation, so the two threads interleave between any two of them.  A step that touches a
deleted command, or hal_info after it was freed, raises `fault` instead of being disabled.
 */
module Lifecycle {
  import opened Options
  import opened HandlerTables

  // ----- what each class of command registers

  const SIGNIFICANT_CHANGE := Vendor(GOOGLE_OUI, 0)
  const HOTLIST_FOUND := Vendor(GOOGLE_OUI, 1)
  const SCAN_AVAILABLE := Vendor(GOOGLE_OUI, 2)
  const FULL_SCAN := Vendor(GOOGLE_OUI, 3)
  const RTT_COMPLETE := Vendor(GOOGLE_OUI, 4)
  const COMPLETE_SCAN := Vendor(GOOGLE_OUI, 5)
  const HOTLIST_LOST := Vendor(GOOGLE_OUI, 6)
  const RSSI_MONITOR := Vendor(GOOGLE_OUI, 7)
  const EPNO := Vendor(GOOGLE_OUI, 8)
  const ANQPO_MATCH := Vendor(GOOGLE_OUI, 9)

  datatype Kind = Scan | FullScan | Hotlist | EPno | SignificantChange | Anqpo | Rssi | Rtt

  /** A piece of start(): register a handler, or talk to the driver and on failure unregister `undo`. */
  datatype StartOp = Reg(key: Key) | Request(undo: seq<Key>)

  function StartScript(kind: Kind): seq<StartOp> {
    match kind
    case Scan => [Request([]), Reg(SCAN_AVAILABLE), Reg(COMPLETE_SCAN), Reg(FULL_SCAN),
                  Request([COMPLETE_SCAN, SCAN_AVAILABLE, FULL_SCAN])]
    case FullScan => [Request([]), Reg(FULL_SCAN), Request([FULL_SCAN])]
    case Hotlist => [Request([]), Request([HOTLIST_FOUND, HOTLIST_LOST]), Request([]),
                     Reg(HOTLIST_FOUND), Reg(HOTLIST_LOST), Request([HOTLIST_FOUND, HOTLIST_LOST])]
    case EPno => [Request([]), Request([EPNO]), Reg(EPNO)]
    case SignificantChange => [Request([]), Reg(SIGNIFICANT_CHANGE), Request([SIGNIFICANT_CHANGE])]
    case Anqpo => [Request([]), Reg(ANQPO_MATCH), Request([ANQPO_MATCH])]
    case Rssi => [Request([]), Reg(RSSI_MONITOR)]
    case Rtt => [Request([]), Reg(RTT_COMPLETE)]
  }

  /** The keys cancel() unregisters, in its order. */
  function CancelKeys(kind: Kind): seq<Key> {
    match kind
    case Scan => [COMPLETE_SCAN, SCAN_AVAILABLE, FULL_SCAN]
    case FullScan => [FULL_SCAN]
    case Hotlist => [HOTLIST_FOUND, HOTLIST_LOST]
    case EPno => [EPNO]
    case SignificantChange => [SIGNIFICANT_CHANGE]
    case Anqpo => [ANQPO_MATCH]
    case Rssi => [RSSI_MONITOR]
    case Rtt => [RTT_COMPLETE]
  }

  // ----- state

  /**
  `keys`: what cancel() unregisters.  `endsItself`: handleEvent can complete the command (RTT).
  `temp`: built by a stop call only to run cancel(), never put into a table.
   */
  datatype Obj = Obj(id: int, keys: seq<Key>, endsItself: bool, temp: bool,
                     refs: int, live: bool, ownerReleases: nat)

  datatype ApiPc =
    | Idle
    | Starting(p: Ptr, script: seq<StartOp>, done: nat)   // `done` pieces of start() executed
    | Unwinding(p: Ptr, keys: seq<Key>)
    | FailUnregister(p: Ptr)
    | Cancelling(p: Ptr, keys: seq<Key>)
    | Releasing(p: Ptr)
    | WaitDone
    | Draining(bad: nat)
    | DrainCancel(bad: nat, p: Ptr, keys: seq<Key>, num: nat)
    | DrainRelease(bad: nat, p: Ptr)
    | Finished

  datatype EvPc =
    | Poll
    | Recv
    | Callback(p: Ptr)
    | EndUnregister(p: Ptr)
    | EndCommand(p: Ptr)
    | EndRelease(p: Ptr, found: Ptr)
    | FinishCallback(p: Ptr)
    | LoopCheck
    | Exited

  datatype State = State(
    objs: map<Ptr, Obj>,
    cmds: seq<CmdInfo>,
    cbs: seq<CbInfo>,
    api: ApiPc,
    ev: EvPc,
    exitPending: bool,   // "Exit" written, not read by the loop
    donePending: bool,   // "Done" written, not read by cleanup
    cleanUp: bool,
    freed: bool,
    fault: bool)

  const Init := State(map[], [], [], Idle, Poll, false, false, false, false, false)

  // ----- primitive effects

  predicate Alive(objs: map<Ptr, Obj>, p: Ptr) { p in objs && objs[p].live }

  /** Dereference a command. */
  function Touch(s: State, p: Ptr): State {
    s.(fault := s.fault || !Alive(s.objs, p))
  }

  /** Dereference hal_info. */
  function TouchHal(s: State): State {
    s.(fault := s.fault || s.freed)
  }

  function AddRef(s: State, p: Ptr): State {
    Touch(s, p).(objs := if Alive(s.objs, p) then s.objs[p := s.objs[p].(refs := s.objs[p].refs + 1)] else s.objs)
  }

  function Released(o: Obj, owner: bool): Obj {
    o.(refs := o.refs - 1, live := o.refs - 1 != 0, ownerReleases := o.ownerReleases + if owner then 1 else 0)
  }

  /** releaseRef(): deletes at zero.  `owner` tells whether this gives up the owner's share. */
  function Release(s: State, p: Ptr, owner: bool): State {
    Touch(s, p).(objs := if Alive(s.objs, p) then s.objs[p := Released(s.objs[p], owner)] else s.objs)
  }

  function Unregister(s: State, k: Key): State {
    TouchHal(s).(cbs := RemoveKey(s.cbs, k))
  }

  function EntryOf(k: Key, p: Ptr): CbInfo {
    match k
    case Plain(c) => CbInfo(c, 0, 0, 1, p)
    case Vendor(v, sub) => CbInfo(NL80211_CMD_VENDOR, v, sub, 1, p)
  }

  // ----- steps

  datatype Step =
    // API thread
    | ApiStart(p: Ptr, id: int, kind: Kind)
    | ApiStartOp(ok: bool)
    | ApiStarted
    | ApiUnwind
    | ApiFailUnregister
    | ApiCancel(id: int)
    | ApiStop(p: Ptr, id: int, kind: Kind)
    | ApiCancelOp
    | ApiRelease
    | ApiCleanup
    | ApiReadDone
    | ApiDrainNext
    | ApiDrainOp
    | ApiDrainRelease
    | ApiFree
    // event thread
    | EvPollIn
    | EvPollOther
    | EvHangUp
    | EvReadExit
    | EvLoopCheck
    | EvDispatch(key: Key)
    | EvRecvDone
    | EvRun(completes: bool)
    | EvEndUnregister
    | EvEndCommand
    | EvEndRelease
    | EvFinish

  /**
  No live registered command has this request id, and no callback is registered under these
  event keys.  A live command may well have the keys: a stop call takes its callbacks out and
  leaves the command in the table.
   */
  ghost predicate NoClash(s: State, id: int, keys: seq<Key>) {
    && (forall q :: q in s.objs && s.objs[q].live && !s.objs[q].temp ==> s.objs[q].id != id)
    && (forall e :: e in s.cbs ==> KeyOf(e) !in keys)
  }

  /** Which of the two threads takes the step. */
  predicate IsEventStep(step: Step) {
    step.EvPollIn? || step.EvPollOther? || step.EvHangUp? || step.EvReadExit? || step.EvLoopCheck?
    || step.EvDispatch? || step.EvRecvDone? || step.EvRun? || step.EvEndUnregister? || step.EvEndCommand?
    || step.EvEndRelease? || step.EvFinish?
  }

  ghost predicate CanStart(s: State, p: Ptr, id: int, kind: Kind) {
    s.api.Idle? && p != 0 && p !in s.objs && NoClash(s, id, CancelKeys(kind))
  }

  /** Registering a handler does not fail as a driver request can. */
  predicate CanStartOp(s: State, ok: bool) {
    s.api.Starting? && s.api.done < |s.api.script| && (s.api.script[s.api.done].Reg? ==> ok)
  }

  predicate CanDrainNext(s: State) {
    s.api.Draining? && s.api.bad < |s.cmds| && s.cmds[s.api.bad].cmd in s.objs
  }

  ghost predicate ApiEnabled(s: State, step: Step)
    requires !IsEventStep(step)
  {
    match step
    case ApiStart(p, id, kind) => CanStart(s, p, id, kind)
    case ApiStartOp(ok) => CanStartOp(s, ok)
    case ApiStarted => s.api.Starting? && s.api.done >= |s.api.script|
    case ApiUnwind => s.api.Unwinding?
    case ApiFailUnregister => s.api.FailUnregister? && s.api.p in s.objs
    case ApiCancel(id) => s.api.Idle?
    case ApiStop(p, id, kind) => s.api.Idle? && p != 0 && p !in s.objs
    case ApiCancelOp => s.api.Cancelling?
    case ApiRelease => s.api.Releasing?
    case ApiCleanup => s.api.Idle?
    case ApiReadDone => s.api.WaitDone? && s.donePending
    case ApiDrainNext => CanDrainNext(s)
    case ApiDrainOp => s.api.DrainCancel?
    case ApiDrainRelease => s.api.DrainRelease?
    case ApiFree => s.api.Draining? && s.api.bad >= |s.cmds|
  }

  predicate EventEnabled(s: State, step: Step)
    requires IsEventStep(step)
  {
    match step
    case EvPollIn => s.ev.Poll?
    case EvPollOther => s.ev.Poll?
    case EvHangUp => s.ev.Poll?
    case EvReadExit => s.ev.Poll? && s.exitPending
    case EvLoopCheck => s.ev.LoopCheck?
    case EvDispatch(key) => s.ev.Recv?
    case EvRecvDone => s.ev.Recv?
    case EvRun(completes) => s.ev.Callback? && s.ev.p in s.objs
    case EvEndUnregister => s.ev.EndUnregister?
    case EvEndCommand => s.ev.EndCommand? && s.ev.p in s.objs
    case EvEndRelease => s.ev.EndRelease?
    case EvFinish => s.ev.FinishCallback?
  }

  ghost predicate Enabled(s: State, step: Step) {
    if IsEventStep(step) then EventEnabled(s, step) else ApiEnabled(s, step)
  }

  /** new WifiCommand: one reference, held by whoever created it. */
  function NewObj(id: int, keys: seq<Key>, endsItself: bool, temp: bool): Obj {
    Obj(id, keys, endsItself, temp, 1, true, 0)
  }

  // new, wifi_register_cmd; a full table releases at once
  function Start(s: State, p: Ptr, id: int, script: seq<StartOp>, keys: seq<Key>, endsItself: bool): State {
    var s1 := TouchHal(s.(objs := s.objs[p := NewObj(id, keys, endsItself, false)]));
    if |s.cmds| < DEFAULT_CMD_SIZE
    then s1.(cmds := s.cmds + [CmdInfo(id, p)], api := Starting(p, script, 0))
    else s1.(api := Releasing(p))
  }

  function StartKind(s: State, p: Ptr, id: int, kind: Kind): State {
    Start(s, p, id, StartScript(kind), CancelKeys(kind), kind == Rtt)
  }

  // stop calls that build a temporary command to run cancel() on it
  function Stop(s: State, p: Ptr, id: int, keys: seq<Key>, endsItself: bool): State {
    s.(objs := s.objs[p := NewObj(id, keys, endsItself, true)], api := Cancelling(p, keys))
  }

  function StopKind(s: State, p: Ptr, id: int, kind: Kind): State {
    Stop(s, p, id, CancelKeys(kind), kind == Rtt)
  }

  // one piece of start()
  function RunStartOp(s: State, p: Ptr, script: seq<StartOp>, done: nat, ok: bool): State
    requires done < |script|
  {
    var s1 := TouchHal(Touch(s, p));
    match script[done]
    case Reg(k) =>
      s1.(cbs := AppendIfRoom(DEFAULT_EVENT_CB_SIZE, s.cbs, EntryOf(k, p)), api := Starting(p, script, done + 1))
    case Request(undo) =>
      s1.(api := if ok then Starting(p, script, done + 1) else Unwinding(p, undo))
  }

  function Unwind(s: State, p: Ptr, keys: seq<Key>): State {
    if keys == [] then s.(api := FailUnregister(p))
    else Unregister(Touch(s, p), keys[0]).(api := Unwinding(p, keys[1..]))
  }

  // wifi_unregister_cmd after a failed start
  function TakeOutFailed(s: State, p: Ptr): State
    requires p in s.objs
  {
    TouchHal(s).(cmds := RemoveId(s.cmds, s.objs[p].id), api := Releasing(p))
  }

  // wifi_cancel_cmd
  function Cancel(s: State, id: int): State {
    var found := FindId(s.cmds, id);
    var s1 := TouchHal(s).(cmds := RemoveId(s.cmds, id));
    if found.None? then s1
    else if found.value in s.objs
    then Touch(s1, found.value).(api := Cancelling(found.value, s.objs[found.value].keys))
    else s1.(fault := true)
  }

  // one piece of cancel()
  function RunCancelOp(s: State, p: Ptr, keys: seq<Key>): State {
    if keys == [] then Touch(s, p).(api := Releasing(p))
    else Unregister(Touch(s, p), keys[0]).(api := Cancelling(p, keys[1..]))
  }

  function GiveUp(s: State, p: Ptr): State { Release(s, p, true).(api := Idle) }

  // wifi_cleanup writes Exit
  function Cleanup(s: State): State { TouchHal(s).(exitPending := true, api := WaitDone) }

  // the first log loop of wifi_cleanup reads every command left in the callback table
  ghost function ReadDone(s: State): State {
    var s1 := TouchHal(s).(donePending := false, cleanUp := true, api := Draining(0));
    if forall e :: e in s.cbs ==> Alive(s.objs, e.cbArg) then s1 else s1.(fault := true)
  }

  function DrainNext(s: State, bad: nat): State
    requires bad < |s.cmds| && s.cmds[bad].cmd in s.objs
  {
    var p := s.cmds[bad].cmd;
    TouchHal(Touch(s, p)).(api := DrainCancel(bad, p, s.objs[p].keys, |s.cmds|))
  }

  function DrainOp(s: State, bad: nat, p: Ptr, keys: seq<Key>, num: nat): State {
    if keys == [] then
      TouchHal(Touch(s, p)).(api := DrainRelease(if num == |s.cmds| then bad + 1 else bad, p))
    else Unregister(Touch(s, p), keys[0]).(api := DrainCancel(bad, p, keys[1..], num))
  }

  function DrainGiveUp(s: State, p: Ptr, bad: nat): State { Release(s, p, true).(api := Draining(bad)) }

  // internal_cleaned_up_handler
  function Free(s: State): State { TouchHal(s).(freed := true, api := Finished) }

  // internal_valid_message_handler
  function Dispatch(s: State, key: Key): State {
    var found := FindKey(s.cbs, key);
    if found.None? then TouchHal(s)
    else TouchHal(AddRef(s, found.value.cbArg)).(ev := Callback(found.value.cbArg))
  }

  // handleEvent; only RTT ends its own command
  function RunCallback(s: State, p: Ptr, completes: bool): State
    requires p in s.objs
  {
    Touch(s, p).(ev := if completes && s.objs[p].endsItself then EndUnregister(p) else FinishCallback(p))
  }

  function EndOwnHandler(s: State, p: Ptr): State {
    Unregister(Touch(s, p), RTT_COMPLETE).(ev := EndCommand(p))
  }

  function EndOwnShare(s: State, p: Ptr, found: Ptr): State {
    Release(s, found, true).(ev := FinishCallback(p))
  }

  function FinishOn(s: State, p: Ptr): State {
    Release(Touch(s, p), p, false).(ev := Recv)
  }

  function EndCommandByItself(s: State, p: Ptr): State
    requires p in s.objs
  {
    var found := FindId(s.cmds, s.objs[p].id);
    TouchHal(Touch(s, p)).(cmds := RemoveId(s.cmds, s.objs[p].id),
      ev := if found.Some? then EndRelease(p, found.value) else FinishCallback(p))
  }

  ghost function ApplyApi(s: State, step: Step): State
    requires !IsEventStep(step) && ApiEnabled(s, step)
  {
    match step
    case ApiStart(p, id, kind) => StartKind(s, p, id, kind)
    case ApiStartOp(ok) => RunStartOp(s, s.api.p, s.api.script, s.api.done, ok)
    case ApiStarted => s.(api := Idle)
    case ApiUnwind => Unwind(s, s.api.p, s.api.keys)
    case ApiFailUnregister => TakeOutFailed(s, s.api.p)
    case ApiCancel(id) => Cancel(s, id)
    case ApiStop(p, id, kind) => StopKind(s, p, id, kind)
    case ApiCancelOp => RunCancelOp(s, s.api.p, s.api.keys)
    case ApiRelease => GiveUp(s, s.api.p)
    case ApiCleanup => Cleanup(s)
    case ApiReadDone => ReadDone(s)
    case ApiDrainNext => DrainNext(s, s.api.bad)
    case ApiDrainOp => DrainOp(s, s.api.bad, s.api.p, s.api.keys, s.api.num)
    case ApiDrainRelease => DrainGiveUp(s, s.api.p, s.api.bad)
    case ApiFree => Free(s)
  }

  function ApplyEvent(s: State, step: Step): State
    requires IsEventStep(step) && EventEnabled(s, step)
  {
    match step
    case EvPollIn => TouchHal(s).(ev := Recv)
    case EvPollOther => s.(ev := LoopCheck)
    case EvHangUp => s.(ev := Exited)
    case EvReadExit => s.(exitPending := false, donePending := true, ev := Exited)
    case EvLoopCheck => TouchHal(s).(ev := if s.cleanUp then Exited else Poll)
    case EvDispatch(key) => Dispatch(s, key)
    case EvRecvDone => s.(ev := LoopCheck)
    case EvRun(completes) => RunCallback(s, s.ev.p, completes)
    case EvEndUnregister => EndOwnHandler(s, s.ev.p)
    case EvEndCommand => EndCommandByItself(s, s.ev.p)
    case EvEndRelease => EndOwnShare(s, s.ev.p, s.ev.found)
    case EvFinish => FinishOn(s, s.ev.p)
  }

  ghost function Apply(s: State, step: Step): State
    requires Enabled(s, step)
  {
    if IsEventStep(step) then ApplyEvent(s, step) else ApplyApi(s, step)
  }

  /** `steps` is a possible run from `s`. */
  ghost predicate IsRun(s: State, steps: seq<Step>)
    decreases |steps|
  {
    steps == [] || (Enabled(s, steps[0]) && IsRun(Apply(s, steps[0]), steps[1..]))
  }

  ghost function After(s: State, steps: seq<Step>): State
    requires IsRun(s, steps)
    decreases |steps|
  {
    if steps == [] then s else After(Apply(s, steps[0]), steps[1..])
  }

  // ----- what every reachable state satisfies

  /** How many entries at the front of the command table cleanup has already dealt with. */
  function Drained(s: State): nat {
    match s.api
    case Draining(bad) => bad
    case DrainCancel(bad, _, _, _) => bad
    case DrainRelease(bad, _) => bad
    case Finished => |s.cmds|
    case _ => 0
  }

  /** The part of the command table that still owns shares. */
  function Pending(s: State): seq<CmdInfo> {
    if Drained(s) == 0 then s.cmds
    else if Drained(s) <= |s.cmds| then s.cmds[Drained(s)..]
    else []
  }

  function Entries(t: seq<CmdInfo>, p: Ptr): nat {
    if t == [] then 0 else (if t[0].cmd == p then 1 else 0) + Entries(t[1..], p)
  }

  predicate InTable(s: State, p: Ptr) {
    Entries(Pending(s), p) > 0
  }

  predicate ApiHolds(s: State, p: Ptr) {
    (s.api.Releasing? || s.api.Cancelling? || s.api.DrainRelease?) && s.api.p == p
  }

  predicate EvHolds(s: State, p: Ptr) {
    s.ev.EndRelease? && s.ev.found == p
  }

  /** Owner shares of `p` that are still to be given up. */
  function OwnerShares(s: State, p: Ptr): nat {
    Entries(Pending(s), p) + (if ApiHolds(s, p) then 1 else 0) + (if EvHolds(s, p) then 1 else 0)
  }

  /** Callbacks running on `p`. */
  function InFlight(s: State, p: Ptr): nat {
    match s.ev
    case Callback(q) => if q == p then 1 else 0
    case EndUnregister(q) => if q == p then 1 else 0
    case EndCommand(q) => if q == p then 1 else 0
    case EndRelease(q, _) => if q == p then 1 else 0
    case FinishCallback(q) => if q == p then 1 else 0
    case _ => 0
  }

  ghost predicate CountsOk(s: State) {
    forall p :: p in s.objs ==>
      var o := s.objs[p];
      o.refs == OwnerShares(s, p) + InFlight(s, p) && o.live == (o.refs > 0) && o.ownerReleases + OwnerShares(s, p) == 1
  }

  ghost predicate CommandsOk(s: State) {
    && Drained(s) <= |s.cmds|
    && forall e :: e in s.cmds ==> e.cmd in s.objs && s.objs[e.cmd].id == e.id && !s.objs[e.cmd].temp
  }

  ghost predicate CallbacksOk(s: State) {
    && DistinctKeys(s.cbs)
    && forall e :: e in s.cbs ==>
         && e.cbArg in s.objs && !s.objs[e.cbArg].temp
         && OwnerShares(s, e.cbArg) == 1
         && KeyOf(e) in s.objs[e.cbArg].keys
  }

  ghost predicate KeysOk(s: State) {
    forall p :: p in s.objs && s.objs[p].endsItself ==> s.objs[p].keys == [RTT_COMPLETE]
  }

  /** Not two live registered commands with the same request id. */
  predicate ClashFree(o: Obj, o': Obj) {
    o.live && o'.live && !o.temp && !o'.temp ==> o.id != o'.id
  }

  ghost predicate LiveDistinct(s: State) {
    forall p, q {:trigger ClashFree(s.objs[p], s.objs[q])} :: p in s.objs && q in s.objs && p != q ==>
      ClashFree(s.objs[p], s.objs[q])
  }

  /** The callbacks registered for `p` all have a key among `keys`. */
  ghost predicate OnlyKeys(s: State, p: Ptr, keys: seq<Key>) {
    forall e :: e in s.cbs && e.cbArg == p ==> KeyOf(e) in keys
  }

  /** No other command has a callback registered under a key of `p`. */
  ghost predicate KeysFree(s: State, p: Ptr)
    requires p in s.objs
  {
    forall e :: e in s.cbs && e.cbArg != p ==> KeyOf(e) !in s.objs[p].keys
  }

  ghost predicate Within(keys: seq<Key>, all: seq<Key>) {
    forall k :: k in keys ==> k in all
  }

  /** An object that can end itself is still out of the event thread's reach. */
  ghost predicate Private(s: State, p: Ptr) {
    p in s.objs && (s.objs[p].endsItself ==> InFlight(s, p) == 0 && OnlyKeys(s, p, []))
  }

  /** The first `n` pieces of start() register `k`. */
  ghost predicate Registered(script: seq<StartOp>, n: nat, k: Key) {
    exists i :: 0 <= i < n && i < |script| && script[i] == Reg(k)
  }

  ghost predicate OnlyRegistered(s: State, p: Ptr, script: seq<StartOp>, n: nat) {
    forall e :: e in s.cbs && e.cbArg == p ==> Registered(script, n, KeyOf(e))
  }

  /**
  What the start scripts have in common: a handler is registered once and under a key that
  cancel() removes; a failing request removes every handler registered so far and touches no key
  that is not the command's; and a command that can end itself registers its handler as the very
  last act of start().
   */
  ghost predicate WellFormed(script: seq<StartOp>, keys: seq<Key>, endsItself: bool) {
    && (endsItself ==> keys == [RTT_COMPLETE])
    && (forall i :: 0 <= i < |script| && script[i].Reg? ==>
          script[i].key.Vendor? && script[i].key in keys && (endsItself ==> i == |script| - 1))
    && (forall n :: 0 <= n < |script| && script[n].Request? ==> Within(script[n].undo, keys))
    && (forall i, n :: 0 <= i < n < |script| && script[i].Reg? ==>
          if script[n].Reg? then script[n].key != script[i].key else script[i].key in script[n].undo)
  }

  ghost predicate ApiOk(s: State) {
    match s.api
    case Idle => true
    case Starting(p, script, done) =>
      && p in s.objs && !s.objs[p].temp
      && WellFormed(script, s.objs[p].keys, s.objs[p].endsItself)
      && (done < |script| ==>
            InTable(s, p) && Private(s, p) && OnlyRegistered(s, p, script, done) && KeysFree(s, p))
    case Unwinding(p, keys) =>
      && InTable(s, p) && Private(s, p) && !s.objs[p].temp && OnlyKeys(s, p, keys)
      && KeysFree(s, p) && Within(keys, s.objs[p].keys)
    case FailUnregister(p) => InTable(s, p) && Private(s, p) && !s.objs[p].temp && OnlyKeys(s, p, [])
    case Cancelling(p, keys) => p in s.objs && OnlyKeys(s, p, keys)
    case Releasing(p) => p in s.objs && OnlyKeys(s, p, [])
    case WaitDone => true
    case Draining(bad) => true
    case DrainCancel(bad, p, keys, num) =>
      p in s.objs && bad < |s.cmds| == num && s.cmds[bad].cmd == p && OnlyKeys(s, p, keys)
    case DrainRelease(bad, p) => p in s.objs && OnlyKeys(s, p, [])
    case Finished => true
  }

  ghost predicate EvOk(s: State) {
    match s.ev
    case Callback(p) => p in s.objs && !s.objs[p].temp
    case EndUnregister(p) => p in s.objs && !s.objs[p].temp && s.objs[p].endsItself
    case EndCommand(p) => p in s.objs && !s.objs[p].temp && s.objs[p].endsItself && OnlyKeys(s, p, [])
    case EndRelease(p, q) => p == q && p in s.objs && !s.objs[p].temp && s.objs[p].endsItself && OnlyKeys(s, p, [])
    case FinishCallback(p) => p in s.objs && !s.objs[p].temp
    case _ => true
  }

  predicate CleaningUp(s: State) {
    s.api.Draining? || s.api.DrainCancel? || s.api.DrainRelease? || s.api.Finished?
  }

  /** Once cleanup drains, the event loop is gone; until the loop ends, Exit is there for it to read. */
  predicate HandshakeOk(s: State) {
    && (s.donePending ==> s.ev.Exited?)
    && (CleaningUp(s) ==> s.ev.Exited?)
    && (s.api.WaitDone? && !s.ev.Exited? ==> s.exitPending)
    && s.cleanUp == CleaningUp(s)
    && s.freed == s.api.Finished?
  }

  ghost predicate Inv(s: State) {
    && !s.fault
    && CountsOk(s)
    && CommandsOk(s)
    && CallbacksOk(s)
    && LiveDistinct(s)
    && KeysOk(s)
    && ApiOk(s)
    && EvOk(s)
    && HandshakeOk(s)
  }
}

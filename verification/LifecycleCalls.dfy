/**
Whole calls of the API and whole events in the lifetime machine: what each leaves behind, said
about the tables and the commands.  Also which steps read a command or hal_info, and that what
they read is there.
 */
module LifecycleCalls {
  import opened Options
  import Bytes
  import opened HandlerTables
  import opened Lifecycle
  import opened LifecycleProof
  import opened LifecycleProgress

  // ----- what a step reads

  /** The commands a step dereferences. */
  function Derefs(s: State, step: Step): set<Ptr> {
    match step
    case ApiStartOp(_) => ApiCommand(s.api)
    case ApiUnwind => if s.api.Unwinding? && s.api.keys == [] then {} else ApiCommand(s.api)
    case ApiCancel(id) => if FindId(s.cmds, id).Some? then {FindId(s.cmds, id).value} else {}
    case ApiCancelOp => ApiCommand(s.api)
    case ApiRelease => ApiCommand(s.api)
    case ApiDrainOp => ApiCommand(s.api)
    case ApiDrainRelease => ApiCommand(s.api)
    case ApiReadDone => set e | e in s.cbs :: e.cbArg
    case ApiDrainNext => if s.api.Draining? && s.api.bad < |s.cmds| then {s.cmds[s.api.bad].cmd} else {}
    case EvDispatch(key) => if FindKey(s.cbs, key).Some? then {FindKey(s.cbs, key).value.cbArg} else {}
    case EvRun(_) => EventCommand(s.ev)
    case EvEndUnregister => EventCommand(s.ev)
    case EvEndCommand => EventCommand(s.ev)
    case EvFinish => EventCommand(s.ev)
    case EvEndRelease => if s.ev.EndRelease? then {s.ev.found} else {}
    case _ => {}
  }

  function ApiCommand(api: ApiPc): set<Ptr> {
    match api
    case Starting(p, _, _) => {p}
    case Unwinding(p, _) => {p}
    case Cancelling(p, _) => {p}
    case Releasing(p) => {p}
    case DrainCancel(_, p, _, _) => {p}
    case DrainRelease(_, p) => {p}
    case _ => {}
  }

  function EventCommand(ev: EvPc): set<Ptr> {
    match ev
    case Callback(p) => {p}
    case EndUnregister(p) => {p}
    case EndCommand(p) => {p}
    case FinishCallback(p) => {p}
    case _ => {}
  }

  /** The steps that dereference hal_info. */
  predicate UsesHal(s: State, step: Step) {
    match step
    case ApiStart(_, _, _) => true
    case ApiStartOp(_) => true
    case ApiUnwind => s.api.Unwinding? && s.api.keys != []
    case ApiFailUnregister => true
    case ApiCancel(_) => true
    case ApiCancelOp => s.api.Cancelling? && s.api.keys != []
    case ApiCleanup => true
    case ApiReadDone => true
    case ApiDrainNext => true
    case ApiDrainOp => true
    case ApiFree => true
    case EvPollIn => true
    case EvLoopCheck => true
    case EvDispatch(_) => true
    case EvEndUnregister => true
    case EvEndCommand => true
    case _ => false
  }

  /** Something the step reads is gone. */
  ghost predicate ReadsStale(s: State, step: Step) {
    (UsesHal(s, step) && s.freed) || exists p :: p in Derefs(s, step) && !Alive(s.objs, p)
  }

  /** The machine's fault is exactly that. */
  lemma FaultIs(s: State, step: Step)
    requires Enabled(s, step)
    ensures Apply(s, step).fault <==> s.fault || ReadsStale(s, step)
  {
    if IsEventStep(step) {
      EventFault(s, step);
    } else if IsStartStep(step) {
      StartFault(s, step);
    } else if IsCleanupStep(step) {
      CleanupFault(s, step);
    } else {
      CancelFault(s, step);
    }
  }

  lemma EventFault(s: State, step: Step)
    requires IsEventStep(step) && EventEnabled(s, step)
    ensures ApplyEvent(s, step).fault <==> s.fault || ReadsStale(s, step)
  {
    if step.EvDispatch? {
      DispatchFault(s, step.key);
    } else if IsLoopStep(step) {
    } else {
      CallbackFault(s, step);
    }
  }

  lemma DispatchFault(s: State, key: Key)
    ensures Dispatch(s, key).fault <==> s.fault || ReadsStale(s, EvDispatch(key))
  {
  }

  lemma CallbackFault(s: State, step: Step)
    requires step.EvRun? || step.EvEndUnregister? || step.EvEndCommand? || step.EvEndRelease? || step.EvFinish?
    requires EventEnabled(s, step)
    ensures ApplyEvent(s, step).fault <==> s.fault || ReadsStale(s, step)
  {
    match step
    case EvRun(completes) => RunFault(s, s.ev.p, completes);
    case EvEndUnregister => EndUnregisterFault(s, s.ev.p);
    case EvEndCommand => EndCommandFault(s, s.ev.p);
    case EvEndRelease => EndReleaseFault(s, s.ev.p, s.ev.found);
    case EvFinish => FinishFault(s, s.ev.p);
  }

  lemma RunFault(s: State, p: Ptr, completes: bool)
    requires s.ev == Callback(p) && p in s.objs
    ensures RunCallback(s, p, completes).fault <==> s.fault || ReadsStale(s, EvRun(completes))
  {
    assert Derefs(s, EvRun(completes)) == {p};
  }

  lemma EndUnregisterFault(s: State, p: Ptr)
    requires s.ev == EndUnregister(p)
    ensures EndOwnHandler(s, p).fault <==> s.fault || ReadsStale(s, EvEndUnregister)
  {
    assert Derefs(s, EvEndUnregister) == {p};
  }

  lemma EndCommandFault(s: State, p: Ptr)
    requires s.ev == EndCommand(p) && p in s.objs
    ensures EndCommandByItself(s, p).fault <==> s.fault || ReadsStale(s, EvEndCommand)
  {
    assert Derefs(s, EvEndCommand) == {p};
  }

  lemma EndReleaseFault(s: State, p: Ptr, found: Ptr)
    requires s.ev == EndRelease(p, found)
    ensures EndOwnShare(s, p, found).fault <==> s.fault || ReadsStale(s, EvEndRelease)
  {
    assert Derefs(s, EvEndRelease) == {found};
  }

  lemma FinishFault(s: State, p: Ptr)
    requires s.ev == FinishCallback(p)
    ensures FinishOn(s, p).fault <==> s.fault || ReadsStale(s, EvFinish)
  {
    assert Derefs(s, EvFinish) == {p};
  }

  lemma StartFault(s: State, step: Step)
    requires IsStartStep(step) && ApiEnabled(s, step)
    ensures ApplyApi(s, step).fault <==> s.fault || ReadsStale(s, step)
  {
    match step
    case ApiStart(p, id, kind) => assert StartKind(s, p, id, kind).fault == (s.fault || s.freed);
    case ApiStartOp(ok) => StartOpFault(s, s.api.p, s.api.script, s.api.done, ok);
    case ApiStarted =>
    case ApiUnwind => UnwindFault(s, s.api.p, s.api.keys);
    case ApiFailUnregister => assert TakeOutFailed(s, s.api.p).fault == (s.fault || s.freed);
  }

  lemma StartOpFault(s: State, p: Ptr, script: seq<StartOp>, done: nat, ok: bool)
    requires s.api == Starting(p, script, done) && done < |script|
    ensures RunStartOp(s, p, script, done, ok).fault <==> s.fault || ReadsStale(s, ApiStartOp(ok))
  {
    assert Derefs(s, ApiStartOp(ok)) == {p};
  }

  lemma UnwindFault(s: State, p: Ptr, keys: seq<Key>)
    requires s.api == Unwinding(p, keys)
    ensures Unwind(s, p, keys).fault <==> s.fault || ReadsStale(s, ApiUnwind)
  {
    assert Derefs(s, ApiUnwind) == if keys == [] then {} else {p};
  }

  lemma CancelFault(s: State, step: Step)
    requires (step.ApiCancel? || step.ApiStop? || step.ApiCancelOp? || step.ApiRelease?) && ApiEnabled(s, step)
    ensures ApplyApi(s, step).fault <==> s.fault || ReadsStale(s, step)
  {
    match step
    case ApiCancel(id) => CancelIdFault(s, id);
    case ApiStop(p, id, kind) => assert StopKind(s, p, id, kind).fault == s.fault;
    case ApiCancelOp => CancelOpFault(s, s.api.p, s.api.keys);
    case ApiRelease => assert GiveUp(s, s.api.p).fault == (s.fault || !Alive(s.objs, s.api.p));
  }

  lemma CancelIdFault(s: State, id: int)
    ensures Cancel(s, id).fault <==> s.fault || ReadsStale(s, ApiCancel(id))
  {
    var found := FindId(s.cmds, id);
    if found.Some? {
      assert Derefs(s, ApiCancel(id)) == {found.value};
    }
  }

  lemma CancelOpFault(s: State, p: Ptr, keys: seq<Key>)
    requires s.api == Cancelling(p, keys)
    ensures RunCancelOp(s, p, keys).fault <==> s.fault || ReadsStale(s, ApiCancelOp)
  {
    assert Derefs(s, ApiCancelOp) == {p};
  }

  lemma CleanupFault(s: State, step: Step)
    requires IsCleanupStep(step) && ApiEnabled(s, step)
    ensures ApplyApi(s, step).fault <==> s.fault || ReadsStale(s, step)
  {
    match step
    case ApiCleanup => assert Cleanup(s).fault == (s.fault || s.freed);
    case ApiReadDone => ReadDoneFault(s);
    case ApiDrainNext => assert Derefs(s, step) == {s.cmds[s.api.bad].cmd};
    case ApiDrainOp => DrainOpFault(s, s.api.bad, s.api.p, s.api.keys, s.api.num);
    case ApiDrainRelease => assert Derefs(s, step) == {s.api.p};
    case ApiFree => assert Free(s).fault == (s.fault || s.freed);
  }

  lemma ReadDoneFault(s: State)
    ensures ReadDone(s).fault <==> s.fault || ReadsStale(s, ApiReadDone)
  {
    if e :| e in s.cbs && !Alive(s.objs, e.cbArg) {
      assert e.cbArg in Derefs(s, ApiReadDone);
    }
  }

  lemma DrainOpFault(s: State, bad: nat, p: Ptr, keys: seq<Key>, num: nat)
    requires s.api == DrainCancel(bad, p, keys, num)
    ensures DrainOp(s, bad, p, keys, num).fault <==> s.fault || ReadsStale(s, ApiDrainOp)
  {
    assert Derefs(s, ApiDrainOp) == {p};
  }

  /** At any point of any run, what the next step reads is there: the commands are alive, hal_info is not freed. */
  lemma NothingStale(steps: seq<Step>, step: Step)
    requires IsRun(Init, steps) && Enabled(After(Init, steps), step)
    ensures var s := After(Init, steps);
            (forall p :: p in Derefs(s, step) ==> Alive(s.objs, p)) && (UsesHal(s, step) ==> !s.freed)
  {
    var s := After(Init, steps);
    InitOk();
    RunKeeps(Init, steps);
    StepKeeps(s, step);
    FaultIs(s, step);
  }

  // ----- cancelling by id

  lemma {:induction false} TwoEntries(t: seq<CmdInfo>, i: nat, j: nat)
    requires i < j < |t| && t[i].cmd == t[j].cmd
    ensures Entries(t, t[i].cmd) > 1
  {
    if i == 0 {
      EntryCounts(t[1..], j - 1);
    } else {
      TwoEntries(t[1..], i - 1, j - 1);
    }
  }

  /** An entry of the command table holds its command's only owner share. */
  lemma EntryOwns(s: State, i: nat)
    requires Inv(s) && s.api.Idle? && i < |s.cmds|
    ensures var p := s.cmds[i].cmd;
            && Alive(s.objs, p) && !s.objs[p].temp && s.objs[p].id == s.cmds[i].id
            && s.objs[p].ownerReleases == 0 && Entries(s.cmds, p) == 1
            && s.objs[p].refs == 1 + InFlight(s, p)
  {
    assert s.cmds[i] in s.cmds;
    EntryCounts(s.cmds, i);
  }

  /** No other entry has the same id. */
  lemma OneEntry(s: State, i: nat, j: nat)
    requires Inv(s) && s.api.Idle? && i < |s.cmds| && j < |s.cmds| && s.cmds[i].id == s.cmds[j].id
    ensures i == j
  {
    EntryOwns(s, i);
    EntryOwns(s, j);
    assert s.cmds[i].cmd == s.cmds[j].cmd || ClashFree(s.objs[s.cmds[i].cmd], s.objs[s.cmds[j].cmd]);
    if i != j {
      TwoEntries(s.cmds, if i < j then i else j, if i < j then j else i);
    }
  }

  /** wifi_cancel_cmd finds the command registered under the id and takes exactly its entry out. */
  lemma CancelFinds(s: State, i: nat)
    requires Inv(s) && s.api.Idle? && i < |s.cmds|
    ensures var id, p := s.cmds[i].id, s.cmds[i].cmd;
            && Enabled(s, ApiCancel(id)) && p in s.objs
            && Apply(s, ApiCancel(id))
            == s.(cmds := s.cmds[..i] + s.cmds[i + 1..], api := Cancelling(p, s.objs[p].keys))
  {
    var id, p := s.cmds[i].id, s.cmds[i].cmd;
    OneEntry(s, i, IndexOfId(s.cmds, id));
    EntryOwns(s, i);
    CancelFound(s, id, p);
  }

  /**
  wifi_cancel_cmd for any entry of the table, in any reachable state: the entry is taken out and
  no other, every callback of the command is gone and every callback under another key stays, and
  the owner share is given up, which deletes the command unless its callback is running.
   */
  lemma CancelById(steps: seq<Step>, i: nat) returns (more: seq<Step>)
    requires IsRun(Init, steps) && After(Init, steps).api.Idle? && i < |After(Init, steps).cmds|
    ensures var s := After(Init, steps);
            && IsRun(s, [ApiCancel(s.cmds[i].id)] + more) && ApiOnly(more)
            && Ended(s, After(s, [ApiCancel(s.cmds[i].id)] + more), i)
  {
    var s := After(Init, steps);
    var cancel := ApiCancel(s.cmds[i].id);
    InitOk();
    RunKeeps(Init, steps);
    EntryOwns(s, i);
    CancelFinds(s, i);
    StepKeeps(s, cancel);
    var t := Apply(s, cancel);
    var u;
    more, u := CancelRuns(t, s.cmds[i].cmd, s.objs[s.cmds[i].cmd].keys);
    StepThenRun(s, cancel, more);
    CancelEnds(s, t, u, i);
  }

  /** From `s` to `t` the command of entry `i` was cancelled; nothing else changed. */
  ghost predicate Ended(s: State, t: State, i: nat)
    requires i < |s.cmds|
  {
    var p := s.cmds[i].cmd;
    && p in s.objs && p in t.objs
    && t == s.(objs := s.objs[p := t.objs[p]], cmds := s.cmds[..i] + s.cmds[i + 1..], cbs := t.cbs)
    && (forall e :: e in t.cbs ==> e.cbArg != p) && WithoutKeys(t.cbs, s.cbs, s.objs[p].keys)
    && t.objs[p].ownerReleases == 1 && t.objs[p].refs == InFlight(s, p) && (t.objs[p].live <==> InFlight(s, p) > 0)
  }

  lemma CancelEnds(s: State, t: State, u: State, i: nat)
    requires Inv(s) && s.api.Idle? && i < |s.cmds| && s.cmds[i].cmd in s.objs
    requires t == s.(cmds := s.cmds[..i] + s.cmds[i + 1..],
                     api := Cancelling(s.cmds[i].cmd, s.objs[s.cmds[i].cmd].keys))
    requires Cleared(t, u, s.cmds[i].cmd, s.objs[s.cmds[i].cmd].keys)
    ensures Ended(s, u, i)
  {
    EntryOwns(s, i);
  }

  /** Without an entry of that id nothing happens. */
  lemma CancelFindsNothing(s: State, id: int)
    requires Inv(s) && s.api.Idle? && forall i :: 0 <= i < |s.cmds| ==> s.cmds[i].id != id
    ensures Enabled(s, ApiCancel(id)) && Apply(s, ApiCancel(id)) == s
  {
  }

  // ----- starting

  /** The keys a start script registers, in order. */
  function Regs(script: seq<StartOp>): seq<Key> {
    if script == [] then []
    else RegOf(script[0]) + Regs(script[1..])
  }

  function RegOf(op: StartOp): seq<Key> { if op.Reg? then [op.key] else [] }

  /** What registering these keys for `p` adds to the callback table. */
  function Added(keys: seq<Key>, p: Ptr): (r: seq<CbInfo>)
    ensures |r| == |keys| && forall i :: 0 <= i < |r| ==> r[i] == EntryOf(keys[i], p)
  {
    seq(|keys|, i requires 0 <= i < |keys| => EntryOf(keys[i], p))
  }

  lemma AddedNext(cbs: seq<CbInfo>, k: Key, keys: seq<Key>, p: Ptr)
    ensures (cbs + [EntryOf(k, p)]) + Added(keys, p) == cbs + Added([k] + keys, p)
  {
    assert Added([k] + keys, p) == [EntryOf(k, p)] + Added(keys, p);
  }

  /** A command being started is alive, and hal_info is there. */
  lemma StartingIsSound(s: State, p: Ptr, script: seq<StartOp>, done: nat)
    requires Inv(s) && s.api == Starting(p, script, done) && done < |script|
    ensures Alive(s.objs, p) && !s.freed && !s.fault && Touch(s, p) == s && TouchHal(s) == s
  {
    AliveInTable(s, p);
  }

  /** One piece of start() that succeeds. */
  lemma StartPiece(s: State, p: Ptr, script: seq<StartOp>, done: nat) returns (t: State)
    requires Inv(s) && s.api == Starting(p, script, done) && done < |script|
    ensures Inv(t) && ApiLeads(s, [ApiStartOp(true)], t)
    ensures t == s.(api := Starting(p, script, done + 1),
                    cbs := if script[done].Reg?
                           then AppendIfRoom(DEFAULT_EVENT_CB_SIZE, s.cbs, EntryOf(script[done].key, p)) else s.cbs)
  {
    StartingIsSound(s, p, script, done);
    StepKeeps(s, ApiStartOp(true));
    StepLeads(s, ApiStartOp(true));
    t := RunStartOp(s, p, script, done, true);
  }

  lemma RegsFrom(script: seq<StartOp>, done: nat)
    requires done < |script|
    ensures Regs(script[done..])
         == (if script[done].Reg? then [script[done].key] else []) + Regs(script[done + 1..])
  {
    assert script[done..][1..] == script[done + 1..];
  }

  /** The rest of start(), every request succeeding and the callback table having room. */
  lemma {:induction false} ScriptRuns(s: State, p: Ptr, script: seq<StartOp>, done: nat) returns (steps: seq<Step>)
    requires Inv(s) && s.api == Starting(p, script, done) && done <= |script|
    requires |s.cbs| + |Regs(script[done..])| <= DEFAULT_EVENT_CB_SIZE
    ensures ApiLeads(s, steps, s.(cbs := s.cbs + Added(Regs(script[done..]), p), api := Idle))
    decreases |script| - done
  {
    if done == |script| {
      StepLeads(s, ApiStarted);
      steps := [ApiStarted];
      assert s.cbs + Added(Regs(script[done..]), p) == s.cbs;
    } else {
      var t := StartPieceWithRoom(s, p, script, done);
      var rest := ScriptRuns(t, p, script, done + 1);
      ApiLeadsOn(s, [ApiStartOp(true)], t, rest, s.(cbs := s.cbs + Added(Regs(script[done..]), p), api := Idle));
      steps := [ApiStartOp(true)] + rest;
    }
  }

  lemma StartPieceWithRoom(s: State, p: Ptr, script: seq<StartOp>, done: nat) returns (t: State)
    requires Inv(s) && s.api == Starting(p, script, done) && done < |script|
    requires |s.cbs| + |Regs(script[done..])| <= DEFAULT_EVENT_CB_SIZE
    ensures Inv(t) && ApiLeads(s, [ApiStartOp(true)], t)
    ensures t == s.(api := Starting(p, script, done + 1), cbs := t.cbs)
    ensures |t.cbs| + |Regs(script[done + 1..])| <= DEFAULT_EVENT_CB_SIZE
    ensures t.cbs + Added(Regs(script[done + 1..]), p) == s.cbs + Added(Regs(script[done..]), p)
  {
    t := StartPiece(s, p, script, done);
    RegsFrom(script, done);
    if script[done].Reg? {
      AddedNext(s.cbs, script[done].key, Regs(script[done + 1..]), p);
    }
  }

  lemma {:induction false} RegsConcat(x: seq<StartOp>, y: seq<StartOp>)
    ensures Regs(x + y) == Regs(x) + Regs(y)
    decreases |x|
  {
    if x == [] {
      assert x + y == y;
    } else {
      assert (x + y)[1..] == x[1..] + y;
      RegsConcat(x[1..], y);
      Bytes.ConcatAssoc(RegOf(x[0]), Regs(x[1..]), Regs(y));
      assert Regs(x + y) == RegOf(x[0]) + Regs((x + y)[1..]);
    }
  }

  lemma RegsOfOne(op: StartOp)
    ensures Regs([op]) == RegOf(op)
  {
    assert [op][1..] == [];
  }

  lemma RegsOfTwo(a: StartOp, b: StartOp)
    ensures Regs([a, b]) == RegOf(a) + RegOf(b)
  {
    RegsConcat([a], [b]);
    RegsOfOne(a);
    RegsOfOne(b);
    assert [a] + [b] == [a, b];
  }

  lemma RegsOfThree(a: StartOp, b: StartOp, c: StartOp)
    ensures Regs([a, b, c]) == RegOf(a) + RegOf(b) + RegOf(c)
  {
    RegsConcat([a, b], [c]);
    RegsOfTwo(a, b);
    RegsOfOne(c);
    assert [a, b] + [c] == [a, b, c];
  }

  lemma ScanRegs()
    ensures Regs(StartScript(Scan)) == [SCAN_AVAILABLE, COMPLETE_SCAN, FULL_SCAN]
  {
    var s := StartScript(Scan);
    RegsOfThree(s[0], s[1], s[2]);
    RegsOfTwo(s[3], s[4]);
    RegsConcat([s[0], s[1], s[2]], [s[3], s[4]]);
    assert s == [s[0], s[1], s[2]] + [s[3], s[4]];
  }

  lemma HotlistRegs()
    ensures Regs(StartScript(Hotlist)) == [HOTLIST_FOUND, HOTLIST_LOST]
  {
    var s := StartScript(Hotlist);
    RegsOfThree(s[0], s[1], s[2]);
    RegsOfThree(s[3], s[4], s[5]);
    RegsConcat([s[0], s[1], s[2]], [s[3], s[4], s[5]]);
    assert s == [s[0], s[1], s[2]] + [s[3], s[4], s[5]];
  }

  lemma ShortRegs(kind: Kind)
    requires !kind.Scan? && !kind.Hotlist?
    ensures Regs(StartScript(kind)) == CancelKeys(kind)
  {
    var s := StartScript(kind);
    if |s| == 2 {
      RegsOfTwo(s[0], s[1]);
      assert s == [s[0], s[1]];
    } else {
      RegsOfThree(s[0], s[1], s[2]);
      assert s == [s[0], s[1], s[2]];
    }
  }

  /** A script registers each key of cancel() once, and nothing else. */
  lemma RegsAreKeys(kind: Kind)
    ensures multiset(Regs(StartScript(kind))) == multiset(CancelKeys(kind))
    ensures |Regs(StartScript(kind))| == |CancelKeys(kind)|
  {
    match kind
    case Scan =>
      ScanRegs();
      SwappedFirst(SCAN_AVAILABLE, COMPLETE_SCAN, FULL_SCAN);
    case Hotlist => HotlistRegs();
    case _ => ShortRegs(kind);
  }

  lemma SwappedFirst(a: Key, b: Key, c: Key)
    ensures multiset([a, b, c]) == multiset([b, a, c])
  {
  }

  /** The new object of a start call. */
  function Started(kind: Kind, id: int): Obj { Obj(id, CancelKeys(kind), kind == Rtt, false, 1, true, 0) }

  /** The same object once it is deleted. */
  function Deleted(kind: Kind, id: int): Obj { Obj(id, CancelKeys(kind), kind == Rtt, false, 0, false, 1) }

  lemma StartEnters(s: State, p: Ptr, id: int, kind: Kind) returns (t: State)
    requires Inv(s) && CanStart(s, p, id, kind) && |s.cmds| < DEFAULT_CMD_SIZE
    ensures Inv(t) && ApiLeads(s, [ApiStart(p, id, kind)], t)
    ensures t == s.(objs := s.objs[p := Started(kind, id)], cmds := s.cmds + [CmdInfo(id, p)],
                    api := Starting(p, StartScript(kind), 0))
  {
    StepKeeps(s, ApiStart(p, id, kind));
    StepLeads(s, ApiStart(p, id, kind));
    t := StartKind(s, p, id, kind);
  }

  /**
  A start call whose requests all succeed, from any reachable state with room in both tables: the
  command is in the table and owned, it has one callback for each of its keys behind the callbacks
  that were there, and nothing else changed.
   */
  lemma StartSucceeds(s: State, p: Ptr, id: int, kind: Kind) returns (steps: seq<Step>, own: seq<CbInfo>)
    requires Inv(s) && CanStart(s, p, id, kind) && |s.cmds| < DEFAULT_CMD_SIZE
    requires |s.cbs| + |CancelKeys(kind)| <= DEFAULT_EVENT_CB_SIZE
    ensures ApiLeads(s, [ApiStart(p, id, kind)] + steps,
                  s.(objs := s.objs[p := Obj(id, CancelKeys(kind), kind == Rtt, false, 1, true, 0)],
                     cmds := s.cmds + [CmdInfo(id, p)], cbs := s.cbs + own))
    ensures OneForEach(own, p, CancelKeys(kind))
  {
    var t := StartEnters(s, p, id, kind);
    own := KindRegisters(kind, p);
    steps := WholeScript(t, p, StartScript(kind), own);
    ApiLeadsOn(s, [ApiStart(p, id, kind)], t, steps, t.(cbs := s.cbs + own, api := Idle));
  }

  lemma KindRegisters(kind: Kind, p: Ptr) returns (own: seq<CbInfo>)
    ensures own == Added(Regs(StartScript(kind)), p) && |own| == |CancelKeys(kind)|
    ensures OneForEach(own, p, CancelKeys(kind))
  {
    RegsAreKeys(kind);
    KeysAreVendor(kind);
    own := Added(Regs(StartScript(kind)), p);
    OwnKeys(Regs(StartScript(kind)), CancelKeys(kind), p);
  }

  ghost predicate AllVendor(keys: seq<Key>) { forall k :: k in keys ==> k.Vendor? }

  lemma KeysAreVendor(kind: Kind)
    ensures AllVendor(CancelKeys(kind))
  {
  }

  lemma WholeScript(s: State, p: Ptr, script: seq<StartOp>, own: seq<CbInfo>) returns (steps: seq<Step>)
    requires Inv(s) && s.api == Starting(p, script, 0) && own == Added(Regs(script), p)
    requires |s.cbs| + |own| <= DEFAULT_EVENT_CB_SIZE
    ensures ApiLeads(s, steps, s.(cbs := s.cbs + own, api := Idle))
  {
    assert script[0..] == script;
    steps := ScriptRuns(s, p, script, 0);
  }

  /** Callbacks of `p`, one under each of `keys`. */
  ghost predicate OneForEach(own: seq<CbInfo>, p: Ptr, keys: seq<Key>) {
    && |own| == |keys| && (forall e :: e in own ==> e.cbArg == p)
    && forall k :: k in keys <==> exists e :: e in own && KeyOf(e) == k
  }

  lemma OwnKeys(regs: seq<Key>, keys: seq<Key>, p: Ptr)
    requires multiset(regs) == multiset(keys) && |regs| == |keys| && AllVendor(keys)
    ensures OneForEach(Added(regs, p), p, keys)
  {
    forall k ensures k in keys <==> k in regs {
      assert k in multiset(keys) <==> k in multiset(regs);
    }
    AddedKeys(regs, p);
  }

  lemma AddedKeys(keys: seq<Key>, p: Ptr)
    requires forall k :: k in keys ==> k.Vendor?
    ensures forall k :: k in keys <==> exists e :: e in Added(keys, p) && KeyOf(e) == k
  {
    var own := Added(keys, p);
    forall i | 0 <= i < |keys| ensures KeyOf(own[i]) == keys[i] {
      assert keys[i] in keys;
    }
    forall k | k in keys ensures exists e :: e in own && KeyOf(e) == k {
      var i :| 0 <= i < |keys| && keys[i] == k;
      assert own[i] in own && KeyOf(own[i]) == k;
    }
  }

  /** A start call that finds the command table full deletes its command again and changes no table. */
  lemma StartRefused(s: State, p: Ptr, id: int, kind: Kind)
    requires Inv(s) && CanStart(s, p, id, kind) && |s.cmds| >= DEFAULT_CMD_SIZE
    ensures ApiLeads(s, [ApiStart(p, id, kind), ApiRelease],
                  s.(objs := s.objs[p := Obj(id, CancelKeys(kind), kind == Rtt, false, 0, false, 1)]))
  {
    var t := s.(objs := s.objs[p := Started(kind, id)], api := Releasing(p));
    StepLeads(s, ApiStart(p, id, kind));
    assert Apply(s, ApiStart(p, id, kind)) == t;
    ReleaseLeads(t, p, kind, id);
    assert t.objs[p := Deleted(kind, id)] == s.objs[p := Deleted(kind, id)];
    ApiLeadsOn(s, [ApiStart(p, id, kind)], t, [ApiRelease], s.(objs := s.objs[p := Deleted(kind, id)]));
    assert [ApiStart(p, id, kind)] + [ApiRelease] == [ApiStart(p, id, kind), ApiRelease];
  }

  lemma ReleaseLeads(s: State, p: Ptr, kind: Kind, id: int)
    requires s.api == Releasing(p) && p in s.objs && s.objs[p] == Started(kind, id)
    ensures ApiLeads(s, [ApiRelease], s.(objs := s.objs[p := Deleted(kind, id)], api := Idle))
  {
    StepLeads(s, ApiRelease);
  }

  // ----- a start call that fails

  /** The callbacks of `p` are at the end of the table, behind `front`. */
  ghost predicate Behind(cbs: seq<CbInfo>, front: seq<CbInfo>, p: Ptr) {
    front <= cbs && forall i :: |front| <= i < |cbs| ==> cbs[i].cbArg == p
  }

  lemma BehindAppend(cbs: seq<CbInfo>, front: seq<CbInfo>, p: Ptr, e: CbInfo)
    requires Behind(cbs, front, p) && e.cbArg == p
    ensures Behind(AppendIfRoom(DEFAULT_EVENT_CB_SIZE, cbs, e), front, p)
  {
  }

  lemma BehindRemove(cbs: seq<CbInfo>, front: seq<CbInfo>, p: Ptr, k: Key)
    requires Behind(cbs, front, p) && forall e :: e in front ==> KeyOf(e) != k
    ensures Behind(RemoveKey(cbs, k), front, p)
  {
    forall j | 0 <= j < |front| ensures KeyOf(cbs[j]) != k {
      assert cbs[j] == front[j] && front[j] in front;
    }
    var i := IndexOfKey(cbs, k);
    if i < |cbs| {
      assert cbs[..i] + cbs[i + 1..] == RemoveKey(cbs, k);
      assert front == cbs[..i][..|front|];
    }
  }

  lemma BehindNext(cbs: seq<CbInfo>, front: seq<CbInfo>, p: Ptr, keys: seq<Key>)
    requires keys != [] && Behind(cbs, front, p) && forall e :: e in front ==> KeyOf(e) !in keys
    ensures Behind(RemoveKey(cbs, keys[0]), front, p) && forall e :: e in front ==> KeyOf(e) !in keys[1..]
  {
    BehindRemove(cbs, front, p, keys[0]);
  }

  /** start() up to piece `n`. */
  lemma {:induction false} ScriptUpTo(s: State, p: Ptr, script: seq<StartOp>, done: nat, n: nat, front: seq<CbInfo>)
      returns (steps: seq<Step>, t: State)
    requires Inv(s) && s.api == Starting(p, script, done) && done <= n < |script| && Behind(s.cbs, front, p)
    ensures Inv(t) && ApiLeads(s, steps, t)
    ensures t == s.(api := Starting(p, script, n), cbs := t.cbs) && Behind(t.cbs, front, p)
    decreases n - done
  {
    if done == n {
      return [], s;
    }
    var u := StartPiece(s, p, script, done);
    if script[done].Reg? {
      BehindAppend(s.cbs, front, p, EntryOf(script[done].key, p));
    }
    var rest;
    rest, t := ScriptUpTo(u, p, script, done + 1, n, front);
    ApiLeadsOn(s, [ApiStartOp(true)], u, rest, t);
    steps := [ApiStartOp(true)] + rest;
  }

  /** The request fails. */
  lemma RequestFails(s: State, p: Ptr, script: seq<StartOp>, n: nat) returns (t: State)
    requires Inv(s) && s.api == Starting(p, script, n) && n < |script| && script[n].Request?
    ensures Inv(t) && ApiLeads(s, [ApiStartOp(false)], t) && t == s.(api := Unwinding(p, script[n].undo))
  {
    StartingIsSound(s, p, script, n);
    StepKeeps(s, ApiStartOp(false));
    StepLeads(s, ApiStartOp(false));
    t := RunStartOp(s, p, script, n, false);
  }

  /** One handler is unregistered. */
  lemma UnwindPiece(s: State, p: Ptr, keys: seq<Key>) returns (t: State)
    requires Inv(s) && s.api == Unwinding(p, keys) && keys != []
    ensures Inv(t) && ApiLeads(s, [ApiUnwind], t)
    ensures t == s.(cbs := RemoveKey(s.cbs, keys[0]), api := Unwinding(p, keys[1..]))
  {
    AliveInTable(s, p);
    StepKeeps(s, ApiUnwind);
    StepLeads(s, ApiUnwind);
    t := Unwind(s, p, keys);
  }

  ghost predicate NoneUnder(cbs: seq<CbInfo>, keys: seq<Key>) {
    forall e :: e in cbs ==> KeyOf(e) !in keys
  }

  /** All of them are: what is left is what was there before the call. */
  lemma {:induction false} UnwindRuns(s: State, p: Ptr, keys: seq<Key>, front: seq<CbInfo>)
      returns (steps: seq<Step>, t: State)
    requires Inv(s) && s.api == Unwinding(p, keys) && Behind(s.cbs, front, p)
    requires NoneUnder(front, keys)
    ensures Inv(t) && ApiLeads(s, steps, t) && t == s.(cbs := front, api := FailUnregister(p))
    decreases |keys|
  {
    if keys == [] {
      t := UnwindEnds(s, p, front);
      return [ApiUnwind], t;
    }
    var u := UnwindPiece(s, p, keys);
    BehindNext(s.cbs, front, p, keys);
    var rest;
    rest, t := UnwindRuns(u, p, keys[1..], front);
    ApiLeadsOn(s, [ApiUnwind], u, rest, t);
    steps := [ApiUnwind] + rest;
  }

  lemma UnwindEnds(s: State, p: Ptr, front: seq<CbInfo>) returns (t: State)
    requires Inv(s) && s.api == Unwinding(p, []) && Behind(s.cbs, front, p)
    ensures Inv(t) && ApiLeads(s, [ApiUnwind], t) && t == s.(cbs := front, api := FailUnregister(p))
  {
    NoneBehind(s, p, front);
    StepKeeps(s, ApiUnwind);
    StepLeads(s, ApiUnwind);
    t := Unwind(s, p, []);
  }

  lemma NoneOfItsOwn(s: State, p: Ptr, i: nat)
    requires OnlyKeys(s, p, []) && i < |s.cbs|
    ensures s.cbs[i].cbArg != p
  {
    assert s.cbs[i] in s.cbs;
  }

  lemma NoneBehind(s: State, p: Ptr, front: seq<CbInfo>)
    requires Behind(s.cbs, front, p) && OnlyKeys(s, p, [])
    ensures s.cbs == front
  {
    if |s.cbs| > |front| {
      NoneOfItsOwn(s, p, |front|);
    }
  }

  /** The failed command is taken out of the table and deleted. */
  lemma FailureEnds(s: State, p: Ptr, id: int, kind: Kind, before: State)
    requires Inv(s) && s.api == FailUnregister(p) && before.api.Idle? && NoEntry(before.cmds, id)
    requires s == before.(objs := before.objs[p := Started(kind, id)], cmds := before.cmds + [CmdInfo(id, p)],
                          api := s.api)
    ensures ApiLeads(s, [ApiFailUnregister] + [ApiRelease], before.(objs := before.objs[p := Deleted(kind, id)]))
  {
    var t := before.(objs := s.objs, api := Releasing(p));
    TakenOutAgain(s, p, id, kind, before, t);
    ReleaseLeads(t, p, kind, id);
    assert t.objs[p := Deleted(kind, id)] == before.objs[p := Deleted(kind, id)];
    ApiLeadsOn(s, [ApiFailUnregister], t, [ApiRelease], before.(objs := before.objs[p := Deleted(kind, id)]));
  }

  ghost predicate NoEntry(cmds: seq<CmdInfo>, id: int) {
    forall i :: 0 <= i < |cmds| ==> cmds[i].id != id
  }

  lemma TakenOutAgain(s: State, p: Ptr, id: int, kind: Kind, before: State, t: State)
    requires Inv(s) && s.api == FailUnregister(p) && NoEntry(before.cmds, id)
    requires t == before.(objs := s.objs, api := Releasing(p))
    requires s == before.(objs := before.objs[p := Started(kind, id)], cmds := before.cmds + [CmdInfo(id, p)],
                          api := s.api)
    ensures ApiLeads(s, [ApiFailUnregister], t)
  {
    LastTakenOut(before.cmds, CmdInfo(id, p));
    StepLeads(s, ApiFailUnregister);
  }

  lemma LastTakenOut(cmds: seq<CmdInfo>, e: CmdInfo)
    requires NoEntry(cmds, e.id)
    ensures RemoveId(cmds + [e], e.id) == cmds
  {
    assert (cmds + [e])[|cmds|] == e && forall i :: 0 <= i < |cmds| ==> (cmds + [e])[i] == cmds[i];
    assert IndexOfId(cmds + [e], e.id) == |cmds|;
  }

  /** No entry of the table has the id of a new command. */
  lemma NewId(s: State, p: Ptr, id: int, kind: Kind)
    requires Inv(s) && CanStart(s, p, id, kind)
    ensures NoEntry(s.cmds, id)
  {
    forall i | 0 <= i < |s.cmds| ensures s.cmds[i].id != id {
      EntryOwns(s, i);
    }
  }

  /**
  A start call whose request at piece `n` fails, from any reachable state: both tables are as they
  were before the call and the command is deleted, whatever was registered until then.
   */
  lemma StartFails(s: State, p: Ptr, id: int, kind: Kind, n: nat) returns (steps: seq<Step>)
    requires Inv(s) && CanStart(s, p, id, kind) && |s.cmds| < DEFAULT_CMD_SIZE
    requires n < |StartScript(kind)| && StartScript(kind)[n].Request?
    ensures ApiStartOp(false) in steps
    ensures ApiLeads(s, steps, s.(objs := s.objs[p := Obj(id, CancelKeys(kind), kind == Rtt, false, 0, false, 1)]))
  {
    var first, u := StartUntilFailure(s, p, id, kind, n);
    var rest := FailureUndone(s, u, p, id, kind, StartScript(kind)[n].undo);
    ApiLeadsOn(s, first, u, rest, s.(objs := s.objs[p := Deleted(kind, id)]));
    steps := first + rest;
  }

  /** A start call up to and with its failing request. */
  lemma StartUntilFailure(s: State, p: Ptr, id: int, kind: Kind, n: nat) returns (steps: seq<Step>, t: State)
    requires Inv(s) && CanStart(s, p, id, kind) && |s.cmds| < DEFAULT_CMD_SIZE
    requires n < |StartScript(kind)| && StartScript(kind)[n].Request?
    ensures Inv(t) && ApiLeads(s, steps, t) && ApiStartOp(false) in steps
    ensures Failed(s, t, p, id, kind, StartScript(kind)[n].undo)
  {
    var script := StartScript(kind);
    var u := StartEnters(s, p, id, kind);
    var first, v := ScriptUpTo(u, p, script, 0, n, s.cbs);
    t := RequestFails(v, p, script, n);
    steps := [ApiStart(p, id, kind)] + first + [ApiStartOp(false)];
    ApiLeadsOn(s, [ApiStart(p, id, kind)], u, first, v);
    ApiLeadsOn(s, [ApiStart(p, id, kind)] + first, v, [ApiStartOp(false)], t);
    assert steps[|steps| - 1] == ApiStartOp(false);
  }

  /** The state when a start call begun in `s` is about to undo itself. */
  ghost predicate Failed(s: State, t: State, p: Ptr, id: int, kind: Kind, undo: seq<Key>) {
    && t == s.(objs := s.objs[p := Started(kind, id)], cmds := s.cmds + [CmdInfo(id, p)], cbs := t.cbs,
               api := Unwinding(p, undo))
    && Behind(t.cbs, s.cbs, p)
  }

  lemma FailureUndone(s: State, t: State, p: Ptr, id: int, kind: Kind, undo: seq<Key>) returns (steps: seq<Step>)
    requires Inv(s) && CanStart(s, p, id, kind) && Inv(t) && Failed(s, t, p, id, kind, undo)
    ensures ApiLeads(t, steps, s.(objs := s.objs[p := Deleted(kind, id)]))
  {
    ForeignKeys(s, t, p, id, kind, undo);
    var more, w := UnwindRuns(t, p, undo, s.cbs);
    NewId(s, p, id, kind);
    FailureEnds(w, p, id, kind, s);
    ApiLeadsOn(t, more, w, [ApiFailUnregister] + [ApiRelease], s.(objs := s.objs[p := Deleted(kind, id)]));
    steps := more + ([ApiFailUnregister] + [ApiRelease]);
  }

  /** The keys that are undone belong to nobody else. */
  lemma ForeignKeys(s: State, t: State, p: Ptr, id: int, kind: Kind, undo: seq<Key>)
    requires CanStart(s, p, id, kind) && ApiOk(t) && Failed(s, t, p, id, kind, undo)
    ensures NoneUnder(s.cbs, undo)
  {
  }

  // ----- events

  /** An event nobody registered for changes nothing. */
  lemma NobodyIsCalled(s: State, key: Key)
    requires Inv(s) && s.ev.Recv? && forall e :: e in s.cbs ==> KeyOf(e) != key
    ensures Enabled(s, EvDispatch(key)) && Apply(s, EvDispatch(key)) == s
  {
  }

  /** The state while the callback of entry `e` runs: its command has one more reference. */
  function Called(s: State, e: CbInfo): State
    requires e.cbArg in s.objs
  {
    s.(objs := s.objs[e.cbArg := s.objs[e.cbArg].(refs := s.objs[e.cbArg].refs + 1)], ev := Callback(e.cbArg))
  }

  /** An event calls the one callback registered under its key, with a reference taken. */
  lemma OneIsCalled(s: State, e: CbInfo)
    requires Inv(s) && s.ev.Recv? && e in s.cbs
    ensures Alive(s.objs, e.cbArg) && s.objs[e.cbArg].refs > 0
    ensures Leads(s, [EvDispatch(KeyOf(e))], Called(s, e)) && Inv(Called(s, e))
  {
    AliveHeld(s, e.cbArg);
    DispatchIs(s, e);
    DispatchKeeps(s, KeyOf(e));
    StepLeads(s, EvDispatch(KeyOf(e)));
  }

  lemma DispatchIs(s: State, e: CbInfo)
    requires DistinctKeys(s.cbs) && e in s.cbs && Alive(s.objs, e.cbArg) && !s.fault && !s.freed
    ensures Dispatch(s, KeyOf(e)) == Called(s, e)
  {
    var i := IndexOfKey(s.cbs, KeyOf(e));
    var j :| 0 <= j < |s.cbs| && s.cbs[j] == e;
    assert i == j;
  }

  /** A callback that does not end its command leaves no trace. */
  lemma CallReturns(s: State, e: CbInfo, completes: bool)
    requires Inv(s) && s.ev.Recv? && e in s.cbs && e.cbArg in s.objs
    requires completes ==> !s.objs[e.cbArg].endsItself
    ensures Leads(s, [EvDispatch(KeyOf(e))] + ([EvRun(completes)] + [EvFinish]), s)
  {
    OneIsCalled(s, e);
    CalledReturns(s, Called(s, e), e.cbArg, completes);
    LeadsOn(s, [EvDispatch(KeyOf(e))], Called(s, e), [EvRun(completes)] + [EvFinish], s);
  }

  lemma CalledReturns(s: State, t: State, p: Ptr, completes: bool)
    requires s.ev.Recv? && Alive(s.objs, p) && s.objs[p].refs > 0 && !s.fault && (completes ==> !s.objs[p].endsItself)
    requires t == s.(objs := s.objs[p := s.objs[p].(refs := s.objs[p].refs + 1)], ev := Callback(p))
    ensures Leads(t, [EvRun(completes)] + [EvFinish], s)
  {
    var u := t.(ev := FinishCallback(p));
    RunLeads(t, p, completes);
    FinishLeads(u, p);
    assert s.objs == u.objs[p := s.objs[p]];
    LeadsOn(t, [EvRun(completes)], u, [EvFinish], s);
  }

  lemma RunLeads(s: State, p: Ptr, completes: bool)
    requires s.ev == Callback(p) && Alive(s.objs, p) && (completes ==> !s.objs[p].endsItself) && !s.fault
    ensures Leads(s, [EvRun(completes)], s.(ev := FinishCallback(p)))
  {
    StepLeads(s, EvRun(completes));
  }

  /** The event thread gives its reference back, and deletes the command if that was the last. */
  lemma FinishLeads(s: State, p: Ptr)
    requires s.ev == FinishCallback(p) && Alive(s.objs, p)
    ensures Leads(s, [EvFinish],
                  s.(objs := s.objs[p := s.objs[p].(refs := s.objs[p].refs - 1, live := s.objs[p].refs != 1)],
                     ev := Recv))
  {
    StepLeads(s, EvFinish);
  }

  // ----- an event that ends its command

  lemma EndRuns(s: State, p: Ptr)
    requires s.ev == Callback(p) && Alive(s.objs, p) && s.objs[p].endsItself && !s.fault
    ensures Leads(s, [EvRun(true)], s.(ev := EndUnregister(p)))
  {
    StepLeads(s, EvRun(true));
  }

  lemma HandlerGoes(s: State, p: Ptr)
    requires s.ev == EndUnregister(p) && Alive(s.objs, p) && !s.fault && !s.freed
    ensures Leads(s, [EvEndUnregister], s.(cbs := RemoveKey(s.cbs, RTT_COMPLETE), ev := EndCommand(p)))
  {
    StepLeads(s, EvEndUnregister);
  }

  lemma EntryGoes(s: State, p: Ptr, i: nat)
    requires s.ev == EndCommand(p) && Alive(s.objs, p) && !s.fault && !s.freed
    requires i < |s.cmds| && s.cmds[i] == CmdInfo(s.objs[p].id, p) && IndexOfId(s.cmds, s.objs[p].id) == i
    ensures Leads(s, [EvEndCommand], s.(cmds := s.cmds[..i] + s.cmds[i + 1..], ev := EndRelease(p, p)))
  {
    StepLeads(s, EvEndCommand);
  }

  lemma ShareGoes(s: State, p: Ptr)
    requires s.ev == EndRelease(p, p) && !s.fault
    requires Alive(s.objs, p) && s.objs[p].refs == 2 && s.objs[p].ownerReleases == 0
    ensures Leads(s, [EvEndRelease],
                  s.(objs := s.objs[p := s.objs[p].(refs := 1, ownerReleases := 1)], ev := FinishCallback(p)))
  {
    StepLeads(s, EvEndRelease);
    assert s.objs[p].(refs := 1, live := true, ownerReleases := 1) == s.objs[p].(refs := 1, ownerReleases := 1);
  }

  /** From its callback on: handler, entry and owner share go, and the command with the last reference. */
  lemma CalledEnds(s: State, t: State, p: Ptr, i: nat)
    requires t.ev == Callback(p) && Alive(t.objs, p) && t.objs[p].endsItself && t.objs[p].refs == 2
    requires t.objs[p].ownerReleases == 0 && !t.fault && !t.freed
    requires i < |t.cmds| && t.cmds[i] == CmdInfo(t.objs[p].id, p) && IndexOfId(t.cmds, t.objs[p].id) == i
    requires s == t.(objs := t.objs[p := t.objs[p].(refs := 0, live := false, ownerReleases := 1)],
                     cmds := t.cmds[..i] + t.cmds[i + 1..], cbs := RemoveKey(t.cbs, RTT_COMPLETE), ev := Recv)
    ensures Leads(t, ([EvRun(true)] + [EvEndUnregister] + [EvEndCommand]) + ([EvEndRelease] + [EvFinish]), s)
  {
    var u := t.(cmds := t.cmds[..i] + t.cmds[i + 1..], cbs := RemoveKey(t.cbs, RTT_COMPLETE), ev := EndRelease(p, p));
    TablesLeft(t, p, i);
    ShareAndReference(u, p, s);
    LeadsOn(t, [EvRun(true)] + [EvEndUnregister] + [EvEndCommand], u, [EvEndRelease] + [EvFinish], s);
  }

  lemma TablesLeft(t: State, p: Ptr, i: nat)
    requires t.ev == Callback(p) && Alive(t.objs, p) && t.objs[p].endsItself && !t.fault && !t.freed
    requires i < |t.cmds| && t.cmds[i] == CmdInfo(t.objs[p].id, p) && IndexOfId(t.cmds, t.objs[p].id) == i
    ensures Leads(t, [EvRun(true)] + [EvEndUnregister] + [EvEndCommand],
                  t.(cmds := t.cmds[..i] + t.cmds[i + 1..], cbs := RemoveKey(t.cbs, RTT_COMPLETE),
                     ev := EndRelease(p, p)))
  {
    var t1 := t.(ev := EndUnregister(p));
    var t2 := t.(cbs := RemoveKey(t.cbs, RTT_COMPLETE), ev := EndCommand(p));
    EndRuns(t, p);
    HandlerGoes(t1, p);
    EntryGoes(t2, p, i);
    LeadsOn(t, [EvRun(true)], t1, [EvEndUnregister], t2);
    LeadsOn(t, [EvRun(true)] + [EvEndUnregister], t2, [EvEndCommand],
            t2.(cmds := t.cmds[..i] + t.cmds[i + 1..], ev := EndRelease(p, p)));
  }

  lemma ShareAndReference(u: State, p: Ptr, s: State)
    requires u.ev == EndRelease(p, p) && !u.fault
    requires Alive(u.objs, p) && u.objs[p].refs == 2 && u.objs[p].ownerReleases == 0
    requires s == u.(objs := u.objs[p := u.objs[p].(refs := 0, live := false, ownerReleases := 1)], ev := Recv)
    ensures Leads(u, [EvEndRelease] + [EvFinish], s)
  {
    var v := u.(objs := u.objs[p := u.objs[p].(refs := 1, ownerReleases := 1)], ev := FinishCallback(p));
    ShareGoes(u, p);
    FinishLeads(v, p);
    assert v.objs[p := s.objs[p]] == s.objs;
    LeadsOn(u, [EvEndRelease], v, [EvFinish], s);
  }

  /**
  A completing event, the API thread being between calls: the command's handler and its entry are
  gone, nobody else's are, and the command is deleted, its owner share given up once.
   */
  lemma CallEnds(s: State, e: CbInfo, i: nat) returns (t: State)
    requires Inv(s) && s.ev.Recv? && s.api.Idle? && e in s.cbs && e.cbArg in s.objs && s.objs[e.cbArg].endsItself
    requires i < |s.cmds| && s.cmds[i].cmd == e.cbArg
    ensures KeyOf(e) == RTT_COMPLETE
    ensures Leads(s, [EvDispatch(RTT_COMPLETE)]
                     + (([EvRun(true)] + [EvEndUnregister] + [EvEndCommand]) + ([EvEndRelease] + [EvFinish])), t)
    ensures var p := e.cbArg;
            t == s.(objs := s.objs[p := s.objs[p].(refs := 0, live := false, ownerReleases := 1)],
                    cmds := s.cmds[..i] + s.cmds[i + 1..], cbs := t.cbs)
    ensures WithoutKeys(t.cbs, s.cbs, [RTT_COMPLETE])
  {
    var p, u := e.cbArg, Called(s, e);
    OneIsCalled(s, e);
    EntryOwns(s, i);
    OneEntry(s, i, IndexOfId(s.cmds, s.cmds[i].id));
    RemoveKeyMembers(s.cbs, RTT_COMPLETE);
    t := s.(objs := s.objs[p := s.objs[p].(refs := 0, live := false, ownerReleases := 1)],
            cmds := s.cmds[..i] + s.cmds[i + 1..], cbs := RemoveKey(s.cbs, RTT_COMPLETE));
    assert u.objs[p := t.objs[p]] == t.objs;
    CalledEnds(t, u, p, i);
    LeadsOn(s, [EvDispatch(RTT_COMPLETE)], u,
            ([EvRun(true)] + [EvEndUnregister] + [EvEndCommand]) + ([EvEndRelease] + [EvFinish]), t);
  }
}

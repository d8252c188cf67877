/**
What the lifetime machine can still do: when cleanup can complete, and that a stop call makes room
for the next start of the same kind.
 */
module LifecycleProgress {
  import opened HandlerTables
  import opened Lifecycle
  import opened LifecycleProof

  // ----- building runs

  /** One step, then a run. */
  lemma StepThenRun(s: State, step: Step, rest: seq<Step>)
    requires Enabled(s, step) && IsRun(Apply(s, step), rest)
    ensures IsRun(s, [step] + rest) && After(s, [step] + rest) == After(Apply(s, step), rest)
  {
    assert ([step] + rest)[1..] == rest;
  }

  lemma StepKeeps(s: State, step: Step)
    requires Inv(s) && Enabled(s, step)
    ensures Inv(Apply(s, step))
  {
    if IsEventStep(step) {
      EventStepKeeps(s, step);
    } else {
      ApiStepKeeps(s, step);
    }
  }

  // ----- runs and where they lead

  ghost predicate Leads(s: State, steps: seq<Step>, t: State) {
    IsRun(s, steps) && After(s, steps) == t
  }

  lemma StepLeads(s: State, step: Step)
    requires Enabled(s, step)
    ensures Leads(s, [step], Apply(s, step))
  {
    StepThenRun(s, step, []);
    assert [step] + [] == [step];
  }

  lemma FirstThenRest(first: seq<Step>, more: seq<Step>)
    requires first != []
    ensures [first[0]] + (first[1..] + more) == first + more
  {
  }

  lemma StepThenLeads(s: State, step: Step, rest: seq<Step>, t: State)
    requires Enabled(s, step) && Leads(Apply(s, step), rest, t)
    ensures Leads(s, [step] + rest, t)
  {
    StepThenRun(s, step, rest);
  }

  lemma {:induction false} LeadsOn(s: State, first: seq<Step>, t: State, more: seq<Step>, u: State)
    requires Leads(s, first, t) && Leads(t, more, u)
    ensures Leads(s, first + more, u)
    decreases |first|
  {
    if first == [] {
      assert first + more == more;
    } else {
      LeadsOn(Apply(s, first[0]), first[1..], t, more, u);
      StepThenLeads(s, first[0], first[1..] + more, u);
      FirstThenRest(first, more);
    }
  }

  predicate ApiOnly(steps: seq<Step>) { forall i :: 0 <= i < |steps| ==> !IsEventStep(steps[i]) }

  /** A run of the API thread alone. */
  ghost predicate ApiLeads(s: State, steps: seq<Step>, t: State) {
    Leads(s, steps, t) && ApiOnly(steps)
  }

  lemma ApiLeadsOn(s: State, first: seq<Step>, t: State, more: seq<Step>, u: State)
    requires ApiLeads(s, first, t) && ApiLeads(t, more, u)
    ensures ApiLeads(s, first + more, u)
  {
    LeadsOn(s, first, t, more, u);
  }

  // ----- a loop that left without answering

  /** The event loop is gone, and neither has it answered cleanup nor will it. */
  predicate HungUp(s: State) {
    s.ev.Exited? && !s.donePending && !CleaningUp(s)
  }

  lemma HangUpStep(s: State, step: Step)
    requires HandshakeOk(s) && Enabled(s, step)
    ensures HungUp(Apply(s, step)) <==> HungUp(s) || step.EvHangUp?
  {
    if IsEventStep(step) {
      HangUpEvent(s, step);
    } else {
      HangUpApi(s, step);
    }
  }

  lemma HangUpEvent(s: State, step: Step)
    requires HandshakeOk(s) && IsEventStep(step) && EventEnabled(s, step)
    ensures HungUp(ApplyEvent(s, step)) <==> HungUp(s) || step.EvHangUp?
  {
  }

  lemma HangUpApi(s: State, step: Step)
    requires HandshakeOk(s) && !IsEventStep(step) && ApiEnabled(s, step)
    ensures HungUp(ApplyApi(s, step)) <==> HungUp(s)
  {
    if step.ApiReadDone? {
      assert CleaningUp(ApplyApi(s, step));
    } else {
      ApiLeavesEvents(s, step);
    }
  }

  /** The event thread's position, its answer, and whether cleanup drains are as they were. */
  predicate LeavesEvents(s: State, t: State) {
    t.ev == s.ev && t.donePending == s.donePending && CleaningUp(t) == CleaningUp(s)
  }

  /** No step of the API thread but reading Done changes these. */
  lemma ApiLeavesEvents(s: State, step: Step)
    requires !IsEventStep(step) && ApiEnabled(s, step) && !step.ApiReadDone?
    ensures LeavesEvents(s, ApplyApi(s, step))
  {
    if step.ApiStart? || step.ApiStartOp? || step.ApiStarted? {
      StartLeaves(s, step);
    } else if step.ApiUnwind? || step.ApiFailUnregister? || step.ApiStop? || step.ApiCleanup? {
      EndOfStartLeaves(s, step);
    } else if step.ApiCancel? || step.ApiCancelOp? || step.ApiRelease? {
      CancelLeaves(s, step);
    } else {
      DrainLeaves(s, step);
    }
  }

  lemma StartLeaves(s: State, step: Step)
    requires (step.ApiStart? || step.ApiStartOp? || step.ApiStarted?) && ApiEnabled(s, step)
    ensures LeavesEvents(s, ApplyApi(s, step))
  {
  }

  lemma EndOfStartLeaves(s: State, step: Step)
    requires step.ApiUnwind? || step.ApiFailUnregister? || step.ApiStop? || step.ApiCleanup?
    requires ApiEnabled(s, step)
    ensures LeavesEvents(s, ApplyApi(s, step))
  {
  }

  lemma CancelLeaves(s: State, step: Step)
    requires (step.ApiCancel? || step.ApiCancelOp? || step.ApiRelease?) && ApiEnabled(s, step)
    ensures LeavesEvents(s, ApplyApi(s, step))
  {
    if step.ApiCancel? {
      TakeOutLeaves(s, step.id);
    }
  }

  lemma TakeOutLeaves(s: State, id: int)
    requires s.api.Idle?
    ensures LeavesEvents(s, Cancel(s, id))
  {
  }

  lemma DrainLeaves(s: State, step: Step)
    requires step.ApiDrainNext? || step.ApiDrainOp? || step.ApiDrainRelease? || step.ApiFree?
    requires ApiEnabled(s, step)
    ensures LeavesEvents(s, ApplyApi(s, step))
  {
  }

  lemma {:induction false} HangUpShows(s: State, steps: seq<Step>)
    requires Inv(s) && IsRun(s, steps)
    ensures HungUp(After(s, steps)) <==> HungUp(s) || EvHangUp in steps
    decreases |steps|
  {
    if steps != [] {
      StepKeeps(s, steps[0]);
      HangUpStep(s, steps[0]);
      HangUpShows(Apply(s, steps[0]), steps[1..]);
      FirstOrLater(steps, EvHangUp);
    }
  }

  lemma FirstOrLater(steps: seq<Step>, step: Step)
    requires steps != []
    ensures step in steps <==> step == steps[0] || step in steps[1..]
  {
    assert steps == [steps[0]] + steps[1..];
  }

  // ----- how far it is to the end

  /** The step to take next on the shortest way to the end of cleanup. */
  function NextStep(s: State): Step {
    if s.api.WaitDone? && !s.donePending then NextEventStep(s.ev) else ApiStepOf(s)
  }

  function NextEventStep(ev: EvPc): Step {
    match ev
    case Poll => EvReadExit
    case Recv => EvRecvDone
    case Callback(_) => EvRun(false)
    case EndUnregister(_) => EvEndUnregister
    case EndCommand(_) => EvEndCommand
    case EndRelease(_, _) => EvEndRelease
    case FinishCallback(_) => EvFinish
    case LoopCheck => EvLoopCheck
    case Exited => EvHangUp
  }

  function Phase(api: ApiPc): nat {
    match api
    case Starting(_, _, _) => 9
    case Unwinding(_, _) => 8
    case FailUnregister(_) => 7
    case Cancelling(_, _) => 6
    case Releasing(_) => 5
    case Idle => 4
    case WaitDone => 3
    case Finished => 0
    case _ => 1
  }

  /** Entries of the command table that cleanup has not yet passed. */
  function Left(s: State): nat {
    if CleaningUp(s) && Drained(s) <= |s.cmds| then |s.cmds| - Drained(s) else 0
  }

  function Position(s: State): nat {
    match s.api
    case DrainRelease(_, _) => 3
    case Draining(_) => 2
    case DrainCancel(_, _, _, _) => 1
    case WaitDone => EventPosition(s.ev)
    case _ => 0
  }

  function EventPosition(ev: EvPc): nat {
    match ev
    case EndUnregister(_) => 8
    case EndCommand(_) => 7
    case EndRelease(_, _) => 6
    case Callback(_) => 6
    case FinishCallback(_) => 5
    case Recv => 4
    case LoopCheck => 3
    case Poll => 2
    case Exited => 1
  }

  function Remaining(api: ApiPc): nat {
    match api
    case Starting(_, script, done) => if done < |script| then |script| - done else 0
    case Unwinding(_, keys) => |keys|
    case Cancelling(_, keys) => |keys|
    case DrainCancel(_, _, keys, _) => |keys|
    case _ => 0
  }

  predicate Closer(t: State, s: State) {
    || Phase(t.api) < Phase(s.api)
    || (Phase(t.api) == Phase(s.api) &&
        (|| Left(t) < Left(s)
         || (Left(t) == Left(s) &&
             (|| Position(t) < Position(s)
              || (Position(t) == Position(s) && Remaining(t.api) < Remaining(s.api))))))
  }

  lemma NextStepEnabled(s: State)
    requires Inv(s) && !HungUp(s) && !s.api.Finished?
    ensures Enabled(s, NextStep(s)) && !NextStep(s).EvHangUp?
  {
    if s.api.FailUnregister? {
      AliveInTable(s, s.api.p);
    }
    if s.api.Draining? && s.api.bad < |s.cmds| {
      assert s.cmds[s.api.bad] in s.cmds;
    }
  }

  lemma NextStepCloser(s: State)
    requires Inv(s) && !HungUp(s) && !s.api.Finished? && Enabled(s, NextStep(s))
    ensures Closer(Apply(s, NextStep(s)), s)
  {
    if CleaningUp(s) {
      DrainCloser(s);
    } else if s.api.WaitDone? {
      WaitCloser(s);
    } else {
      ApiCloser(s);
    }
  }

  lemma ApiCloser(s: State)
    requires !CleaningUp(s) && !s.api.WaitDone? && Enabled(s, NextStep(s))
    ensures Closer(Apply(s, NextStep(s)), s)
  {
    if s.api.Starting? {
      StartCloser(s);
    } else if s.api.Unwinding? || s.api.FailUnregister? {
      UnwindCloser(s);
    } else {
      CancelCloser(s);
    }
  }

  lemma StartCloser(s: State)
    requires s.api.Starting? && Enabled(s, NextStep(s))
    ensures Closer(Apply(s, NextStep(s)), s)
  {
  }

  lemma UnwindCloser(s: State)
    requires (s.api.Unwinding? || s.api.FailUnregister?) && Enabled(s, NextStep(s))
    ensures Closer(Apply(s, NextStep(s)), s)
  {
    if s.api.Unwinding? {
      UnwindOpCloser(s, s.api.p, s.api.keys);
    }
  }

  lemma UnwindOpCloser(s: State, p: Ptr, keys: seq<Key>)
    requires s.api == Unwinding(p, keys)
    ensures Closer(Unwind(s, p, keys), s)
  {
    assert Unwind(s, p, keys).api == if keys == [] then FailUnregister(p) else Unwinding(p, keys[1..]);
  }

  lemma CancelCloser(s: State)
    requires (s.api.Cancelling? || s.api.Releasing? || s.api.Idle?) && Enabled(s, NextStep(s))
    ensures Closer(Apply(s, NextStep(s)), s)
  {
  }

  lemma WaitCloser(s: State)
    requires s.api.WaitDone? && HandshakeOk(s) && Enabled(s, NextStep(s))
    ensures Closer(Apply(s, NextStep(s)), s)
  {
  }

  lemma DrainCloser(s: State)
    requires CleaningUp(s) && !s.api.Finished? && Drained(s) <= |s.cmds| && Enabled(s, NextStep(s))
    requires s.api.DrainCancel? ==> s.api.bad < |s.cmds| == s.api.num
    ensures Closer(Apply(s, NextStep(s)), s)
  {
    if s.api.DrainCancel? {
      DrainOpCloser(s, s.api.bad, s.api.p, s.api.keys, s.api.num);
    } else {
      DrainTurnCloser(s);
    }
  }

  lemma DrainOpCloser(s: State, bad: nat, p: Ptr, keys: seq<Key>, num: nat)
    requires s.api == DrainCancel(bad, p, keys, num) && bad < |s.cmds| == num
    ensures Closer(DrainOp(s, bad, p, keys, num), s)
  {
  }

  lemma DrainTurnCloser(s: State)
    requires (s.api.Draining? || s.api.DrainRelease?) && Drained(s) <= |s.cmds| && Enabled(s, NextStep(s))
    ensures Closer(Apply(s, NextStep(s)), s)
  {
  }

  /** From every state whose loop has not hung up, cleanup can be run to its end. */
  lemma RunToFinished(s: State) returns (steps: seq<Step>)
    requires Inv(s) && !HungUp(s)
    ensures IsRun(s, steps) && After(s, steps).api.Finished?
    decreases Phase(s.api), Left(s), Position(s), Remaining(s.api)
  {
    if s.api.Finished? {
      return [];
    }
    NextStepEnabled(s);
    NextStepCloser(s);
    StepKeeps(s, NextStep(s));
    HangUpStep(s, NextStep(s));
    var rest := RunToFinished(Apply(s, NextStep(s)));
    StepThenRun(s, NextStep(s), rest);
    steps := [NextStep(s)] + rest;
  }

  /**
  After any run, cleanup can still be brought to its end if and only if the event loop has not
  left by hang-up; a loop that has leaves cleanup waiting for Done for ever.
   */
  lemma CleanupCanFinish(steps: seq<Step>)
    requires IsRun(Init, steps)
    ensures EvHangUp !in steps <==>
            exists more :: IsRun(After(Init, steps), more) && After(After(Init, steps), more).api.Finished?
  {
    var s := After(Init, steps);
    InitOk();
    RunKeeps(Init, steps);
    HangUpShows(Init, steps);
    if EvHangUp !in steps {
      var more := RunToFinished(s);
      assert IsRun(s, more) && After(s, more).api.Finished?;
    } else {
      forall more | IsRun(s, more) ensures !After(s, more).api.Finished? {
        HangUpShows(s, more);
      }
    }
  }

  // ----- stop, then start again

  /** Exactly the callbacks under `keys` are gone. */
  ghost predicate WithoutKeys(cbs: seq<CbInfo>, before: seq<CbInfo>, keys: seq<Key>) {
    DistinctKeys(cbs) && forall e :: e in cbs <==> e in before && KeyOf(e) !in keys
  }

  /** The owner has given up its share of `p`; without another reference `p` is deleted. */
  function GivenUp(objs: map<Ptr, Obj>, p: Ptr): map<Ptr, Obj>
    requires p in objs
  {
    objs[p := objs[p].(refs := objs[p].refs - 1, live := objs[p].refs != 1, ownerReleases := objs[p].ownerReleases + 1)]
  }

  /** From `s` to `t` cancel() was run on `p` and its owner's share given up; nothing else changed. */
  ghost predicate Cleared(s: State, t: State, p: Ptr, keys: seq<Key>) {
    && p in s.objs && t == s.(objs := GivenUp(s.objs, p), cbs := t.cbs, api := Idle)
    && WithoutKeys(t.cbs, s.cbs, keys)
  }

  lemma ClearedMore(s: State, t: State, u: State, p: Ptr, keys: seq<Key>)
    requires keys != [] && DistinctKeys(s.cbs)
    requires t == s.(cbs := RemoveKey(s.cbs, keys[0]), api := t.api) && Cleared(t, u, p, keys[1..])
    ensures Cleared(s, u, p, keys)
  {
    RemoveKeyMembers(s.cbs, keys[0]);
    assert forall k :: k in keys ==> k == keys[0] || k in keys[1..];
  }

  /** One piece of cancel() on a command that is alive. */
  lemma CancelPiece(s: State, p: Ptr, keys: seq<Key>) returns (t: State)
    requires Inv(s) && s.api == Cancelling(p, keys)
    ensures ApiLeads(s, [ApiCancelOp], t) && Inv(t)
    ensures t == if keys == [] then s.(api := Releasing(p))
                 else s.(cbs := RemoveKey(s.cbs, keys[0]), api := Cancelling(p, keys[1..]))
  {
    AliveHeld(s, p);
    CancelOpKeeps(s, p, keys);
    StepLeads(s, ApiCancelOp);
    t := RunCancelOp(s, p, keys);
  }

  lemma ReleasePiece(s: State, p: Ptr) returns (t: State)
    requires Inv(s) && s.api == Releasing(p)
    ensures ApiLeads(s, [ApiRelease], t) && Inv(t) && t == s.(objs := GivenUp(s.objs, p), api := Idle)
  {
    AliveHeld(s, p);
    ReleaseKeeps(s, p);
    StepLeads(s, ApiRelease);
    GiveUpIs(s, p);
    t := GiveUp(s, p);
  }

  lemma GiveUpIs(s: State, p: Ptr)
    requires Alive(s.objs, p) && !s.fault
    ensures GiveUp(s, p) == s.(objs := GivenUp(s.objs, p), api := Idle)
  {
  }

  lemma LastPieces(s: State, p: Ptr) returns (t: State)
    requires Inv(s) && s.api == Cancelling(p, [])
    ensures ApiLeads(s, [ApiCancelOp] + [ApiRelease], t) && Inv(t) && Cleared(s, t, p, [])
  {
    var u := CancelPiece(s, p, []);
    t := ReleasePiece(u, p);
    ApiLeadsOn(s, [ApiCancelOp], u, [ApiRelease], t);
  }

  /** cancel() on any command, run to its end, takes out exactly the callbacks under its keys. */
  lemma {:induction false} CancelRuns(s: State, p: Ptr, keys: seq<Key>) returns (steps: seq<Step>, t: State)
    requires Inv(s) && s.api == Cancelling(p, keys)
    ensures ApiLeads(s, steps, t) && Inv(t) && Cleared(s, t, p, keys)
    decreases |keys|
  {
    if keys == [] {
      t := LastPieces(s, p);
      return [ApiCancelOp] + [ApiRelease], t;
    }
    var u := CancelPiece(s, p, keys);
    var rest;
    rest, t := CancelRuns(u, p, keys[1..]);
    ApiLeadsOn(s, [ApiCancelOp], u, rest, t);
    ClearedMore(s, u, t, p, keys);
    steps := [ApiCancelOp] + rest;
  }

  /**
  A stop call, with nothing known about the event thread, takes out exactly the callbacks under its
  keys, deletes its temporary command, and ends with the way free for another start of the same
  kind, although the stopped command is still in the table.
   */
  lemma StopThenStart(s: State, p: Ptr, q: Ptr, id: int, next: int, kind: Kind) returns (steps: seq<Step>)
    requires Inv(s) && s.api.Idle? && p != 0 && q != 0 && p != q && p !in s.objs && q !in s.objs
    requires forall r :: r in s.objs && s.objs[r].live && !s.objs[r].temp ==> s.objs[r].id != next
    ensures IsRun(s, [ApiStop(p, id, kind)] + steps) && ApiOnly(steps)
    ensures var t := After(s, [ApiStop(p, id, kind)] + steps);
            && t == s.(objs := s.objs[p := Obj(id, CancelKeys(kind), kind == Rtt, true, 0, false, 1)], cbs := t.cbs)
            && WithoutKeys(t.cbs, s.cbs, CancelKeys(kind)) && Enabled(t, ApiStart(q, next, kind))
  {
    var stop := ApiStop(p, id, kind);
    StepKeeps(s, stop);
    var t, u := StopKind(s, p, id, kind), s;
    steps, u := CancelRuns(t, p, CancelKeys(kind));
    StepThenRun(s, stop, steps);
    StoppedIs(s, t, u, p, id, kind);
    CanStartAgain(s, u, p, q, next, kind);
  }

  lemma StoppedIs(s: State, t: State, u: State, p: Ptr, id: int, kind: Kind)
    requires s.api.Idle? && p !in s.objs && t == StopKind(s, p, id, kind) && Cleared(t, u, p, CancelKeys(kind))
    ensures u == s.(objs := s.objs[p := Obj(id, CancelKeys(kind), kind == Rtt, true, 0, false, 1)], cbs := u.cbs)
    ensures WithoutKeys(u.cbs, s.cbs, CancelKeys(kind))
  {
  }

  lemma CanStartAgain(s: State, u: State, p: Ptr, q: Ptr, next: int, kind: Kind)
    requires p in u.objs && u.objs[p].temp && u.objs == s.objs[p := u.objs[p]] && u.api.Idle?
    requires WithoutKeys(u.cbs, s.cbs, CancelKeys(kind)) && q != 0 && q != p && q !in s.objs
    requires forall r :: r in s.objs && s.objs[r].live && !s.objs[r].temp ==> s.objs[r].id != next
    ensures CanStart(u, q, next, kind)
  {
  }
}

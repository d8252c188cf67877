/**
Whose callback an unregister takes out.  unregisterVendorHandler removes the first entry with the
key, whoever registered it, and a stopped command can still be running its callback when the next
one is started.
 */
module LifecycleHandover {
  import opened Options
  import opened HandlerTables
  import opened Lifecycle
  import opened LifecycleProof
  import opened LifecycleProgress
  import opened LifecycleCalls

  datatype Call = Call(p: Ptr, key: Key)

  /** The command and the key of the unregister call that a step makes. */
  function UnregisterCall(s: State, step: Step): Option<Call> {
    match step
    case ApiUnwind => FirstKey(s.api)
    case ApiCancelOp => FirstKey(s.api)
    case ApiDrainOp => FirstKey(s.api)
    case EvEndUnregister => if s.ev.EndUnregister? then Some(Call(s.ev.p, RTT_COMPLETE)) else None
    case _ => None
  }

  function FirstKey(api: ApiPc): Option<Call> {
    if (api.Unwinding? || api.Cancelling? || api.DrainCancel?) && api.keys != []
    then Some(Call(api.p, api.keys[0])) else None
  }

  /** Every callback that is gone was registered by `p`. */
  ghost predicate TookOnlyOwn(s: State, t: State, p: Ptr) {
    forall e :: e in s.cbs && e !in t.cbs ==> e.cbArg == p
  }

  /** A command other than `p` has its callback under `k`. */
  ghost predicate HeldByOther(s: State, k: Key, p: Ptr) {
    exists e :: e in s.cbs && KeyOf(e) == k && e.cbArg != p
  }

  /** The callback table after a step: one key less if it makes a call, nothing less if not. */
  ghost predicate CallbacksFollow(s: State, step: Step, t: State) {
    var call := UnregisterCall(s, step);
    if call.Some? then t.cbs == RemoveKey(s.cbs, call.value.key) else KeepsCallbacks(s, t)
  }

  ghost predicate KeepsCallbacks(s: State, t: State) {
    forall e :: e in s.cbs ==> e in t.cbs
  }

  lemma CallbacksAfter(s: State, step: Step)
    requires Enabled(s, step)
    ensures CallbacksFollow(s, step, Apply(s, step))
  {
    if IsEventStep(step) {
      AfterEvent(s, step);
    } else if step.ApiUnwind? || step.ApiCancelOp? || step.ApiDrainOp? {
      AfterCall(s, step);
    } else {
      AfterOther(s, step);
    }
  }

  lemma AfterEvent(s: State, step: Step)
    requires IsEventStep(step) && EventEnabled(s, step)
    ensures CallbacksFollow(s, step, ApplyEvent(s, step))
  {
  }

  lemma AfterCall(s: State, step: Step)
    requires (step.ApiUnwind? || step.ApiCancelOp? || step.ApiDrainOp?) && ApiEnabled(s, step)
    ensures CallbacksFollow(s, step, ApplyApi(s, step))
  {
  }

  /** The call itself, also on a command that is no more. */
  lemma CallRemoves(s: State, p: Ptr, k: Key)
    ensures Unregister(Touch(s, p), k).cbs == RemoveKey(s.cbs, k)
  {
  }

  lemma AfterOther(s: State, step: Step)
    requires !IsEventStep(step) && !step.ApiUnwind? && !step.ApiCancelOp? && !step.ApiDrainOp? && ApiEnabled(s, step)
    ensures KeepsCallbacks(s, ApplyApi(s, step))
  {
  }

  /**
  At any point of any run, the unregister call of the next step takes out only the callback of the
  command that makes it if and only if no other command holds the key then; and a step that makes
  no such call takes out no callback at all.
   */
  lemma UnregisterIsOwn(steps: seq<Step>, step: Step)
    requires IsRun(Init, steps) && Enabled(After(Init, steps), step)
    ensures var s := After(Init, steps);
            var call := UnregisterCall(s, step);
            if call.Some?
            then TookOnlyOwn(s, Apply(s, step), call.value.p) <==> !HeldByOther(s, call.value.key, call.value.p)
            else KeepsCallbacks(s, Apply(s, step))
  {
    var s := After(Init, steps);
    InitOk();
    RunKeeps(Init, steps);
    CallbacksAfter(s, step);
    var call := UnregisterCall(s, step);
    if call.Some? {
      RemoveKeyMembers(s.cbs, call.value.key);
    }
  }

  /** A failed start takes out none but its own callbacks. */
  lemma UnwindIsOwn(steps: seq<Step>)
    requires IsRun(Init, steps) && After(Init, steps).api.Unwinding?
    ensures var s := After(Init, steps);
            forall k :: k in s.api.keys ==> !HeldByOther(s, k, s.api.p)
    ensures var s := After(Init, steps);
            TookOnlyOwn(s, Apply(s, ApiUnwind), s.api.p)
  {
    var s := After(Init, steps);
    InitOk();
    RunKeeps(Init, steps);
    UnregisterIsOwn(steps, ApiUnwind);
  }

  // ----- a run in which an unregister call takes another command's callback

  /** The single callback of the table is the one of `p` for RTT results. */
  ghost predicate OnlyHandler(cbs: seq<CbInfo>, p: Ptr) {
    |cbs| == 1 && cbs[0].cbArg == p && KeyOf(cbs[0]) == RTT_COMPLETE
  }

  lemma OneKey(own: seq<CbInfo>, p: Ptr)
    requires OneForEach(own, p, CancelKeys(Rtt))
    ensures OnlyHandler(own, p)
  {
    assert RTT_COMPLETE in CancelKeys(Rtt);
    assert forall e :: e in own ==> e == own[0];
    assert own[0] in own;
  }

  /** An RTT command is started when no callback is registered. */
  lemma RttStarts(s: State, p: Ptr, id: int) returns (steps: seq<Step>, t: State)
    requires Inv(s) && CanStart(s, p, id, Rtt) && |s.cmds| < DEFAULT_CMD_SIZE && s.cbs == []
    ensures Inv(t) && Leads(s, steps, t) && OnlyHandler(t.cbs, p)
    ensures t == s.(objs := s.objs[p := Obj(id, CancelKeys(Rtt), true, false, 1, true, 0)],
                    cmds := s.cmds + [CmdInfo(id, p)], cbs := t.cbs)
  {
    var rest, own := StartSucceeds(s, p, id, Rtt);
    OneKey(own, p);
    assert s.cbs + own == own;
    steps := [ApiStart(p, id, Rtt)] + rest;
    t := s.(objs := s.objs[p := Obj(id, CancelKeys(Rtt), true, false, 1, true, 0)],
            cmds := s.cmds + [CmdInfo(id, p)], cbs := own);
    RunKeeps(s, steps);
  }

  /** Its completing event arrives, and the callback is about to unregister the handler. */
  lemma RttCompletes(s: State, p: Ptr) returns (steps: seq<Step>, t: State)
    requires Inv(s) && s.ev.Poll? && OnlyHandler(s.cbs, p) && p in s.objs && s.objs[p].endsItself
    ensures Inv(t) && Leads(s, steps, t)
    ensures t == s.(objs := s.objs[p := s.objs[p].(refs := s.objs[p].refs + 1)], ev := EndUnregister(p))
  {
    var e, u := s.cbs[0], s.(ev := Recv);
    assert e in s.cbs;
    StepKeeps(s, EvPollIn);
    StepLeads(s, EvPollIn);
    OneIsCalled(u, e);
    EndRuns(Called(u, e), p);
    t := Called(u, e).(ev := EndUnregister(p));
    LeadsOn(s, [EvPollIn], u, [EvDispatch(RTT_COMPLETE)], Called(u, e));
    steps := [EvPollIn] + [EvDispatch(RTT_COMPLETE)];
    LeadsOn(s, steps, Called(u, e), [EvRun(true)], t);
    steps := steps + [EvRun(true)];
    RunKeeps(s, steps);
  }

  /** It is cancelled through a temporary command, which leaves room for the next. */
  lemma RttStops(s: State, p: Ptr, q: Ptr, id: int, next: int) returns (steps: seq<Step>, t: State)
    requires Inv(s) && s.api.Idle? && p != 0 && q != 0 && p != q && p !in s.objs && q !in s.objs
    requires forall r :: r in s.objs && s.objs[r].live && !s.objs[r].temp ==> s.objs[r].id != next
    requires forall e :: e in s.cbs ==> KeyOf(e) == RTT_COMPLETE
    ensures Inv(t) && Leads(s, steps, t) && CanStart(t, q, next, Rtt)
    ensures t == s.(objs := s.objs[p := Obj(id, CancelKeys(Rtt), true, true, 0, false, 1)], cbs := [])
  {
    var rest := StopThenStart(s, p, q, id, next, Rtt);
    steps := [ApiStop(p, id, Rtt)] + rest;
    t := After(s, steps);
    NoneLeft(t.cbs, s.cbs);
    RunKeeps(s, steps);
  }

  lemma NoneLeft(cbs: seq<CbInfo>, before: seq<CbInfo>)
    requires WithoutKeys(cbs, before, CancelKeys(Rtt)) && forall e :: e in before ==> KeyOf(e) == RTT_COMPLETE
    ensures cbs == []
  {
    assert RTT_COMPLETE in CancelKeys(Rtt);
    SomeMember(cbs);
  }

  lemma SomeMember(cbs: seq<CbInfo>)
    ensures cbs != [] ==> exists e :: e in cbs
  {
    if cbs != [] {
      assert cbs[0] in cbs;
    }
  }

  /**
  Start A, let its completing event arrive, cancel it, start B: A's callback, still running, then
  takes out B's handler, and B is alive and in the table with nobody to bring it its results.
   */
  lemma StaleUnregister() returns (steps: seq<Step>, a: Ptr, b: Ptr)
    ensures a != b && IsRun(Init, steps) && Enabled(After(Init, steps), EvEndUnregister)
    ensures var s := After(Init, steps);
            && s.ev == EndUnregister(a) && OnlyHandler(s.cbs, b)
            && var t := Apply(s, EvEndUnregister);
               t.cbs == [] && InTable(t, b) && b in t.objs && t.objs[b].live
  {
    a, b := 1, 3;
    var s: State;
    steps, s := StaleRun();
    TakesTheNext(s, a, b);
  }

  lemma StaleRun() returns (steps: seq<Step>, s: State)
    ensures Leads(Init, steps, s) && !s.freed && s.api.Idle?
    ensures s.ev == EndUnregister(1) && OnlyHandler(s.cbs, 3) && InTable(s, 3) && 3 in s.objs && s.objs[3].live
  {
    var steps0, s0 := UntilCancelled();
    var more;
    more, s := RttStarts(s0, 3, 11);
    LeadsOn(Init, steps0, s0, more, s);
    steps := steps0 + more;
    EntryCounts(s.cmds, 1);
  }

  lemma UntilCancelled() returns (steps: seq<Step>, s: State)
    ensures Inv(s) && Leads(Init, steps, s) && s.api.Idle? && CanStart(s, 3, 11, Rtt)
    ensures s.ev == EndUnregister(1) && s.cbs == [] && s.cmds == [CmdInfo(10, 1)] && !s.freed
  {
    InitOk();
    var first, t := RttStarts(Init, 1, 10);
    var second, u := RttCompletes(t, 1);
    assert forall e :: e in u.cbs ==> e == u.cbs[0];
    var third;
    third, s := RttStops(u, 2, 3, 10, 11);
    LeadsOn(Init, first, t, second, u);
    LeadsOn(Init, first + second, u, third, s);
    steps := first + second + third;
  }

  lemma TakesTheNext(s: State, a: Ptr, b: Ptr)
    requires s.ev == EndUnregister(a) && OnlyHandler(s.cbs, b)
    ensures var t := Apply(s, EvEndUnregister);
            t.cbs == [] && t.objs == s.objs && t.cmds == s.cmds && t.api == s.api
  {
    CallRemoves(s, a, RTT_COMPLETE);
  }
}

/** The proof that every step of the lifetime machine keeps its invariant, and what follows for whole runs. */
module LifecycleProof {
  import opened Options
  import opened HandlerTables
  import opened Lifecycle

  // ----- counting table entries

  lemma {:induction false} EntryCounts(t: seq<CmdInfo>, i: nat)
    requires i < |t|
    ensures Entries(t, t[i].cmd) > 0
  {
    if i > 0 {
      EntryCounts(t[1..], i - 1);
    }
  }

  lemma {:induction false} EntryExists(t: seq<CmdInfo>, p: Ptr) returns (i: nat)
    requires Entries(t, p) > 0
    ensures i < |t| && t[i].cmd == p
  {
    if t[0].cmd == p {
      i := 0;
    } else {
      i := EntryExists(t[1..], p);
      i := i + 1;
    }
  }

  lemma {:induction false} EntriesAppend(t: seq<CmdInfo>, e: CmdInfo, p: Ptr)
    ensures Entries(t + [e], p) == Entries(t, p) + if e.cmd == p then 1 else 0
  {
    if t == [] {
      assert t + [e] == [e];
    } else {
      EntriesAppend(t[1..], e, p);
      assert (t + [e])[1..] == t[1..] + [e];
    }
  }

  /** Taking an entry out by id takes one entry of the command found. */
  lemma {:induction false} EntriesRemoveId(t: seq<CmdInfo>, id: int, p: Ptr)
    ensures Entries(RemoveId(t, id), p) == Entries(t, p) - if FindId(t, id) == Some(p) then 1 else 0
    ensures forall e :: e in RemoveId(t, id) ==> e in t
  {
    if t != [] && t[0].id != id {
      EntriesRemoveId(t[1..], id, p);
      assert RemoveId(t, id) == [t[0]] + RemoveId(t[1..], id);
    } else if t != [] {
      assert RemoveId(t, id) == t[1..];
    }
  }

  // ----- the part of the invariant about objects and tables, one lemma per kind of change

  ghost predicate Core(s: State) {
    CountsOk(s) && CommandsOk(s) && CallbacksOk(s) && LiveDistinct(s) && KeysOk(s)
  }

  /** Nobody gained or lost a share or a callback in flight. */
  ghost predicate SameShares(s: State, t: State) {
    forall p :: p in s.objs ==> OwnerShares(t, p) == OwnerShares(s, p) && InFlight(t, p) == InFlight(s, p)
  }

  /** The event thread moves where it holds nothing. */
  lemma QuietShares(s: State, t: State)
    requires t.cmds == s.cmds && t.api == s.api && InQuiet(s.ev) && InQuiet(t.ev)
    ensures SameShares(s, t) && Drained(t) == Drained(s)
  {
  }

  /** The event thread moves with its callback on `p`. */
  lemma CallbackShares(s: State, t: State, p: Ptr)
    requires t.cmds == s.cmds && t.api == s.api
    requires InCallback(s.ev, p) && InCallback(t.ev, p)
    ensures SameShares(s, t) && Drained(t) == Drained(s)
  {
  }

  predicate InCallback(ev: EvPc, p: Ptr) {
    ev == Callback(p) || ev == EndUnregister(p) || ev == EndCommand(p) || ev == FinishCallback(p)
  }

  /** The API thread moves and holds what it held. */
  lemma ApiShares(s: State, t: State)
    requires t.cmds == s.cmds && t.ev == s.ev && Drained(t) == Drained(s)
    requires forall q :: q in s.objs ==> ApiHolds(t, q) == ApiHolds(s, q)
    ensures SameShares(s, t)
  {
  }

  /** A share goes from the table to the API thread. */
  lemma TakenShares(s: State, t: State, id: int)
    requires t.ev == s.ev && Drained(s) == 0 && Drained(t) == 0 && t.cmds == RemoveId(s.cmds, id)
    requires forall q :: q in s.objs ==> !ApiHolds(s, q) && ApiHolds(t, q) == (FindId(s.cmds, id) == Some(q))
    ensures SameShares(s, t)
  {
    TakeOutShares(s, t, id);
  }

  lemma CoreUnchanged(s: State, t: State)
    requires Core(s) && t.objs == s.objs && t.cmds == s.cmds && t.cbs == s.cbs
    requires SameShares(s, t) && Drained(t) <= |t.cmds|
    ensures Core(t)
  {
  }

  lemma CoreUnregister(s: State, t: State, k: Key)
    requires Core(s) && t.objs == s.objs && t.cmds == s.cmds && t.cbs == RemoveKey(s.cbs, k)
    requires SameShares(s, t) && Drained(t) <= |t.cmds|
    ensures Core(t)
  {
    RemoveKeyMembers(s.cbs, k);
  }

  lemma CoreRegister(s: State, t: State, p: Ptr, k: Key)
    requires Core(s) && t.objs == s.objs && t.cmds == s.cmds
    requires t.cbs == AppendIfRoom(DEFAULT_EVENT_CB_SIZE, s.cbs, EntryOf(k, p))
    requires SameShares(s, t) && Drained(t) <= |t.cmds|
    requires p in s.objs && !s.objs[p].temp && OwnerShares(s, p) == 1
    requires k.Vendor? && k in s.objs[p].keys && KeysFree(s, p)
    requires forall e :: e in s.cbs && e.cbArg == p ==> KeyOf(e) != k
    ensures Core(t)
  {
    assert KeyOf(EntryOf(k, p)) == k;
    assert forall e :: e in s.cbs ==> KeyOf(e) != k;
    RegisteredCallbacks(s, t, p, EntryOf(k, p));
  }

  lemma RegisteredCallbacks(s: State, t: State, p: Ptr, e: CbInfo)
    requires CallbacksOk(s) && t.objs == s.objs && t.cbs == AppendIfRoom(DEFAULT_EVENT_CB_SIZE, s.cbs, e)
    requires SameShares(s, t) && p in s.objs && !s.objs[p].temp && OwnerShares(s, p) == 1
    requires e.cbArg == p && KeyOf(e) in s.objs[p].keys && forall c :: c in s.cbs ==> KeyOf(c) != KeyOf(e)
    ensures CallbacksOk(t)
  {
  }

  lemma CoreTakeOut(s: State, t: State, id: int)
    requires Core(s) && t.objs == s.objs && t.cbs == s.cbs && t.cmds == RemoveId(s.cmds, id)
    requires SameShares(s, t) && Drained(t) <= |t.cmds|
    ensures Core(t)
  {
    EntriesRemoveId(s.cmds, id, 0);
    assert CommandsOk(t);
    assert CallbacksOk(t);
  }

  /** Objects other than `p` keep everything; `p` keeps its identity. */
  ghost predicate OnlyCountOf(s: State, t: State, p: Ptr) {
    && p in s.objs && t.objs.Keys == s.objs.Keys
    && (forall q :: q in s.objs && q != p ==>
          t.objs[q] == s.objs[q] && OwnerShares(t, q) == OwnerShares(s, q) && InFlight(t, q) == InFlight(s, q))
    && t.objs[p].keys == s.objs[p].keys && t.objs[p].id == s.objs[p].id && t.objs[p].temp == s.objs[p].temp
    && t.objs[p].endsItself == s.objs[p].endsItself
  }

  /** A reference taken or dropped for a callback touches the count of its object alone. */
  lemma CountOfCallback(s: State, t: State, p: Ptr)
    requires p in s.objs && p in t.objs
    requires t == s.(objs := s.objs[p := s.objs[p].(refs := t.objs[p].refs, live := t.objs[p].live)], ev := t.ev)
    requires (s.ev == Recv && t.ev == Callback(p)) || (s.ev == FinishCallback(p) && t.ev == Recv)
    ensures OnlyCountOf(s, t, p) && OwnerShares(t, p) == OwnerShares(s, p)
    ensures InFlight(s, p) == (if s.ev == Recv then 0 else 1) && InFlight(t, p) == 1 - InFlight(s, p)
  {
  }

  lemma CoreRecount(s: State, t: State, p: Ptr)
    requires Core(s) && OnlyCountOf(s, t, p) && t.cmds == s.cmds && t.cbs == s.cbs && Drained(t) <= |t.cmds|
    requires var o := t.objs[p];
             && o.refs == OwnerShares(t, p) + InFlight(t, p)
             && o.live == (o.refs > 0)
             && o.ownerReleases + OwnerShares(t, p) == 1
    requires OwnerShares(t, p) == OwnerShares(s, p) || OnlyKeys(s, p, [])
    requires t.objs[p].live ==> s.objs[p].live
    ensures Core(t)
  {
    RecountCounts(s, t, p);
    RecountCommands(s, t, p);
    RecountDistinct(s, t, p);
    RecountCallbacks(s, t, p);
  }

  lemma RecountCounts(s: State, t: State, p: Ptr)
    requires CountsOk(s) && OnlyCountOf(s, t, p)
    requires var o := t.objs[p];
             && o.refs == OwnerShares(t, p) + InFlight(t, p)
             && o.live == (o.refs > 0)
             && o.ownerReleases + OwnerShares(t, p) == 1
    ensures CountsOk(t)
  {
  }

  lemma RecountCommands(s: State, t: State, p: Ptr)
    requires CommandsOk(s) && KeysOk(s) && OnlyCountOf(s, t, p) && t.cmds == s.cmds && Drained(t) <= |t.cmds|
    ensures CommandsOk(t) && KeysOk(t)
  {
  }

  lemma RecountDistinct(s: State, t: State, p: Ptr)
    requires LiveDistinct(s) && OnlyCountOf(s, t, p) && (t.objs[p].live ==> s.objs[p].live)
    ensures LiveDistinct(t)
  {
    forall q, r | q in t.objs && r in t.objs && q != r ensures ClashFree(t.objs[q], t.objs[r]) {
      assert ClashFree(s.objs[q], s.objs[r]);
    }
  }

  lemma RecountCallbacks(s: State, t: State, p: Ptr)
    requires CallbacksOk(s) && OnlyCountOf(s, t, p) && t.cbs == s.cbs
    requires OwnerShares(t, p) == OwnerShares(s, p) || OnlyKeys(s, p, [])
    ensures CallbacksOk(t)
  {
  }

  /** Whoever holds a share, or runs a callback, can dereference the object. */
  lemma AliveHeld(s: State, p: Ptr)
    requires CountsOk(s) && p in s.objs && OwnerShares(s, p) + InFlight(s, p) > 0
    ensures Touch(s, p) == s
  {
  }

  lemma AliveInTable(s: State, p: Ptr)
    requires CountsOk(s) && CommandsOk(s) && InTable(s, p)
    ensures p in s.objs && OwnerShares(s, p) >= 1 && Touch(s, p) == s
  {
    var i := EntryExists(Pending(s), p);
    assert Pending(s)[i] in s.cmds;
    AliveHeld(s, p);
  }

  /** An owner gives its share up, after the last callback of the object left the table. */
  lemma CoreOwnerRelease(s: State, t: State, p: Ptr)
    requires Core(s) && p in s.objs && OwnerShares(s, p) == 1 && OnlyKeys(s, p, [])
    requires Alive(s.objs, p) && t.objs == s.objs[p := Released(s.objs[p], true)]
    requires t.cmds == s.cmds && t.cbs == s.cbs && Drained(t) <= |t.cmds| && OwnerShares(t, p) == 0
    requires forall q :: q in s.objs ==> InFlight(t, q) == InFlight(s, q)
    requires forall q :: q in s.objs && q != p ==> OwnerShares(t, q) == OwnerShares(s, q)
    ensures Core(t) && SameIdentity(s, t)
  {
    OwnerCount(s, t, p);
    CoreRecount(s, t, p);
  }

  lemma OwnerCount(s: State, t: State, p: Ptr)
    requires Alive(s.objs, p) && t.objs == s.objs[p := Released(s.objs[p], true)]
    requires forall q :: q in s.objs ==> InFlight(t, q) == InFlight(s, q)
    requires forall q :: q in s.objs && q != p ==> OwnerShares(t, q) == OwnerShares(s, q)
    ensures OnlyCountOf(s, t, p) && SameIdentity(s, t) && t.objs[p] == Released(s.objs[p], true)
  {
  }

  lemma CoreAllocate(s: State, t: State, p: Ptr, id: int, keys: seq<Key>, endsItself: bool, temp: bool)
    requires Core(s) && p !in s.objs && t.objs == s.objs[p := NewObj(id, keys, endsItself, temp)]
    requires endsItself ==> keys == [RTT_COMPLETE]
    requires t.cbs == s.cbs && CommandsOk(t) && SameShares(s, t)
    requires OwnerShares(t, p) == 1 && InFlight(t, p) == 0
    requires temp || NoClash(s, id, keys)
    ensures Core(t)
  {
    AllocateDistinct(s, t, p, id, keys, temp);
  }

  lemma AllocateDistinct(s: State, t: State, p: Ptr, id: int, keys: seq<Key>, temp: bool)
    requires LiveDistinct(s) && p !in s.objs && p in t.objs && t.objs == s.objs[p := t.objs[p]]
    requires t.objs[p].id == id && t.objs[p].keys == keys && t.objs[p].temp == temp && (temp || NoClash(s, id, keys))
    ensures LiveDistinct(t)
  {
  }

  // ----- what one thread's step does to the other thread's part

  ghost predicate SameIdentity(s: State, t: State) {
    forall p :: p in s.objs ==>
      p in t.objs && t.objs[p].keys == s.objs[p].keys && t.objs[p].temp == s.objs[p].temp
      && t.objs[p].endsItself == s.objs[p].endsItself
  }

  lemma ApiOkFrame(s: State, t: State)
    requires ApiOk(s) && t.api == s.api && SameIdentity(s, t)
    requires forall e :: e in t.cbs ==> e in s.cbs
    requires (s.api.Starting? && s.api.done < |s.api.script|) || s.api.Unwinding? || s.api.FailUnregister? ==>
               InTable(t, s.api.p) && Private(t, s.api.p)
    requires s.api.DrainCancel? ==> t.cmds == s.cmds
    ensures ApiOk(t)
  {
  }

  lemma EvOkFrame(s: State, t: State)
    requires EvOk(s) && t.ev == s.ev && SameIdentity(s, t)
    requires forall e :: e in t.cbs && e !in s.cbs ==>
               e.cbArg in s.objs && (InFlight(s, e.cbArg) == 0 || !s.objs[e.cbArg].endsItself)
    ensures EvOk(t)
  {
  }

  // ----- steps of the event thread

  /** A change of the event thread's position with no callback involved. */
  lemma EvMoveKeeps(s: State, t: State)
    requires Inv(s) && InQuiet(s.ev) && InQuiet(t.ev)
    requires t == s.(ev := t.ev, exitPending := t.exitPending, donePending := t.donePending)
    requires HandshakeOk(t)
    ensures Inv(t)
  {
    QuietShares(s, t);
    CoreUnchanged(s, t);
    ApiOkFrame(s, t);
  }

  predicate InQuiet(ev: EvPc) {
    ev.Poll? || ev.Recv? || ev.LoopCheck? || ev.Exited?
  }

  lemma DispatchKeeps(s: State, key: Key)
    requires Inv(s) && s.ev.Recv?
    ensures Inv(Dispatch(s, key))
  {
    var t := Dispatch(s, key);
    var found := FindKey(s.cbs, key);
    if found.Some? {
      DispatchCore(s, t, found.value);
      DispatchApi(s, t, found.value);
    }
  }

  lemma DispatchCore(s: State, t: State, e: CbInfo)
    requires Core(s) && s.ev.Recv? && !s.freed && e in s.cbs
    requires t == TouchHal(AddRef(s, e.cbArg)).(ev := Callback(e.cbArg))
    ensures Core(t) && t.fault == s.fault
  {
    CountOfCallback(s, t, e.cbArg);
    CoreRecount(s, t, e.cbArg);
  }

  lemma DispatchApi(s: State, t: State, e: CbInfo)
    requires Inv(s) && s.ev.Recv? && e in s.cbs
    requires t == TouchHal(AddRef(s, e.cbArg)).(ev := Callback(e.cbArg))
    ensures ApiOk(t) && EvOk(t) && HandshakeOk(t)
  {
    ApiOkFrame(s, t);
  }

  lemma RunCallbackKeeps(s: State, completes: bool)
    requires Inv(s) && s.ev.Callback?
    ensures Inv(RunCallback(s, s.ev.p, completes))
  {
    AliveHeld(s, s.ev.p);
    CallbackMove(s, RunCallback(s, s.ev.p, completes), s.ev.p);
  }

  /** The callback running on `p` gets on, changing no table. */
  lemma CallbackMove(s: State, t: State, p: Ptr)
    requires Inv(s) && s.ev == Callback(p) && t == s.(ev := t.ev)
    requires t.ev == FinishCallback(p) || (t.ev == EndUnregister(p) && s.objs[p].endsItself)
    ensures Inv(t)
  {
    CallbackShares(s, t, p);
    CoreUnchanged(s, t);
    ApiOkFrame(s, t);
  }

  lemma EndUnregisterKeeps(s: State)
    requires Inv(s) && s.ev.EndUnregister?
    ensures Inv(EndOwnHandler(s, s.ev.p))
  {
    var t := EndOwnHandler(s, s.ev.p);
    AliveHeld(s, s.ev.p);
    RemoveKeyMembers(s.cbs, RTT_COMPLETE);
    CallbackShares(s, t, s.ev.p);
    CoreUnregister(s, t, RTT_COMPLETE);
    ApiOkFrame(s, t);
  }

  /** Looking a live command up by its id finds that command, or nothing. */
  lemma LookUpById(s: State, p: Ptr)
    requires Core(s) && Drained(s) == 0
    requires p in s.objs && s.objs[p].live && !s.objs[p].temp
    ensures FindId(s.cmds, s.objs[p].id) == if InTable(s, p) then Some(p) else None
  {
    var id := s.objs[p].id;
    var i := IndexOfId(s.cmds, id);
    if i < |s.cmds| {
      assert s.cmds[i] in s.cmds;
      EntryCounts(s.cmds, i);
      assert s.objs[s.cmds[i].cmd].live && (s.cmds[i].cmd == p || ClashFree(s.objs[s.cmds[i].cmd], s.objs[p]));
    }
    if InTable(s, p) {
      var j := EntryExists(s.cmds, p);
      assert s.cmds[j] in s.cmds;
    }
  }

  lemma TakeOutShares(s: State, t: State, id: int)
    requires Drained(s) == 0 && Drained(t) == 0 && t.cmds == RemoveId(s.cmds, id)
    ensures forall q: Ptr ::
              Entries(Pending(t), q) == Entries(Pending(s), q) - if FindId(s.cmds, id) == Some(q) then 1 else 0
  {
    forall q: Ptr
      ensures Entries(Pending(t), q) == Entries(Pending(s), q) - if FindId(s.cmds, id) == Some(q) then 1 else 0
    {
      EntriesRemoveId(s.cmds, id, q);
    }
  }

  lemma EndCommandKeeps(s: State)
    requires Inv(s) && s.ev.EndCommand?
    ensures Inv(EndCommandByItself(s, s.ev.p))
  {
    var p := s.ev.p;
    AliveHeld(s, p);
    LookUpById(s, p);
    EndedKeeps(s, s.(cmds := RemoveId(s.cmds, s.objs[p].id),
                     ev := if InTable(s, p) then EndRelease(p, p) else FinishCallback(p)), p);
  }

  lemma EndedKeeps(s: State, t: State, p: Ptr)
    requires Inv(s) && s.ev == EndCommand(p)
    requires FindId(s.cmds, s.objs[p].id) == if InTable(s, p) then Some(p) else None
    requires t == s.(cmds := RemoveId(s.cmds, s.objs[p].id),
                     ev := if InTable(s, p) then EndRelease(p, p) else FinishCallback(p))
    ensures Inv(t)
  {
    EndCommandCore(s, t, p);
    ApiOkFrame(s, t);
  }

  lemma EndCommandCore(s: State, t: State, p: Ptr)
    requires Core(s) && s.ev == EndCommand(p) && p in s.objs && Drained(s) == 0
    requires FindId(s.cmds, s.objs[p].id) == if InTable(s, p) then Some(p) else None
    requires t == s.(cmds := RemoveId(s.cmds, s.objs[p].id),
                     ev := if InTable(s, p) then EndRelease(p, p) else FinishCallback(p))
    ensures Core(t) && SameShares(s, t)
  {
    TakeOutShares(s, t, s.objs[p].id);
    CoreTakeOut(s, t, s.objs[p].id);
  }

  lemma EndReleaseKeeps(s: State)
    requires Inv(s) && s.ev.EndRelease?
    ensures Inv(EndOwnShare(s, s.ev.p, s.ev.found))
  {
    var p, t := s.ev.p, EndOwnShare(s, s.ev.p, s.ev.found);
    AliveHeld(s, p);
    CoreOwnerRelease(s, t, p);
    ApiOkFrame(s, t);
  }

  lemma FinishKeeps(s: State)
    requires Inv(s) && s.ev.FinishCallback?
    ensures Inv(FinishOn(s, s.ev.p))
  {
    AliveHeld(s, s.ev.p);
    var t := s.(objs := s.objs[s.ev.p := Released(s.objs[s.ev.p], false)], ev := Recv);
    FinishCore(s, t, s.ev.p);
    ApiOkFrame(s, t);
  }

  lemma FinishCore(s: State, t: State, p: Ptr)
    requires Core(s) && s.ev == FinishCallback(p) && p in s.objs && s.objs[p].live
    requires t == s.(objs := s.objs[p := Released(s.objs[p], false)], ev := Recv)
    ensures Core(t) && SameIdentity(s, t)
  {
    CountOfCallback(s, t, p);
    CoreRecount(s, t, p);
  }

  // ----- steps of the API thread

  lemma ScriptsAreWellFormed(kind: Kind)
    ensures WellFormed(StartScript(kind), CancelKeys(kind), kind == Rtt)
  {
    match kind
    case Scan => ScanIsWellFormed();
    case Hotlist => HotlistIsWellFormed();
    case _ =>
  }

  lemma ScanIsWellFormed()
    ensures WellFormed(StartScript(Scan), CancelKeys(Scan), false)
  {
  }

  lemma HotlistIsWellFormed()
    ensures WellFormed(StartScript(Hotlist), CancelKeys(Hotlist), false)
  {
  }

  lemma AppendedTable(s: State, t: State, e: CmdInfo)
    requires Drained(s) == 0 && Drained(t) == 0 && t.cmds == s.cmds + [e]
    ensures forall q: Ptr :: Entries(Pending(t), q) == Entries(Pending(s), q) + if e.cmd == q then 1 else 0
  {
    forall q: Ptr ensures Entries(Pending(t), q) == Entries(Pending(s), q) + if e.cmd == q then 1 else 0 {
      EntriesAppend(s.cmds, e, q);
    }
  }

  lemma TableIsAllocated(s: State)
    requires CommandsOk(s)
    ensures forall q: Ptr :: InTable(s, q) ==> q in s.objs
  {
    forall q: Ptr | InTable(s, q) ensures q in s.objs {
      var i := EntryExists(Pending(s), q);
      assert Pending(s)[i] in s.cmds;
    }
  }

  /** Nothing refers to an address that was never allocated. */
  lemma Unreferenced(s: State, p: Ptr)
    requires CommandsOk(s) && CallbacksOk(s) && EvOk(s) && p !in s.objs
    ensures Entries(Pending(s), p) == 0 && InFlight(s, p) == 0 && !EvHolds(s, p) && OnlyKeys(s, p, [])
  {
    TableIsAllocated(s);
  }

  /** What allocating leaves to show once the new object is accounted for. */
  lemma AllocatedKeeps(s: State, t: State, p: Ptr, o: Obj)
    requires Inv(s) && s.api.Idle? && p !in s.objs && o == NewObj(o.id, o.keys, o.endsItself, o.temp)
    requires (o.temp || NoClash(s, o.id, o.keys)) && (o.endsItself ==> o.keys == [RTT_COMPLETE])
    requires t == s.(objs := s.objs[p := o], cmds := t.cmds, api := t.api)
    requires CommandsOk(t) && !CleaningUp(t) && !t.api.WaitDone? && ApiOk(t)
    requires OwnerShares(t, p) == 1 && forall q :: q in s.objs ==> OwnerShares(t, q) == OwnerShares(s, q)
    ensures Inv(t)
  {
    Unreferenced(s, p);
    CoreAllocate(s, t, p, o.id, o.keys, o.endsItself, o.temp);
    EvOkFrame(s, t);
  }

  lemma StartKeeps(s: State, p: Ptr, id: int, script: seq<StartOp>, keys: seq<Key>, endsItself: bool)
    requires Inv(s) && s.api.Idle? && p !in s.objs && NoClash(s, id, keys) && WellFormed(script, keys, endsItself)
    ensures Inv(Start(s, p, id, script, keys, endsItself))
  {
    var o := NewObj(id, keys, endsItself, false);
    var t := s.(objs := s.objs[p := o]);
    if |s.cmds| < DEFAULT_CMD_SIZE {
      AcceptedKeeps(s, t.(cmds := s.cmds + [CmdInfo(id, p)], api := Starting(p, script, 0)), p, o, script);
    } else {
      RefusedKeeps(s, t.(api := Releasing(p)), p, o);
    }
  }

  lemma AcceptedKeeps(s: State, t: State, p: Ptr, o: Obj, script: seq<StartOp>)
    requires Inv(s) && s.api.Idle? && p !in s.objs && o == NewObj(o.id, o.keys, o.endsItself, false)
    requires NoClash(s, o.id, o.keys) && WellFormed(script, o.keys, o.endsItself)
    requires t == s.(objs := s.objs[p := o], cmds := s.cmds + [CmdInfo(o.id, p)], api := Starting(p, script, 0))
    ensures Inv(t)
  {
    Unreferenced(s, p);
    StartedApi(s, t, p, o.id, script);
    AllocatedKeeps(s, t, p, o);
  }

  lemma RefusedKeeps(s: State, t: State, p: Ptr, o: Obj)
    requires Inv(s) && s.api.Idle? && p !in s.objs && o == NewObj(o.id, o.keys, o.endsItself, false)
    requires NoClash(s, o.id, o.keys) && (o.endsItself ==> o.keys == [RTT_COMPLETE])
    requires t == s.(objs := s.objs[p := o], api := Releasing(p))
    ensures Inv(t)
  {
    Unreferenced(s, p);
    RefusedApi(s, t, p);
    AllocatedKeeps(s, t, p, o);
  }

  lemma RefusedApi(s: State, t: State, p: Ptr)
    requires Core(s) && s.api.Idle? && p !in s.objs && p in t.objs
    requires t == s.(objs := s.objs[p := t.objs[p]], api := Releasing(p))
    requires OwnerShares(s, p) == 0 && OnlyKeys(s, p, [])
    ensures CommandsOk(t) && ApiOk(t)
    ensures OwnerShares(t, p) == 1 && forall q :: q in s.objs ==> OwnerShares(t, q) == OwnerShares(s, q)
  {
  }

  lemma StartedApi(s: State, t: State, p: Ptr, id: int, script: seq<StartOp>)
    requires Core(s) && s.api.Idle? && t.api == Starting(p, script, 0) && t.ev == s.ev && t.cbs == s.cbs
    requires p !in s.objs && p in t.objs && t.objs == s.objs[p := t.objs[p]] && t.cmds == s.cmds + [CmdInfo(id, p)]
    requires t.objs[p].id == id && !t.objs[p].temp && WellFormed(script, t.objs[p].keys, t.objs[p].endsItself)
    requires OwnerShares(s, p) == 0 && InFlight(s, p) == 0 && OnlyKeys(s, p, [])
    requires forall e :: e in s.cbs ==> KeyOf(e) !in t.objs[p].keys
    ensures CommandsOk(t) && ApiOk(t)
    ensures OwnerShares(t, p) == 1 && forall q :: q in s.objs ==> OwnerShares(t, q) == OwnerShares(s, q)
  {
    AppendedTable(s, t, CmdInfo(id, p));
    StartedCommands(s, t, p, id);
  }

  lemma StartedCommands(s: State, t: State, p: Ptr, id: int)
    requires CommandsOk(s) && p !in s.objs && Drained(t) == 0 && p in t.objs && t.objs == s.objs[p := t.objs[p]]
    requires t.cmds == s.cmds + [CmdInfo(id, p)] && t.objs[p].id == id && !t.objs[p].temp
    ensures CommandsOk(t)
  {
    assert forall e :: e in t.cmds ==> e in s.cmds || e == CmdInfo(id, p);
  }

  lemma StopKeeps(s: State, p: Ptr, id: int, keys: seq<Key>, endsItself: bool)
    requires Inv(s) && s.api.Idle? && p !in s.objs && (endsItself ==> keys == [RTT_COMPLETE])
    ensures Inv(Stop(s, p, id, keys, endsItself))
  {
    Unreferenced(s, p);
    AllocatedKeeps(s, Stop(s, p, id, keys, endsItself), p, NewObj(id, keys, endsItself, true));
  }

  lemma RegisterKeeps(s: State, p: Ptr, script: seq<StartOp>, done: nat, ok: bool)
    requires Inv(s) && s.api == Starting(p, script, done) && done < |script| && script[done].Reg?
    ensures Inv(RunStartOp(s, p, script, done, ok))
  {
    AliveInTable(s, p);
    var t := RunStartOp(s, p, script, done, ok);
    RegisteredMore(s, t, p, script, done);
    ApiShares(s, t);
    CoreRegister(s, t, p, script[done].key);
    RegisterApi(s, t, p, script, done);
    EvOkFrame(s, t);
  }

  lemma RegisterApi(s: State, t: State, p: Ptr, script: seq<StartOp>, done: nat)
    requires ApiOk(s) && s.api == Starting(p, script, done) && done < |script| && script[done].Reg?
    requires t == s.(cbs := t.cbs, api := Starting(p, script, done + 1))
    requires OnlyRegistered(t, p, script, done + 1) && forall e :: e in t.cbs ==> e in s.cbs || e.cbArg == p
    requires s.objs[p].endsItself ==> done + 1 == |script|
    ensures ApiOk(t)
  {
  }

  lemma RegisteredMore(s: State, t: State, p: Ptr, script: seq<StartOp>, done: nat)
    requires OnlyRegistered(s, p, script, done) && done < |script| && script[done].Reg?
    requires p in s.objs && WellFormed(script, s.objs[p].keys, s.objs[p].endsItself)
    requires t.cbs == AppendIfRoom(DEFAULT_EVENT_CB_SIZE, s.cbs, EntryOf(script[done].key, p))
    ensures OnlyRegistered(t, p, script, done + 1)
    ensures forall e :: e in t.cbs ==> e in s.cbs || e.cbArg == p
    ensures forall e :: e in s.cbs && e.cbArg == p ==> KeyOf(e) != script[done].key
    ensures s.objs[p].endsItself ==> done + 1 == |script|
  {
    var k := script[done].key;
    assert Registered(script, done + 1, k);
    assert KeyOf(EntryOf(k, p)) == k;
    forall e | e in s.cbs && e.cbArg == p ensures Registered(script, done + 1, KeyOf(e)) && KeyOf(e) != k {
      var i :| 0 <= i < done && script[i] == Reg(KeyOf(e));
      assert script[i].Reg? && script[done].Reg?;
    }
  }

  lemma RequestKeeps(s: State, p: Ptr, script: seq<StartOp>, done: nat, ok: bool)
    requires Inv(s) && s.api == Starting(p, script, done) && done < |script| && script[done].Request?
    ensures Inv(RunStartOp(s, p, script, done, ok))
  {
    AliveInTable(s, p);
    UndoCovers(s, p, script, done);
    ApiMove(s, RunStartOp(s, p, script, done, ok));
  }

  lemma UndoCovers(s: State, p: Ptr, script: seq<StartOp>, done: nat)
    requires OnlyRegistered(s, p, script, done) && done < |script| && script[done].Request?
    requires p in s.objs && WellFormed(script, s.objs[p].keys, s.objs[p].endsItself)
    ensures OnlyKeys(s, p, script[done].undo) && OnlyRegistered(s, p, script, done + 1)
  {
    forall e | e in s.cbs && e.cbArg == p
      ensures KeyOf(e) in script[done].undo && Registered(script, done + 1, KeyOf(e))
    {
      var i :| 0 <= i < done && script[i] == Reg(KeyOf(e));
      assert script[i].Reg? && script[i].key == KeyOf(e);
    }
  }

  lemma StartedKeeps(s: State)
    requires Inv(s) && s.api.Starting?
    ensures Inv(s.(api := Idle))
  {
    var t := s.(api := Idle);
    CoreUnchanged(s, t);
    EvOkFrame(s, t);
  }

  lemma OnlyKeysTail(s: State, t: State, p: Ptr, keys: seq<Key>)
    requires keys != [] && DistinctKeys(s.cbs) && t.cbs == RemoveKey(s.cbs, keys[0]) && OnlyKeys(s, p, keys)
    ensures OnlyKeys(t, p, keys[1..])
    ensures forall e :: e in t.cbs ==> e in s.cbs
  {
    RemoveKeyMembers(s.cbs, keys[0]);
  }

  /** The API thread, somewhere inside a loop over keys, takes one key out. */
  lemma KeyStep(s: State, t: State, k: Key)
    requires Inv(s) && !CleaningUp(s) && t == s.(cbs := RemoveKey(s.cbs, k), api := t.api)
    requires (s.api.Unwinding? && t.api.Unwinding?) || (s.api.Cancelling? && t.api.Cancelling?)
    requires t.api.p == s.api.p && ApiOk(t)
    ensures Inv(t)
  {
    RemoveKeyMembers(s.cbs, k);
    ApiShares(s, t);
    CoreUnregister(s, t, k);
    EvOkFrame(s, t);
  }

  /** The API thread moves on without changing tables or handing a share over. */
  lemma ApiMove(s: State, t: State)
    requires Inv(s) && !CleaningUp(s) && !CleaningUp(t) && !t.api.WaitDone? && t == s.(api := t.api)
    requires forall q :: q in s.objs ==> ApiHolds(t, q) == ApiHolds(s, q)
    requires ApiOk(t)
    ensures Inv(t)
  {
    ApiShares(s, t);
    CoreUnchanged(s, t);
    EvOkFrame(s, t);
  }

  lemma UnwindKeeps(s: State, p: Ptr, keys: seq<Key>)
    requires Inv(s) && s.api == Unwinding(p, keys)
    ensures Inv(Unwind(s, p, keys))
  {
    var t := Unwind(s, p, keys);
    if keys == [] {
      ApiMove(s, t);
    } else {
      AliveInTable(s, p);
      UnwindKey(s, t, p, keys);
      KeyStep(s, t, keys[0]);
    }
  }

  lemma UnwindKey(s: State, t: State, p: Ptr, keys: seq<Key>)
    requires s.api == Unwinding(p, keys) && ApiOk(s) && keys != [] && DistinctKeys(s.cbs)
    requires t == s.(cbs := RemoveKey(s.cbs, keys[0]), api := Unwinding(p, keys[1..]))
    ensures ApiOk(t)
  {
    OnlyKeysTail(s, t, p, keys);
  }

  lemma FailUnregisterKeeps(s: State)
    requires Inv(s) && s.api.FailUnregister?
    ensures Inv(TakeOutFailed(s, s.api.p))
  {
    var id := s.objs[s.api.p].id;
    var t := TakeOutFailed(s, s.api.p);
    LookUpById(s, s.api.p);
    TakenShares(s, t, id);
    CoreTakeOut(s, t, id);
    EvOkFrame(s, t);
  }

  lemma CancelKeeps(s: State, id: int)
    requires Inv(s) && s.api.Idle?
    ensures Inv(Cancel(s, id))
  {
    var found := FindId(s.cmds, id);
    if found.Some? {
      FoundInTable(s, id);
      CancelFound(s, id, found.value);
    } else {
      assert Cancel(s, id) == s;
    }
  }

  lemma FoundInTable(s: State, id: int)
    requires CommandsOk(s) && FindId(s.cmds, id).Some?
    ensures FindId(s.cmds, id).value in s.objs
  {
    assert s.cmds[IndexOfId(s.cmds, id)] in s.cmds;
  }

  lemma CancelFound(s: State, id: int, p: Ptr)
    requires Inv(s) && s.api.Idle? && FindId(s.cmds, id) == Some(p) && p in s.objs
    ensures Inv(Cancel(s, id))
    ensures Cancel(s, id) == s.(cmds := RemoveId(s.cmds, id), api := Cancelling(p, s.objs[p].keys))
  {
    EntryCounts(s.cmds, IndexOfId(s.cmds, id));
    AliveInTable(s, p);
    CancelTaken(s, s.(cmds := RemoveId(s.cmds, id), api := Cancelling(p, s.objs[p].keys)), id, p);
  }

  lemma CancelTaken(s: State, t: State, id: int, p: Ptr)
    requires Inv(s) && s.api.Idle? && FindId(s.cmds, id) == Some(p) && p in s.objs
    requires t == s.(cmds := RemoveId(s.cmds, id), api := Cancelling(p, s.objs[p].keys))
    ensures Inv(t)
  {
    TakenShares(s, t, id);
    CoreTakeOut(s, t, id);
    CancelApi(s, t, p);
    EvOkFrame(s, t);
  }

  lemma CancelApi(s: State, t: State, p: Ptr)
    requires CallbacksOk(s) && p in s.objs && t.objs == s.objs && t.cbs == s.cbs
    requires t.api == Cancelling(p, s.objs[p].keys)
    ensures ApiOk(t)
  {
  }

  lemma CancelOpKeeps(s: State, p: Ptr, keys: seq<Key>)
    requires Inv(s) && s.api == Cancelling(p, keys)
    ensures Inv(RunCancelOp(s, p, keys))
  {
    AliveHeld(s, p);
    var t := RunCancelOp(s, p, keys);
    if keys == [] {
      ApiMove(s, t);
    } else {
      CancelKey(s, t, p, keys);
      KeyStep(s, t, keys[0]);
    }
  }

  lemma CancelKey(s: State, t: State, p: Ptr, keys: seq<Key>)
    requires s.api == Cancelling(p, keys) && ApiOk(s) && keys != [] && DistinctKeys(s.cbs)
    requires t == s.(cbs := RemoveKey(s.cbs, keys[0]), api := Cancelling(p, keys[1..]))
    ensures ApiOk(t)
  {
    OnlyKeysTail(s, t, p, keys);
  }

  lemma ReleaseKeeps(s: State, p: Ptr)
    requires Inv(s) && s.api == Releasing(p)
    ensures Inv(GiveUp(s, p))
  {
    AliveHeld(s, p);
    ReleasedKeeps(s, s.(objs := s.objs[p := Released(s.objs[p], true)], api := Idle), p);
  }

  lemma ReleasedKeeps(s: State, t: State, p: Ptr)
    requires Inv(s) && s.api == Releasing(p) && Alive(s.objs, p)
    requires t == s.(objs := s.objs[p := Released(s.objs[p], true)], api := Idle)
    ensures Inv(t)
  {
    ReleasedShares(s, t, p);
    CoreOwnerRelease(s, t, p);
    EvOkFrame(s, t);
  }

  lemma ReleasedShares(s: State, t: State, p: Ptr)
    requires CountsOk(s) && s.api == Releasing(p) && p in s.objs
    requires t.api == Idle && t.cmds == s.cmds && t.ev == s.ev
    ensures OwnerShares(s, p) == 1 && OwnerShares(t, p) == 0
    ensures forall q :: q in s.objs ==> InFlight(t, q) == InFlight(s, q)
    ensures forall q :: q in s.objs && q != p ==> OwnerShares(t, q) == OwnerShares(s, q)
  {
  }

  lemma CleanupKeeps(s: State)
    requires Inv(s) && s.api.Idle?
    ensures Inv(Cleanup(s))
  {
    var t := Cleanup(s);
    ApiShares(s, t);
    CoreUnchanged(s, t);
    EvOkFrame(s, t);
  }

  lemma ReadDoneKeeps(s: State)
    requires Inv(s) && s.api.WaitDone? && s.donePending
    ensures Inv(ReadDone(s))
  {
    var t := ReadDone(s);
    ApiShares(s, t);
    CoreUnchanged(s, t);
  }

  lemma DrainNextKeeps(s: State)
    requires Inv(s) && s.api.Draining? && s.api.bad < |s.cmds| && s.cmds[s.api.bad].cmd in s.objs
    ensures Inv(DrainNext(s, s.api.bad))
  {
    var bad, p := s.api.bad, s.cmds[s.api.bad].cmd;
    EntryCounts(Pending(s), 0);
    AliveHeld(s, p);
    var t := DrainNext(s, bad);
    assert t == s.(api := DrainCancel(bad, p, s.objs[p].keys, |s.cmds|));
    ApiShares(s, t);
    CoreUnchanged(s, t);
  }

  lemma DrainOpKeeps(s: State, bad: nat, p: Ptr, keys: seq<Key>, num: nat)
    requires Inv(s) && s.api == DrainCancel(bad, p, keys, num)
    ensures Inv(DrainOp(s, bad, p, keys, num))
  {
    EntryCounts(Pending(s), 0);
    AliveInTable(s, p);
    var t := DrainOp(s, bad, p, keys, num);
    if keys == [] {
      assert t == s.(api := DrainRelease(bad + 1, p));
      PassOver(s, t, bad, p);
      CoreUnchanged(s, t);
    } else {
      assert t == s.(cbs := RemoveKey(s.cbs, keys[0]), api := DrainCancel(bad, p, keys[1..], num));
      DrainKeyKeeps(s, t, bad, p, keys, num);
    }
  }

  lemma DrainKeyKeeps(s: State, t: State, bad: nat, p: Ptr, keys: seq<Key>, num: nat)
    requires Inv(s) && s.api == DrainCancel(bad, p, keys, num) && keys != []
    requires t == s.(cbs := RemoveKey(s.cbs, keys[0]), api := DrainCancel(bad, p, keys[1..], num))
    ensures Inv(t)
  {
    OnlyKeysTail(s, t, p, keys);
    ApiShares(s, t);
    CoreUnregister(s, t, keys[0]);
  }

  /** Stepping over a drained entry hands its share from the table to the API thread. */
  lemma PassOver(s: State, t: State, bad: nat, p: Ptr)
    requires CommandsOk(s) && s.api.DrainCancel? && s.api.bad == bad < |s.cmds| && s.cmds[bad].cmd == p
    requires t == s.(api := DrainRelease(bad + 1, p)) && s.ev.Exited?
    ensures SameShares(s, t)
  {
    assert Pending(s)[1..] == Pending(t) && Pending(s)[0].cmd == p;
  }

  lemma DrainReleaseKeeps(s: State)
    requires Inv(s) && s.api.DrainRelease?
    ensures Inv(DrainGiveUp(s, s.api.p, s.api.bad))
  {
    var t := DrainGiveUp(s, s.api.p, s.api.bad);
    AliveHeld(s, s.api.p);
    CoreOwnerRelease(s, t, s.api.p);
  }

  lemma FreeKeeps(s: State)
    requires Inv(s) && s.api.Draining? && s.api.bad >= |s.cmds|
    ensures Inv(Free(s))
  {
    var t := Free(s);
    assert Pending(t) == Pending(s);
    CoreUnchanged(s, t);
  }

  // ----- every step, every run

  lemma EventStepKeeps(s: State, step: Step)
    requires Inv(s) && IsEventStep(step) && EventEnabled(s, step)
    ensures Inv(ApplyEvent(s, step))
  {
    if IsLoopStep(step) {
      EvMoveKeeps(s, ApplyEvent(s, step));
    } else {
      CallbackStepKeeps(s, step);
    }
  }

  lemma CallbackStepKeeps(s: State, step: Step)
    requires Inv(s) && IsEventStep(step) && !IsLoopStep(step) && EventEnabled(s, step)
    ensures Inv(ApplyEvent(s, step))
  {
    match step
    case EvDispatch(key) => DispatchKeeps(s, key);
    case EvRun(completes) => RunCallbackKeeps(s, completes);
    case EvEndUnregister => EndUnregisterKeeps(s);
    case EvEndCommand => EndCommandKeeps(s);
    case EvEndRelease => EndReleaseKeeps(s);
    case EvFinish => FinishKeeps(s);
  }

  predicate IsLoopStep(step: Step) {
    step.EvPollIn? || step.EvPollOther? || step.EvHangUp? || step.EvReadExit? || step.EvLoopCheck? || step.EvRecvDone?
  }

  predicate IsStartStep(step: Step) {
    step.ApiStart? || step.ApiStartOp? || step.ApiStarted? || step.ApiUnwind? || step.ApiFailUnregister?
  }

  predicate IsCleanupStep(step: Step) {
    step.ApiCleanup? || step.ApiReadDone? || step.ApiDrainNext? || step.ApiDrainOp? || step.ApiDrainRelease?
    || step.ApiFree?
  }

  lemma ApiStepKeeps(s: State, step: Step)
    requires Inv(s) && !IsEventStep(step) && ApiEnabled(s, step)
    ensures Inv(ApplyApi(s, step))
  {
    if IsStartStep(step) {
      StartStepKeeps(s, step);
    } else if IsCleanupStep(step) {
      CleanupStepKeeps(s, step);
    } else {
      CancelStepKeeps(s, step);
    }
  }

  lemma StartStepKeeps(s: State, step: Step)
    requires Inv(s) && IsStartStep(step) && ApiEnabled(s, step)
    ensures Inv(ApplyApi(s, step))
  {
    match step
    case ApiStart(p, id, kind) =>
      ScriptsAreWellFormed(kind);
      StartKeeps(s, p, id, StartScript(kind), CancelKeys(kind), kind == Rtt);
    case ApiStartOp(ok) => StartOpKeeps(s, s.api.p, s.api.script, s.api.done, ok);
    case ApiStarted => StartedKeeps(s);
    case ApiUnwind => UnwindKeeps(s, s.api.p, s.api.keys);
    case ApiFailUnregister => FailUnregisterKeeps(s);
  }

  lemma StartOpKeeps(s: State, p: Ptr, script: seq<StartOp>, done: nat, ok: bool)
    requires Inv(s) && s.api == Starting(p, script, done) && done < |script|
    ensures Inv(RunStartOp(s, p, script, done, ok))
  {
    if script[done].Reg? {
      RegisterKeeps(s, p, script, done, ok);
    } else {
      RequestKeeps(s, p, script, done, ok);
    }
  }

  lemma CancelStepKeeps(s: State, step: Step)
    requires Inv(s) && (step.ApiCancel? || step.ApiStop? || step.ApiCancelOp? || step.ApiRelease?)
    requires ApiEnabled(s, step)
    ensures Inv(ApplyApi(s, step))
  {
    match step
    case ApiCancel(id) => CancelKeeps(s, id);
    case ApiStop(p, id, kind) => StopKeeps(s, p, id, CancelKeys(kind), kind == Rtt);
    case ApiCancelOp => CancelOpKeeps(s, s.api.p, s.api.keys);
    case ApiRelease => ReleaseKeeps(s, s.api.p);
  }

  lemma CleanupStepKeeps(s: State, step: Step)
    requires Inv(s) && IsCleanupStep(step) && ApiEnabled(s, step)
    ensures Inv(ApplyApi(s, step))
  {
    match step
    case ApiCleanup => CleanupKeeps(s);
    case ApiReadDone => ReadDoneKeeps(s);
    case ApiDrainNext => DrainNextKeeps(s);
    case ApiDrainOp => DrainOpKeeps(s, s.api.bad, s.api.p, s.api.keys, s.api.num);
    case ApiDrainRelease => DrainReleaseKeeps(s);
    case ApiFree => FreeKeeps(s);
  }

  lemma {:induction false} RunKeeps(s: State, steps: seq<Step>)
    requires Inv(s) && IsRun(s, steps)
    ensures Inv(After(s, steps))
    decreases |steps|
  {
    if steps != [] {
      if IsEventStep(steps[0]) {
        EventStepKeeps(s, steps[0]);
      } else {
        ApiStepKeeps(s, steps[0]);
      }
      RunKeeps(Apply(s, steps[0]), steps[1..]);
    }
  }

  /**
  In every interleaving: no deleted command and no freed hal_info is ever touched; a command's
  count is its owner share plus the callbacks in flight on it, and it is deleted exactly when
  that reaches zero; the owner share is given up at most once; and whatever the callback table
  points to is alive and still owned.
   */
  lemma EveryRunIsSafe(steps: seq<Step>)
    requires IsRun(Init, steps)
    ensures var s := After(Init, steps);
            && !s.fault
            && (forall p :: p in s.objs ==>
                  && s.objs[p].refs == OwnerShares(s, p) + InFlight(s, p)
                  && s.objs[p].live == (s.objs[p].refs > 0)
                  && s.objs[p].ownerReleases + OwnerShares(s, p) == 1)
            && (forall e :: e in s.cbs ==>
                  e.cbArg in s.objs && s.objs[e.cbArg].live && OwnerShares(s, e.cbArg) == 1)
  {
    InitOk();
    RunKeeps(Init, steps);
  }

  lemma InitOk()
    ensures Inv(Init)
  {
  }

  /** A completed cleanup has deleted every command ever created, each owner share given up once. */
  lemma CleanupLeavesNothing(steps: seq<Step>)
    requires IsRun(Init, steps) && After(Init, steps).api.Finished?
    ensures var s := After(Init, steps);
            && s.cbs == []
            && forall p :: p in s.objs ==> !s.objs[p].live && s.objs[p].refs == 0 && s.objs[p].ownerReleases == 1
  {
    InitOk();
    RunKeeps(Init, steps);
    CallbacksOwned(After(Init, steps));
  }

  lemma CallbacksOwned(s: State)
    requires CallbacksOk(s)
    ensures s.cbs != [] ==> exists p :: p in s.objs && OwnerShares(s, p) == 1
  {
    if s.cbs != [] {
      assert s.cbs[0] in s.cbs;
    }
  }

  /** From the first drained command on, the event loop has returned and never acts again. */
  lemma LoopIsGoneBeforeDraining(steps: seq<Step>)
    requires IsRun(Init, steps) && CleaningUp(After(Init, steps))
    ensures var s := After(Init, steps);
            s.ev.Exited? && forall step :: IsEventStep(step) ==> !Enabled(s, step)
  {
    InitOk();
    RunKeeps(Init, steps);
  }

  /** Neither thread is ever stuck, except where the program itself stops or waits for Done. */
  lemma NeverStuck(steps: seq<Step>)
    requires IsRun(Init, steps)
    ensures var s := After(Init, steps);
            && (s.ev.Exited? || exists step :: IsEventStep(step) && Enabled(s, step))
            && (s.api.Finished? || (s.api.WaitDone? && !s.donePending)
                || exists step :: !IsEventStep(step) && Enabled(s, step))
  {
    InitOk();
    RunKeeps(Init, steps);
    var s := After(Init, steps);
    if !s.ev.Exited? {
      EventCanStep(s);
    }
    if !s.api.Finished? && !(s.api.WaitDone? && !s.donePending) {
      ApiCanStep(s);
    }
  }

  lemma EventCanStep(s: State)
    requires Inv(s) && !s.ev.Exited?
    ensures exists step :: IsEventStep(step) && Enabled(s, step)
  {
    var step := match s.ev
      case Poll => EvPollIn
      case Recv => EvRecvDone
      case Callback(_) => EvRun(false)
      case EndUnregister(_) => EvEndUnregister
      case EndCommand(_) => EvEndCommand
      case EndRelease(_, _) => EvEndRelease
      case FinishCallback(_) => EvFinish
      case LoopCheck => EvLoopCheck;
    assert IsEventStep(step) && Enabled(s, step);
  }

  lemma ApiCanStep(s: State)
    requires Inv(s) && !s.api.Finished? && !(s.api.WaitDone? && !s.donePending)
    ensures exists step :: !IsEventStep(step) && Enabled(s, step)
  {
    if s.api.FailUnregister? {
      AliveInTable(s, s.api.p);
    }
    if s.api.Draining? && s.api.bad < |s.cmds| {
      assert s.cmds[s.api.bad] in s.cmds;
    }
    ApiStepEnabled(s);
    assert !IsEventStep(ApiStepOf(s)) && Enabled(s, ApiStepOf(s));
  }

  /** A step for wherever the API thread is, requests succeeding. */
  function ApiStepOf(s: State): (step: Step)
    ensures !IsEventStep(step)
  {
    match s.api
    case Idle => ApiCleanup
    case Starting(_, script, done) => if done < |script| then ApiStartOp(true) else ApiStarted
    case Unwinding(_, _) => ApiUnwind
    case FailUnregister(_) => ApiFailUnregister
    case Cancelling(_, _) => ApiCancelOp
    case Releasing(_) => ApiRelease
    case WaitDone => ApiReadDone
    case Draining(bad) => if bad < |s.cmds| then ApiDrainNext else ApiFree
    case DrainCancel(_, _, _, _) => ApiDrainOp
    case DrainRelease(_, _) => ApiDrainRelease
    case Finished => ApiFree
  }

  lemma ApiStepEnabled(s: State)
    requires !s.api.Finished? && !(s.api.WaitDone? && !s.donePending)
    requires s.api.FailUnregister? ==> s.api.p in s.objs
    requires s.api.Draining? && s.api.bad < |s.cmds| ==> s.cmds[s.api.bad].cmd in s.objs
    ensures ApiEnabled(s, ApiStepOf(s))
  {
  }
}

/**
The two fixed-capacity tables of `hal_info` (wifi_hal/common.cpp): event callbacks and
outstanding commands.  Each is an array with a count, extended at the end and compacted
with memmove.  The methods of `HalInfo` are proved against operations on sequences, and
the sequence operations are what the rest of the project reasons about.
 */
module HandlerTables {
  import opened Options
  import Bytes

  const NL80211_CMD_VENDOR := 103
  const GOOGLE_OUI := 0x001A11
  const DEFAULT_EVENT_CB_SIZE := 64
  const DEFAULT_CMD_SIZE := 64

  /** A WifiCommand address; 0 is NULL. */
  type Ptr = nat

  datatype CbInfo = CbInfo(nlCmd: int, vendorId: int, vendorSubcmd: int, cbFunc: Ptr, cbArg: Ptr)

  datatype CmdInfo = CmdInfo(id: int, cmd: Ptr)

  /** What an event is matched on: the vendor fields count only for vendor events. */
  datatype Key = Plain(nlCmd: int) | Vendor(vendorId: int, vendorSubcmd: int)

  function KeyFor(nlCmd: int, vendorId: int, vendorSubcmd: int): Key {
    if nlCmd == NL80211_CMD_VENDOR then Vendor(vendorId, vendorSubcmd) else Plain(nlCmd)
  }

  function KeyOf(e: CbInfo): Key {
    KeyFor(e.nlCmd, e.vendorId, e.vendorSubcmd)
  }

  // ----- operations on sequences

  /** The first position holding `k`, or the length. */
  function IndexOfKey(s: seq<CbInfo>, k: Key): (i: nat)
    ensures i <= |s|
    ensures i < |s| ==> KeyOf(s[i]) == k
    ensures forall j :: 0 <= j < i ==> KeyOf(s[j]) != k
  {
    if s == [] || KeyOf(s[0]) == k then 0 else 1 + IndexOfKey(s[1..], k)
  }

  function IndexOfId(s: seq<CmdInfo>, id: int): (i: nat)
    ensures i <= |s|
    ensures i < |s| ==> s[i].id == id
    ensures forall j :: 0 <= j < i ==> s[j].id != id
  {
    if s == [] || s[0].id == id then 0 else 1 + IndexOfId(s[1..], id)
  }

  function IndexOfCmd(s: seq<CmdInfo>, p: Ptr): (i: nat)
    ensures i <= |s|
    ensures i < |s| ==> s[i].cmd == p
    ensures forall j :: 0 <= j < i ==> s[j].cmd != p
  {
    if s == [] || s[0].cmd == p then 0 else 1 + IndexOfCmd(s[1..], p)
  }

  /** `s` without position `i`; all of `s` when `i` is its length. */
  function DropAt<T>(s: seq<T>, i: nat): seq<T>
    requires i <= |s|
  {
    if i == |s| then s else s[..i] + s[i + 1..]
  }

  function AppendIfRoom<T>(capacity: nat, s: seq<T>, e: T): seq<T> {
    if |s| < capacity then s + [e] else s
  }

  function RemoveKey(s: seq<CbInfo>, k: Key): seq<CbInfo> {
    DropAt(s, IndexOfKey(s, k))
  }

  function RemoveId(s: seq<CmdInfo>, id: int): seq<CmdInfo> {
    DropAt(s, IndexOfId(s, id))
  }

  function RemoveCmd(s: seq<CmdInfo>, p: Ptr): seq<CmdInfo> {
    DropAt(s, IndexOfCmd(s, p))
  }

  /** The callback an event with key `k` is delivered to. */
  function FindKey(s: seq<CbInfo>, k: Key): Option<CbInfo> {
    var i := IndexOfKey(s, k);
    if i < |s| then Some(s[i]) else None
  }

  function FindId(s: seq<CmdInfo>, id: int): Option<Ptr> {
    var i := IndexOfId(s, id);
    if i < |s| then Some(s[i].cmd) else None
  }

  // ----- the arrays

  /** memmove of a[i + 1 .. n] down by one place. */
  method MoveDown<T>(a: array<T>, i: nat, n: nat)
    requires i < n <= a.Length
    modifies a
    ensures a[..n - 1] == DropAt(old(a[..n]), i)
    ensures forall j :: n <= j < a.Length ==> a[j] == old(a[j])
  {
    for j := i to n - 1
      invariant forall m :: 0 <= m < i ==> a[m] == old(a[m])
      invariant forall m :: i <= m < j ==> a[m] == old(a[m + 1])
      invariant forall m :: j <= m < a.Length ==> a[m] == old(a[m])
    {
      a[j] := a[j + 1];
    }
  }

  class HalInfo {
    const eventCb: array<CbInfo>
    var numEventCb: nat
    const cmd: array<CmdInfo>
    var numCmd: nat

    ghost predicate Valid()
      reads this
    {
      numEventCb <= eventCb.Length && numCmd <= cmd.Length && eventCb as object != cmd
    }

    ghost function Callbacks(): seq<CbInfo>
      requires Valid()
      reads this, eventCb
    {
      eventCb[..numEventCb]
    }

    ghost function Commands(): seq<CmdInfo>
      requires Valid()
      reads this, cmd
    {
      cmd[..numCmd]
    }

    constructor ()
      ensures Valid() && fresh(eventCb) && fresh(cmd)
      ensures eventCb.Length == DEFAULT_EVENT_CB_SIZE && cmd.Length == DEFAULT_CMD_SIZE
      ensures Callbacks() == [] && Commands() == []
    {
      eventCb := new CbInfo[DEFAULT_EVENT_CB_SIZE](_ => CbInfo(0, 0, 0, 0, 0));
      cmd := new CmdInfo[DEFAULT_CMD_SIZE](_ => CmdInfo(0, 0));
      numEventCb, numCmd := 0, 0;
    }

    method RegisterHandler(nlCmd: int, func: Ptr, arg: Ptr) returns (ok: bool)
      requires Valid()
      modifies this`numEventCb, eventCb
      ensures Valid() && ok == (|old(Callbacks())| < eventCb.Length)
      ensures Callbacks() == AppendIfRoom(eventCb.Length, old(Callbacks()), CbInfo(nlCmd, 0, 0, func, arg))
      ensures Commands() == old(Commands())
    {
      ok := false;
      if numEventCb < eventCb.Length {
        eventCb[numEventCb] := CbInfo(nlCmd, 0, 0, func, arg);
        numEventCb := numEventCb + 1;
        ok := true;
      }
    }

    method RegisterVendorHandler(vendorId: int, subcmd: int, func: Ptr, arg: Ptr) returns (ok: bool)
      requires Valid()
      modifies this`numEventCb, eventCb
      ensures Valid() && ok == (|old(Callbacks())| < eventCb.Length)
      ensures Callbacks() == AppendIfRoom(eventCb.Length, old(Callbacks()),
                                          CbInfo(NL80211_CMD_VENDOR, vendorId, subcmd, func, arg))
      ensures Commands() == old(Commands())
    {
      ok := false;
      if numEventCb < eventCb.Length {
        eventCb[numEventCb] := CbInfo(NL80211_CMD_VENDOR, vendorId, subcmd, func, arg);
        numEventCb := numEventCb + 1;
        ok := true;
      }
    }

    method UnregisterHandler(nlCmd: int)
      requires Valid()
      modifies this`numEventCb, eventCb
      ensures Valid()
      ensures Callbacks() == if nlCmd == NL80211_CMD_VENDOR then old(Callbacks())
                             else RemoveKey(old(Callbacks()), Plain(nlCmd))
      ensures Commands() == old(Commands())
    {
      if nlCmd == NL80211_CMD_VENDOR {
        return;
      }
      for i := 0 to numEventCb
        invariant unchanged(this) && unchanged(eventCb)
        invariant forall j :: 0 <= j < i ==> eventCb[j].nlCmd != nlCmd
      {
        if eventCb[i].nlCmd == nlCmd {
          assert i == IndexOfKey(Callbacks(), Plain(nlCmd));
          MoveDown(eventCb, i, numEventCb);
          numEventCb := numEventCb - 1;
          return;
        }
      }
      assert IndexOfKey(Callbacks(), Plain(nlCmd)) == numEventCb;
    }

    method UnregisterVendorHandler(vendorId: int, subcmd: int)
      requires Valid()
      modifies this`numEventCb, eventCb
      ensures Valid()
      ensures Callbacks() == RemoveKey(old(Callbacks()), Vendor(vendorId, subcmd))
      ensures Commands() == old(Commands())
    {
      for i := 0 to numEventCb
        invariant unchanged(this) && unchanged(eventCb)
        invariant forall j :: 0 <= j < i ==> KeyOf(eventCb[j]) != Vendor(vendorId, subcmd)
      {
        if eventCb[i].nlCmd == NL80211_CMD_VENDOR
           && eventCb[i].vendorId == vendorId
           && eventCb[i].vendorSubcmd == subcmd {
          assert i == IndexOfKey(Callbacks(), Vendor(vendorId, subcmd));
          MoveDown(eventCb, i, numEventCb);
          numEventCb := numEventCb - 1;
          return;
        }
      }
      assert IndexOfKey(Callbacks(), Vendor(vendorId, subcmd)) == numEventCb;
    }

    /** The lookup loop of internal_valid_message_handler. */
    method LookUp(nlCmd: int, vendorId: int, subcmd: int) returns (r: Option<CbInfo>)
      requires Valid()
      ensures r == FindKey(Callbacks(), KeyFor(nlCmd, vendorId, subcmd))
    {
      for i := 0 to numEventCb
        invariant forall j :: 0 <= j < i ==> KeyOf(eventCb[j]) != KeyFor(nlCmd, vendorId, subcmd)
      {
        if nlCmd == eventCb[i].nlCmd {
          if nlCmd == NL80211_CMD_VENDOR
             && (vendorId != eventCb[i].vendorId || subcmd != eventCb[i].vendorSubcmd) {
            continue;
          }
          assert i == IndexOfKey(Callbacks(), KeyFor(nlCmd, vendorId, subcmd));
          return Some(eventCb[i]);
        }
      }
      assert IndexOfKey(Callbacks(), KeyFor(nlCmd, vendorId, subcmd)) == numEventCb;
      return None;
    }

    method RegisterCmd(id: int, p: Ptr) returns (ok: bool)
      requires Valid()
      modifies this`numCmd, cmd
      ensures Valid() && ok == (|old(Commands())| < cmd.Length)
      ensures Commands() == AppendIfRoom(cmd.Length, old(Commands()), CmdInfo(id, p))
      ensures Callbacks() == old(Callbacks())
    {
      ok := false;
      if numCmd < cmd.Length {
        cmd[numCmd] := CmdInfo(id, p);
        numCmd := numCmd + 1;
        ok := true;
      }
    }

    method UnregisterCmdById(id: int) returns (r: Option<Ptr>)
      requires Valid()
      modifies this`numCmd, cmd
      ensures Valid()
      ensures r == old(FindId(Commands(), id))
      ensures Commands() == RemoveId(old(Commands()), id)
      ensures Callbacks() == old(Callbacks())
    {
      for i := 0 to numCmd
        invariant unchanged(this) && unchanged(cmd)
        invariant forall j :: 0 <= j < i ==> cmd[j].id != id
      {
        if cmd[i].id == id {
          assert i == IndexOfId(Commands(), id);
          r := Some(cmd[i].cmd);
          MoveDown(cmd, i, numCmd);
          numCmd := numCmd - 1;
          return;
        }
      }
      assert IndexOfId(Commands(), id) == numCmd;
      return None;
    }

    method GetCmd(id: int) returns (r: Option<Ptr>)
      requires Valid()
      ensures r == FindId(Commands(), id)
    {
      for i := 0 to numCmd
        invariant forall j :: 0 <= j < i ==> cmd[j].id != id
      {
        if cmd[i].id == id {
          assert i == IndexOfId(Commands(), id);
          return Some(cmd[i].cmd);
        }
      }
      assert IndexOfId(Commands(), id) == numCmd;
      return None;
    }

    method UnregisterCmd(p: Ptr)
      requires Valid()
      modifies this`numCmd, cmd
      ensures Valid()
      ensures Commands() == RemoveCmd(old(Commands()), p)
      ensures Callbacks() == old(Callbacks())
    {
      for i := 0 to numCmd
        invariant unchanged(this) && unchanged(cmd)
        invariant forall j :: 0 <= j < i ==> cmd[j].cmd != p
      {
        if cmd[i].cmd == p {
          assert i == IndexOfCmd(Commands(), p);
          MoveDown(cmd, i, numCmd);
          numCmd := numCmd - 1;
          return;
        }
      }
      assert IndexOfCmd(Commands(), p) == numCmd;
    }

    /** One round of the draining loop: cancel the entry at the position, count it if it stayed. */
    method CancelNext(badCommands: nat, removesItself: set<Ptr>) returns (p: Ptr, bad: nat)
      requires Valid() && badCommands < numCmd
      modifies this`numCmd, cmd
      ensures Valid() && Callbacks() == old(Callbacks())
      ensures p == old(Commands())[badCommands].cmd
      ensures Commands() == if p in removesItself then RemoveCmd(old(Commands()), p) else old(Commands())
      ensures bad == if p in removesItself then badCommands else badCommands + 1
    {
      var before := numCmd;
      p := cmd[badCommands].cmd;
      assert p == Commands()[badCommands].cmd;
      if p in removesItself {
        UnregisterCmd(p);
      }
      bad := if before == numCmd then badCommands + 1 else badCommands;
    }

    /** The same, as progress of the loop. */
    method DrainNext(badCommands: nat, removesItself: set<Ptr>,
                     ghost start: seq<CmdInfo>, ghost k: nat, ghost done: seq<Ptr>)
      returns (p: Ptr, bad: nat)
      requires Valid() && badCommands < numCmd && DistinctPtrs(start)
      requires DrainedTo(Commands(), start, k, badCommands, removesItself, done)
      modifies this`numCmd, cmd
      ensures Valid() && Callbacks() == old(Callbacks())
      ensures DrainedTo(Commands(), start, k + 1, bad, removesItself, done + [p])
      ensures numCmd - bad < old(numCmd) - badCommands
    {
      DrainStep(Commands(), start, k, badCommands, removesItself, done);
      ghost var table := Commands();
      p, bad := CancelNext(badCommands, removesItself);
      RemovesOne(table, p, badCommands);
    }

    /**
    The draining loop of wifi_cleanup.  `removesItself` holds the commands whose cancel()
    takes them out of the table; the others are stepped over as bad commands.  Every
    command is cancelled and released exactly once, in table order, in both cases.
     */
    method Drain(removesItself: set<Ptr>) returns (cancelled: seq<Ptr>, released: seq<Ptr>)
      requires Valid()
      requires DistinctPtrs(Commands())
      modifies this`numCmd, cmd
      ensures Valid()
      ensures cancelled == released == Ptrs(old(Commands()))
      ensures Commands() == Remaining(old(Commands()), removesItself)
      ensures Callbacks() == old(Callbacks())
    {
      cancelled, released := [], [];
      var badCommands := 0;
      ghost var start, k := Commands(), 0;
      while numCmd > badCommands
        invariant Valid() && Callbacks() == old(Callbacks())
        invariant DrainedTo(Commands(), start, k, badCommands, removesItself, cancelled)
        invariant released == cancelled
        decreases numCmd - badCommands
      {
        var p, bad := DrainNext(badCommands, removesItself, start, k, cancelled);
        cancelled, released := cancelled + [p], released + [p];
        badCommands := bad;
        k := k + 1;
      }
      DrainEnds(Commands(), start, k, badCommands, removesItself, cancelled);
    }
  }

  function Ptrs(s: seq<CmdInfo>): (r: seq<Ptr>)
    ensures |r| == |s|
    ensures forall i :: 0 <= i < |s| ==> r[i] == s[i].cmd
  {
    if s == [] then [] else [s[0].cmd] + Ptrs(s[1..])
  }

  /** The entries whose command does not take itself out. */
  function Remaining(s: seq<CmdInfo>, removesItself: set<Ptr>): (r: seq<CmdInfo>)
    ensures forall e :: e in r ==> e in s
  {
    if s == [] then []
    else (if s[0].cmd in removesItself then [] else [s[0]]) + Remaining(s[1..], removesItself)
  }

  ghost predicate DistinctPtrs(s: seq<CmdInfo>) {
    forall i, j :: 0 <= i < j < |s| ==> s[i].cmd != s[j].cmd
  }

  lemma {:induction false} RemainingAppend(s: seq<CmdInfo>, e: CmdInfo, removesItself: set<Ptr>)
    ensures Remaining(s + [e], removesItself)
         == Remaining(s, removesItself) + (if e.cmd in removesItself then [] else [e])
  {
    if s != [] {
      RemainingAppend(s[1..], e, removesItself);
      assert (s + [e])[1..] == s[1..] + [e];
    }
  }

  /** The first `k` of the original entries are cancelled; those among them that stayed are in front. */
  ghost predicate DrainedTo(table: seq<CmdInfo>, start: seq<CmdInfo>, k: nat, bad: nat,
                            removesItself: set<Ptr>, cancelled: seq<Ptr>) {
    && k <= |start|
    && table == Remaining(start[..k], removesItself) + start[k..]
    && bad == |Remaining(start[..k], removesItself)|
    && cancelled == Ptrs(start[..k])
  }

  /**
  The entry at the loop position is the next one of the original table, and nothing kept in
  front of it can be mistaken for it.
   */
  lemma DrainStep(table: seq<CmdInfo>, start: seq<CmdInfo>, k: nat, bad: nat,
                  removesItself: set<Ptr>, cancelled: seq<Ptr>)
    requires DistinctPtrs(start) && DrainedTo(table, start, k, bad, removesItself, cancelled) && bad < |table|
    ensures var p := table[bad].cmd;
            if p in removesItself
            then DrainedTo(RemoveCmd(table, p), start, k + 1, bad, removesItself, cancelled + [p])
            else DrainedTo(table, start, k + 1, bad + 1, removesItself, cancelled + [p])
  {
    var kept, e := Remaining(start[..k], removesItself), start[k];
    assert start[..k + 1] == start[..k] + [e];
    RemainingAppend(start[..k], e, removesItself);
    assert table == kept + [e] + start[k + 1..];
    forall j | 0 <= j < |kept| ensures kept[j].cmd != e.cmd {
      assert kept[j] in start[..k];
    }
    RemovesMiddle(kept, e, start[k + 1..]);
    assert (kept + [e]) + start[k + 1..] == table;
  }

  lemma RemovesMiddle(front: seq<CmdInfo>, e: CmdInfo, back: seq<CmdInfo>)
    requires forall j :: 0 <= j < |front| ==> front[j].cmd != e.cmd
    ensures RemoveCmd(front + [e] + back, e.cmd) == front + back
  {
    var table := front + [e] + back;
    assert table[|front|] == e && forall j :: 0 <= j < |front| ==> table[j] == front[j];
    assert table[..|front|] == front && table[|front| + 1..] == back;
  }

  lemma RemovesOne(table: seq<CmdInfo>, p: Ptr, i: nat)
    requires i < |table| && table[i].cmd == p
    ensures |RemoveCmd(table, p)| == |table| - 1
  {
  }

  lemma DrainEnds(table: seq<CmdInfo>, start: seq<CmdInfo>, k: nat, bad: nat,
                  removesItself: set<Ptr>, cancelled: seq<Ptr>)
    requires DrainedTo(table, start, k, bad, removesItself, cancelled) && bad >= |table|
    ensures table == Remaining(start, removesItself) && cancelled == Ptrs(start)
  {
    assert start[..k] == start && start[k..] == [];
  }

  // ----- every key is a queue of its own

  datatype TableOp =
    | RegisterOp(nlCmd: int, vendorId: int, vendorSubcmd: int, arg: Ptr)
    | UnregisterOp(key: Key)

  function EntryFor(op: TableOp): CbInfo
    requires op.RegisterOp?
  {
    CbInfo(op.nlCmd, op.vendorId, op.vendorSubcmd, 1, op.arg)
  }

  function KeyOfOp(op: TableOp): Key {
    match op
    case RegisterOp(_, _, _, _) => KeyOf(EntryFor(op))
    case UnregisterOp(k) => k
  }

  function ApplyOp(capacity: nat, s: seq<CbInfo>, op: TableOp): seq<CbInfo> {
    match op
    case RegisterOp(_, _, _, _) => AppendIfRoom(capacity, s, EntryFor(op))
    case UnregisterOp(k) => RemoveKey(s, k)
  }

  function TableAfter(capacity: nat, h: seq<TableOp>): seq<CbInfo> {
    if h == [] then []
    else ApplyOp(capacity, TableAfter(capacity, h[..|h| - 1]), h[|h| - 1])
  }

  /** Whether the call at position `i` of the history found room. */
  predicate FoundRoom(capacity: nat, h: seq<TableOp>, i: nat)
    requires i < |h|
  {
    |TableAfter(capacity, h[..i])| < capacity
  }

  /**
  The reference: one queue for `k` alone, fed by the registrations of `k` that found room
  and popped by the unregistrations of `k`; calls for other keys are not looked at.
   */
  function QueueOf(capacity: nat, h: seq<TableOp>, k: Key): seq<Ptr> {
    if h == [] then []
    else QueueStep(QueueOf(capacity, h[..|h| - 1], k), h[|h| - 1], k, FoundRoom(capacity, h, |h| - 1))
  }

  function QueueStep(q: seq<Ptr>, op: TableOp, k: Key, room: bool): seq<Ptr> {
    if KeyOfOp(op) != k then q
    else if op.UnregisterOp? then (if q == [] then q else q[1..])
    else if room then q + [op.arg]
    else q
  }

  /** The arguments registered under `k`, in table order. */
  function ArgsOf(s: seq<CbInfo>, k: Key): seq<Ptr> {
    if s == [] then []
    else (if KeyOf(s[0]) == k then [s[0].cbArg] else []) + ArgsOf(s[1..], k)
  }

  lemma {:induction false} ArgsOfConcat(s: seq<CbInfo>, t: seq<CbInfo>, k: Key)
    ensures ArgsOf(s + t, k) == ArgsOf(s, k) + ArgsOf(t, k)
  {
    if s == [] {
      assert s + t == t;
    } else {
      ArgsOfConcat(s[1..], t, k);
      assert (s + t)[1..] == s[1..] + t;
      Bytes.ConcatAssoc(if KeyOf(s[0]) == k then [s[0].cbArg] else [], ArgsOf(s[1..], k), ArgsOf(t, k));
    }
  }

  lemma {:induction false} ArgsOfNone(s: seq<CbInfo>, k: Key)
    requires forall j :: 0 <= j < |s| ==> KeyOf(s[j]) != k
    ensures ArgsOf(s, k) == []
  {
    if s != [] {
      ArgsOfNone(s[1..], k);
    }
  }

  /** Removing `r` pops the queue of `r` and leaves every other queue as it was. */
  lemma ArgsOfRemove(s: seq<CbInfo>, r: Key, k: Key)
    ensures ArgsOf(RemoveKey(s, r), k)
         == if r == k && ArgsOf(s, k) != [] then ArgsOf(s, k)[1..] else ArgsOf(s, k)
  {
    var i := IndexOfKey(s, r);
    if i == |s| {
      if r == k {
        ArgsOfNone(s, k);
      }
    } else {
      var front, back := s[..i], s[i + 1..];
      assert s == front + ([s[i]] + back);
      assert RemoveKey(s, r) == front + back;
      ArgsOfMiddle(front, s[i], back, k);
      if r == k {
        ArgsOfNone(front, k);
      }
    }
  }

  /** What an entry in the middle of the table contributes. */
  lemma ArgsOfMiddle(front: seq<CbInfo>, e: CbInfo, back: seq<CbInfo>, k: Key)
    ensures ArgsOf(front + ([e] + back), k)
         == ArgsOf(front, k) + ((if KeyOf(e) == k then [e.cbArg] else []) + ArgsOf(back, k))
    ensures ArgsOf(front + back, k) == ArgsOf(front, k) + ArgsOf(back, k)
  {
    ArgsOfConcat(front, [e] + back, k);
    ArgsOfConcat(front, back, k);
    assert ([e] + back)[1..] == back;
  }

  lemma {:induction false} DispatchIsHead(s: seq<CbInfo>, k: Key)
    ensures FindKey(s, k).None? <==> ArgsOf(s, k) == []
    ensures FindKey(s, k).Some? ==> KeyOf(FindKey(s, k).value) == k && FindKey(s, k).value.cbArg == ArgsOf(s, k)[0]
  {
    var i := IndexOfKey(s, k);
    if i < |s| {
      assert s == s[..i] + ([s[i]] + s[i + 1..]);
      ArgsOfConcat(s[..i], [s[i]] + s[i + 1..], k);
      ArgsOfNone(s[..i], k);
      ArgsOfConcat([s[i]], s[i + 1..], k);
    } else {
      ArgsOfNone(s, k);
    }
  }

  /** One call on the whole table is one step of each queue. */
  lemma StepOnQueue(capacity: nat, s: seq<CbInfo>, op: TableOp, k: Key)
    ensures ArgsOf(ApplyOp(capacity, s, op), k) == QueueStep(ArgsOf(s, k), op, k, |s| < capacity)
    ensures |s| <= capacity ==> |ApplyOp(capacity, s, op)| <= capacity
  {
    match op
    case RegisterOp(_, _, _, _) =>
      ArgsOfConcat(s, [EntryFor(op)], k);
    case UnregisterOp(r) =>
      ArgsOfRemove(s, r, k);
  }

  lemma {:induction false} TableHoldsQueues(capacity: nat, h: seq<TableOp>, k: Key)
    ensures ArgsOf(TableAfter(capacity, h), k) == QueueOf(capacity, h, k)
    ensures |TableAfter(capacity, h)| <= capacity
  {
    if h != [] {
      var front, op := h[..|h| - 1], h[|h| - 1];
      TableHoldsQueues(capacity, front, k);
      StepOnQueue(capacity, TableAfter(capacity, front), op, k);
    }
  }

  /**
  After any history of calls, the table holds, for each key, exactly the queue of that key;
  an event is delivered to the head of its key's queue and to nobody when that is empty.
   */
  lemma EachKeyIsAQueue(capacity: nat, h: seq<TableOp>, k: Key)
    ensures ArgsOf(TableAfter(capacity, h), k) == QueueOf(capacity, h, k)
    ensures |TableAfter(capacity, h)| <= capacity
    ensures var d := FindKey(TableAfter(capacity, h), k);
            if QueueOf(capacity, h, k) == [] then d.None?
            else d.Some? && d.value.cbArg == QueueOf(capacity, h, k)[0]
  {
    TableHoldsQueues(capacity, h, k);
    DispatchIsHead(TableAfter(capacity, h), k);
  }

  // ----- membership after a removal, for tables without repeated keys

  ghost predicate DistinctKeys(s: seq<CbInfo>) {
    forall i, j :: 0 <= i < j < |s| ==> KeyOf(s[i]) != KeyOf(s[j])
  }

  lemma RemoveKeyMembers(s: seq<CbInfo>, k: Key)
    requires DistinctKeys(s)
    ensures DistinctKeys(RemoveKey(s, k))
    ensures forall e :: e in RemoveKey(s, k) <==> e in s && KeyOf(e) != k
  {
    var i, r := IndexOfKey(s, k), RemoveKey(s, k);
    if i < |s| {
      forall e | e in s && KeyOf(e) != k ensures e in r {
        var j :| 0 <= j < |s| && s[j] == e;
        assert if j < i then r[j] == e else r[j - 1] == e;
      }
    }
  }
}

/**
Retrieval of cached scan results (GetScanResultsCommand, wifi_hal/gscan.cpp): several request
rounds, each answered by any number of messages, whose nested attributes fill a bounded array
of the caller.  The reference is a fold over the attributes that knows no capacity.
 */
module ScanResults {
  import opened Options
  import opened Bytes
  import opened Netlink

  const SCAN_RESULTS_COMPLETE := 21
  const NUM_OF_RESULTS := 30
  const SCAN_RESULTS := 32
  const SCAN_ID := 33
  const SCAN_FLAGS := 34
  const CH_BUCKET_BITMASK := 36
  const MAX_AP_CACHE_PER_SCAN := 32
  const MAX_ROUNDS := 10

  /** One slot of the caller's array; each access point is its record, byte for byte. */
  datatype Scan = Scan(scanId: int, flags: int, numResults: int, buckets: int, results: seq<seq<Byte>>)

  /** sizeof(wifi_scan_result), which caps the count, and sizeof(wifi_gscan_result_t), the step between records. */
  datatype Sizes = Sizes(hal: nat, driver: nat)

  /** A reply: `buf` is memory from the vendor data on, `len` the length of the vendor data. */
  datatype Msg = Msg(isVendor: bool, hasData: bool, buf: seq<Byte>, len: nat)

  /** One request round: what createRequest returned, the replies, and the final error code. */
  datatype Round = Round(created: int, msgs: seq<Msg>, err: int)

  function Min(x: int, y: int): int { if x < y then x else y }

  // ----- the reference: a fold without capacity

  /** The variables of one result nest, and the scans it has produced. */
  datatype Nested = Nested(scanId: int, flags: int, num: int, mask: int, scans: seq<Scan>)

  function Records(b: seq<Byte>, off: nat, stride: nat, n: nat): (r: seq<seq<Byte>>)
    ensures |r| == n
    decreases n
  {
    if n == 0 then []
    else [Copy(b, off, stride)] + Records(b, off + stride, stride, n - 1)
  }

  function Cap(num: int, len: nat, hal: nat): int
    requires hal > 0
  {
    Min(Min(num, len / hal), MAX_AP_CACHE_PER_SCAN)
  }

  /** The records read always lie inside the attribute if and only if a driver record is no larger than a HAL one. */
  lemma RecordsInside(size: Sizes)
    requires size.hal > 0
    ensures size.driver <= size.hal <==>
            forall num: int, len: nat :: Max0(Cap(num, len, size.hal)) * size.driver <= len
  {
    if size.driver <= size.hal {
      forall num: int, len: nat ensures Max0(Cap(num, len, size.hal)) * size.driver <= len {
        SmallerFits(Max0(Cap(num, len, size.hal)), len, size.driver, size.hal);
      }
    } else {
      assert Max0(Cap(1, size.hal, size.hal)) == 1;
    }
  }

  lemma SmallerFits(n: nat, len: nat, driver: nat, hal: nat)
    requires 0 < hal && driver <= hal && n <= len / hal
    ensures n * driver <= len
  {
    var q := len / hal;
    assert q * hal <= len;
    ProductGrows(n, q, driver, hal);
  }

  lemma ProductGrows(m: nat, n: nat, x: nat, y: nat)
    requires m <= n && x <= y
    ensures m * x <= n * y
  {
    assert n * y == m * x + m * (y - x) + (n - m) * y;
  }

  function NestedStep(b: seq<Byte>, a: Attr, st: Nested, size: Sizes): Nested
    requires size.hal > 0
  {
    if a.ty == SCAN_ID then st.(scanId := S32(Read(b, a.off, 4)))
    else if a.ty == SCAN_FLAGS then st.(flags := Read(b, a.off, 1))
    else if a.ty == NUM_OF_RESULTS then st.(num := S32(Read(b, a.off, 4)))
    else if a.ty == CH_BUCKET_BITMASK then st.(mask := S32(Read(b, a.off, 4)))
    else if a.ty == SCAN_RESULTS && st.num != 0 then
      var num := Cap(st.num, a.len, size.hal);
      var scan := Scan(st.scanId, st.flags, num, st.mask, Records(b, a.off, size.driver, Max0(num)));
      st.(num := num, scans := st.scans + [scan])
    else st
  }

  function NestedFold(b: seq<Byte>, s: seq<Attr>, st: Nested, size: Sizes): Nested
    requires size.hal > 0
  {
    if s == [] then st else NestedFold(b, s[1..], NestedStep(b, s[0], st, size), size)
  }

  /** The scans of one result nest, each with id, flags and mask as last seen before it. */
  function ScansInside(b: seq<Byte>, a: Attr, size: Sizes): seq<Scan>
    requires size.hal > 0
  {
    NestedFold(b, Inside(b, a), Nested(0, 0, 0, 0, []), size).scans
  }

  datatype Total = Total(scans: seq<Scan>, completed: int)

  function AttrStep(b: seq<Byte>, a: Attr, st: Total, size: Sizes): Total
    requires size.hal > 0
  {
    if a.ty == SCAN_RESULTS_COMPLETE then st.(completed := Read(b, a.off, 1))
    else if NUM_OF_RESULTS <= a.ty <= CH_BUCKET_BITMASK then st.(scans := st.scans + ScansInside(b, a, size))
    else st
  }

  function AttrFold(b: seq<Byte>, s: seq<Attr>, st: Total, size: Sizes): Total
    requires size.hal > 0
  {
    if s == [] then st else AttrFold(b, s[1..], AttrStep(b, s[0], st, size), size)
  }

  /** The attributes walked in a reply: those inside the attribute the vendor data starts with. */
  function Walked(m: Msg): seq<Attr> {
    if m.isVendor && m.hasData && m.len != 0
    then Attrs(m.buf, NLA_HDRLEN, NlaLen(m.buf, 0) - NLA_HDRLEN)
    else []
  }

  function MsgsFold(ms: seq<Msg>, st: Total, size: Sizes): Total
    requires size.hal > 0
  {
    if ms == [] then st else MsgsFold(ms[1..], AttrFold(ms[0].buf, Walked(ms[0]), st, size), size)
  }

  /** Everything the driver reported in the first `k` rounds. */
  function Reported(rounds: seq<Round>, k: nat, size: Sizes): Total
    requires size.hal > 0 && k <= |rounds|
  {
    if k == 0 then Total([], 0) else After(Reported(rounds, k - 1, size), rounds[k - 1], size)
  }

  // ----- folding only ever appends

  lemma {:induction false} NestedAppends(b: seq<Byte>, s: seq<Attr>, st: Nested, size: Sizes)
    requires size.hal > 0
    ensures st.scans <= NestedFold(b, s, st, size).scans
    decreases |s|
  {
    if s != [] {
      NestedAppends(b, s[1..], NestedStep(b, s[0], st, size), size);
    }
  }

  // ----- the command

  /** `out[..got]` holds the first scans of `all`, as many as there is room for. */
  ghost predicate Filled(out: seq<Scan>, got: nat, max: int, all: seq<Scan>) {
    max <= |out| && got == Min(|all|, Max0(max)) && out[..got] == all[..got]
  }

  class GetScanResultsCommand {
    const max: int
    const size: Sizes
    const scans: array<Scan>
    var retrieved: nat
    var completed: int

    ghost predicate Holds(t: Total)
      reads this, scans
    {
      size.hal > 0 && Filled(scans[..], retrieved, max, t.scans) && completed == t.completed
    }

    constructor (max: int, size: Sizes, scans: array<Scan>)
      requires max <= scans.Length && size.hal > 0
      ensures this.max == max && this.size == size && this.scans == scans
      ensures Holds(Total([], 0))
    {
      this.max, this.size, this.scans := max, size, scans;
      retrieved, completed := 0, 0;
    }

    /** The body of the inner loop that copies one scan into the next free slot. */
    method Store(scan: Scan, ghost all: seq<Scan>, ghost made: seq<Scan>)
      requires Filled(scans[..], retrieved, max, all + made) && retrieved < max
      modifies this`retrieved, scans
      ensures Filled(scans[..], retrieved, max, all + (made + [scan]))
    {
      scans[retrieved] := scan;
      retrieved := retrieved + 1;
      ConcatAssoc(all, made, [scan]);
    }

    /**
    What the inner loop does with one attribute: it updates the loop's variables and the ghost
    `made`, or finds that a scan has no slot left.
     */
    method HandleNested(buf: seq<Byte>, c: Attr, scanId: int, flags: int, num: int, mask: int,
                        ghost all: seq<Scan>, ghost made: seq<Scan>)
        returns (scanId': int, flags': int, num': int, mask': int, full: bool, ghost made': seq<Scan>)
      requires size.hal > 0 && Filled(scans[..], retrieved, max, all + made)
      modifies this`retrieved, scans
      ensures full ==> retrieved >= max && Filled(scans[..], retrieved, max, all + made)
      ensures !full ==> Filled(scans[..], retrieved, max, all + made')
      ensures !full ==> Nested(scanId', flags', num', mask', made')
                        == NestedStep(buf, c, Nested(scanId, flags, num, mask, made), size)
    {
      scanId', flags', num', mask', full, made' := scanId, flags, num, mask, false, made;
      if c.ty == SCAN_ID {
        scanId' := S32(Read(buf, c.off, 4));
      } else if c.ty == SCAN_FLAGS {
        flags' := Read(buf, c.off, 1);
      } else if c.ty == NUM_OF_RESULTS {
        num' := S32(Read(buf, c.off, 4));
      } else if c.ty == CH_BUCKET_BITMASK {
        mask' := S32(Read(buf, c.off, 4));
      } else if c.ty == SCAN_RESULTS && num != 0 {
        if retrieved >= max {
          full := true;
          return;
        }
        num' := Min(num, c.len / size.hal);
        num' := Min(num', MAX_AP_CACHE_PER_SCAN);
        var scan := Scan(scanId, flags, num', mask, Records(buf, c.off, size.driver, Max0(num')));
        Store(scan, all, made);
        made' := made + [scan];
      }
    }

    /** The inner loop. */
    method HandleNest(buf: seq<Byte>, a: Attr, ghost all: seq<Scan>)
      requires size.hal > 0 && Filled(scans[..], retrieved, max, all)
      requires a.off >= NLA_HDRLEN && NlaLen(buf, a.off - NLA_HDRLEN) == a.len + NLA_HDRLEN
      modifies this`retrieved, scans
      ensures Filled(scans[..], retrieved, max, all + ScansInside(buf, a, size))
    {
      var scanId, flags, num, mask, full := 0, 0, 0, 0, false;
      ghost var made: seq<Scan> := [];
      assert all + made == all;
      var it := new NlIterator(buf, a.off - NLA_HDRLEN);
      assert it.Left() == Inside(buf, a);
      var more := it.HasNext();
      while more
        invariant it.buf == buf && more == (it.Left() != [])
        invariant NestedFold(buf, it.Left(), Nested(scanId, flags, num, mask, made), size).scans
               == ScansInside(buf, a, size)
        invariant Filled(scans[..], retrieved, max, all + made)
        decreases |it.Left()|
      {
        var c := it.Get();
        ghost var before, st := made, Nested(scanId, flags, num, mask, made);
        scanId, flags, num, mask, full, made := HandleNested(buf, c, scanId, flags, num, mask, all, made);
        if full {
          NestedAppends(buf, it.Left(), st, size);
          StaysFull(scans[..], retrieved, max, all, before, ScansInside(buf, a, size));
          return;
        }
        it.Next();
        more := it.HasNext();
      }
    }

    /** What the outer loop does with one attribute. */
    method HandleAttr(buf: seq<Byte>, a: Attr, ghost t: Total)
      requires Holds(t) && a.off >= NLA_HDRLEN && NlaLen(buf, a.off - NLA_HDRLEN) == a.len + NLA_HDRLEN
      modifies this, scans
      ensures Holds(AttrStep(buf, a, t, size))
    {
      if a.ty == SCAN_RESULTS_COMPLETE {
        completed := Read(buf, a.off, 1);
      } else if NUM_OF_RESULTS <= a.ty <= CH_BUCKET_BITMASK {
        HandleNest(buf, a, t.scans);
      }
    }

    /** handleResponse */
    method HandleResponse(m: Msg, ghost t: Total)
      requires Holds(t)
      modifies this, scans
      ensures Holds(AttrFold(m.buf, Walked(m), t, size))
    {
      if !m.isVendor || !m.hasData || m.len == 0 {
        return;
      }
      ghost var cur := t;
      var it := new NlIterator(m.buf, 0);
      var more := it.HasNext();
      while more
        invariant it.buf == m.buf && more == (it.Left() != [])
        invariant Holds(cur)
        invariant AttrFold(m.buf, it.Left(), cur, size) == AttrFold(m.buf, Walked(m), t, size)
        decreases |it.Left()|
      {
        var a := it.Get();
        HandleAttr(m.buf, a, cur);
        cur := AttrStep(m.buf, a, cur, size);
        it.Next();
        more := it.HasNext();
      }
    }

    /** requestResponse: every reply goes through handleResponse. */
    method RequestResponse(ms: seq<Msg>, ghost t: Total)
      requires Holds(t)
      modifies this, scans
      ensures Holds(MsgsFold(ms, t, size))
    {
      ghost var cur := t;
      for i := 0 to |ms|
        invariant Holds(cur)
        invariant MsgsFold(ms[i..], cur, size) == MsgsFold(ms, t, size)
      {
        HandleResponse(ms[i], cur);
        cur := AttrFold(ms[i].buf, Walked(ms[i]), cur, size);
        assert ms[i..][1..] == ms[i + 1..];
      }
    }

    /** One pass of the loop in execute: create the request, send it, look at what came back. */
    method OneRound(ghost before: Total, r: Round) returns (num: int, err: int, goOn: bool)
      requires Holds(before)
      modifies this, scans
      ensures num == max - Min(|before.scans|, Max0(max)) && err == ErrorOf(r)
      ensures Holds(After(before, r, size))
      ensures goOn == GoesOn(before, r, max, size)
    {
      num := max - retrieved;
      if r.created < 0 {
        return num, r.created, false;
      }
      var previously := retrieved;
      RequestResponse(r.msgs, before);
      err := r.err;
      goOn := err == 0 && retrieved != previously && completed == 0;
      MsgsAppend(r.msgs, before, size);
    }

    /** The same, as one more of the rounds. */
    method NextRound(rounds: seq<Round>, i: nat, ghost asked: seq<int>) returns (num: int, err: int, goOn: bool)
      requires size.hal > 0 && i == |asked| < |rounds| && Holds(Reported(rounds, i, size))
      requires AskedRight(asked, rounds, max, size) && retrieved < max
      modifies this, scans
      ensures Holds(Reported(rounds, i + 1, size)) && AskedRight(asked + [num], rounds, max, size)
      ensures err == ErrorOf(rounds[i]) && (goOn ==> err == 0)
      ensures Wanted(rounds, max, size, i) && goOn == Passes(rounds, max, size, i)
    {
      num, err, goOn := OneRound(Reported(rounds, i, size), rounds[i]);
      AskedNext(asked, num, rounds, max, size);
    }

    /**
    execute: `rounds` is what the driver would answer to up to ten requests.  Returns the
    numbers asked for, one per request sent, and the count reported through mNum.
     */
    method Execute(rounds: seq<Round>) returns (result: int, asked: seq<int>, reported: Option<int>)
      requires Holds(Total([], 0)) && |rounds| == MAX_ROUNDS
      modifies this, scans
      ensures |asked| <= MAX_ROUNDS && Holds(Reported(rounds, |asked|, size))
      ensures AskedRight(asked, rounds, max, size)
      ensures RunsUntil(rounds, max, size, |asked|)
      ensures result == if |asked| == 0 then 0
                        else if rounds[|asked| - 1].created < 0 then rounds[|asked| - 1].created
                        else rounds[|asked| - 1].err
      ensures reported == if result == 0 then Some(retrieved) else None
    {
      asked, result := [], 0;
      var i, goOn := 0, true;
      while i < MAX_ROUNDS && retrieved < max && goOn
        invariant |asked| == i <= MAX_ROUNDS && Holds(Reported(rounds, i, size))
        invariant AskedRight(asked, rounds, max, size)
        invariant if goOn then AllPass(rounds, max, size, i) else RunsUntil(rounds, max, size, i)
        invariant result == (if i == 0 then 0 else ErrorOf(rounds[i - 1])) && (goOn ==> result == 0)
      {
        var num;
        num, result, goOn := NextRound(rounds, i, asked);
        RoundEnds(rounds, max, size, i);
        asked, i := asked + [num], i + 1;
      }
      reported := if result == 0 then Some(retrieved) else None;
    }
  }

  // ----- what a whole retrieval does, said about the reference

  function Got(t: Total, max: int): nat {
    Min(|t.scans|, Max0(max))
  }

  function ErrorOf(r: Round): int {
    if r.created < 0 then r.created else r.err
  }

  function After(before: Total, r: Round, size: Sizes): Total
    requires size.hal > 0
  {
    if r.created < 0 then before else MsgsFold(r.msgs, before, size)
  }

  /** No error, something new was stored, and no completion flag. */
  predicate GoesOn(before: Total, r: Round, max: int, size: Sizes)
    requires size.hal > 0
  {
    var after := After(before, r, size);
    ErrorOf(r) == 0 && Got(before, max) < Got(after, max) && after.completed == 0
  }

  /** Every request asks for exactly what is still missing after the rounds before it. */
  ghost predicate AskedRight(asked: seq<int>, rounds: seq<Round>, max: int, size: Sizes)
    requires size.hal > 0
  {
    && |asked| <= |rounds|
    && forall k :: 0 <= k < |asked| ==> asked[k] == Missing(rounds, max, size, k)
  }

  /** How many scans are still to get after the first `k` rounds. */
  function Missing(rounds: seq<Round>, max: int, size: Sizes, k: nat): int
    requires size.hal > 0 && k <= |rounds|
  {
    max - Got(Reported(rounds, k, size), max)
  }

  lemma AskedNext(asked: seq<int>, num: int, rounds: seq<Round>, max: int, size: Sizes)
    requires size.hal > 0 && AskedRight(asked, rounds, max, size) && |asked| < |rounds|
    requires num == Missing(rounds, max, size, |asked|)
    ensures AskedRight(asked + [num], rounds, max, size)
  {
    var a := asked + [num];
    forall k | 0 <= k < |a| ensures a[k] == Missing(rounds, max, size, k) {
      if k < |asked| {
        assert a[k] == asked[k];
      }
    }
  }

  /** After the first `k` rounds something is still missing. */
  predicate Wanted(rounds: seq<Round>, max: int, size: Sizes, k: nat)
    requires size.hal > 0 && k <= |rounds|
  {
    Missing(rounds, max, size, k) > 0
  }

  /** Round `k` gives no reason to stop. */
  predicate Passes(rounds: seq<Round>, max: int, size: Sizes, k: nat)
    requires size.hal > 0 && k < |rounds|
  {
    GoesOn(Reported(rounds, k, size), rounds[k], max, size)
  }

  /** Each of the first `k` rounds was needed and gave no reason to stop. */
  ghost predicate AllPass(rounds: seq<Round>, max: int, size: Sizes, k: nat)
    requires size.hal > 0 && k <= |rounds|
  {
    forall j :: 0 <= j < k ==> Wanted(rounds, max, size, j) && Passes(rounds, max, size, j)
  }

  /**
  Exactly `k` rounds are run: every one was needed, all but the last went on, and then ten were
  sent, the array was full, or the last one gave a reason to stop.
   */
  ghost predicate RunsUntil(rounds: seq<Round>, max: int, size: Sizes, k: nat)
    requires size.hal > 0 && k <= |rounds|
  {
    || (AllPass(rounds, max, size, k) && (k == MAX_ROUNDS || !Wanted(rounds, max, size, k)))
    || (k > 0 && AllPass(rounds, max, size, k - 1)
        && Wanted(rounds, max, size, k - 1) && !Passes(rounds, max, size, k - 1))
  }

  lemma RoundEnds(rounds: seq<Round>, max: int, size: Sizes, i: nat)
    requires size.hal > 0 && i < |rounds| && AllPass(rounds, max, size, i) && Wanted(rounds, max, size, i)
    ensures if Passes(rounds, max, size, i) then AllPass(rounds, max, size, i + 1)
            else RunsUntil(rounds, max, size, i + 1)
  {
  }

  /** The replies decide how many requests are sent: no smaller number of rounds qualifies. */
  lemma RunsUntilIsExact(rounds: seq<Round>, max: int, size: Sizes, j: nat, k: nat)
    requires size.hal > 0 && j < k <= MAX_ROUNDS && k <= |rounds| && RunsUntil(rounds, max, size, k)
    ensures !RunsUntil(rounds, max, size, j)
  {
    assert Wanted(rounds, max, size, j);
    if j > 0 {
      assert Passes(rounds, max, size, j - 1);
    }
  }

  lemma {:induction false} AttrsAppend(b: seq<Byte>, s: seq<Attr>, st: Total, size: Sizes)
    requires size.hal > 0
    ensures st.scans <= AttrFold(b, s, st, size).scans
    decreases |s|
  {
    if s != [] {
      AttrsAppend(b, s[1..], AttrStep(b, s[0], st, size), size);
    }
  }

  lemma {:induction false} MsgsAppend(ms: seq<Msg>, st: Total, size: Sizes)
    requires size.hal > 0
    ensures st.scans <= MsgsFold(ms, st, size).scans
    decreases |ms|
  {
    if ms != [] {
      AttrsAppend(ms[0].buf, Walked(ms[0]), st, size);
      MsgsAppend(ms[1..], AttrFold(ms[0].buf, Walked(ms[0]), st, size), size);
    }
  }

  /** A full array stays the right prefix whatever else is reported. */
  lemma StaysFull(out: seq<Scan>, got: nat, max: int, all: seq<Scan>, made: seq<Scan>, more: seq<Scan>)
    requires Filled(out, got, max, all + made) && got >= max && made <= more
    ensures Filled(out, got, max, all + more)
  {
    assert all + more == (all + made) + more[|made|..];
  }
}

/**
What the retrieval of scan results stores, said about the attributes of the replies: which value
each field of a scan has, which attributes make a scan, and what a message made of given scans
brings.
 */
module ScanContents {
  import opened Bytes
  import opened Netlink
  import opened ScanResults

  const START := Nested(0, 0, 0, 0, [])

  // ----- one step at a time

  lemma {:induction false} NestedAppend(b: seq<Byte>, s: seq<Attr>, a: Attr, st: Nested, size: Sizes)
    requires size.hal > 0
    ensures NestedFold(b, s + [a], st, size) == NestedStep(b, a, NestedFold(b, s, st, size), size)
    decreases |s|
  {
    if s == [] {
      assert (s + [a])[1..] == [];
    } else {
      assert (s + [a])[1..] == s[1..] + [a];
      NestedAppend(b, s[1..], a, NestedStep(b, s[0], st, size), size);
    }
  }

  /** The variables of the loop when it comes to attribute `j`. */
  function Before(b: seq<Byte>, s: seq<Attr>, j: nat, size: Sizes): Nested
    requires size.hal > 0 && j <= |s|
  {
    NestedFold(b, s[..j], START, size)
  }

  lemma BeforeNext(b: seq<Byte>, s: seq<Attr>, j: nat, size: Sizes)
    requires size.hal > 0 && j < |s|
    ensures Before(b, s, j + 1, size) == NestedStep(b, s[j], Before(b, s, j, size), size)
  {
    assert s[..j + 1] == s[..j] + [s[j]];
    NestedAppend(b, s[..j], s[j], START, size);
  }

  // ----- what was said last

  /** `x` is the number in the last attribute of type `ty` before `j`, or 0 without one. */
  ghost predicate SaysInt(b: seq<Byte>, s: seq<Attr>, j: nat, ty: nat, x: int) {
    (NoneOf(s, j, ty) && x == 0) || exists i: nat :: LastOf(s, j, ty, i) && x == S32(Read(b, s[i].off, 4))
  }

  /** The same for attributes of one byte. */
  ghost predicate SaysByte(b: seq<Byte>, s: seq<Attr>, j: nat, ty: nat, x: int) {
    (NoneOf(s, j, ty) && x == 0) || exists i: nat :: LastOf(s, j, ty, i) && x == ByteAt(b, s[i].off)
  }

  lemma SaysNext(b: seq<Byte>, s: seq<Attr>, j: nat, ty: nat, x: int)
    requires j < |s|
    ensures s[j].ty == ty ==> LastOf(s, j + 1, ty, j)
    ensures s[j].ty != ty && SaysInt(b, s, j, ty, x) ==> SaysInt(b, s, j + 1, ty, x)
    ensures s[j].ty != ty && SaysByte(b, s, j, ty, x) ==> SaysByte(b, s, j + 1, ty, x)
  {
    if s[j].ty != ty && !NoneOf(s, j, ty) {
      forall i: nat | LastOf(s, j, ty, i) ensures LastOf(s, j + 1, ty, i) {
      }
    }
  }

  /** The loop's id, flags and mask are what the attributes said last. */
  lemma {:induction false} SaidLast(b: seq<Byte>, s: seq<Attr>, j: nat, size: Sizes)
    requires size.hal > 0 && j <= |s|
    ensures SaysInt(b, s, j, SCAN_ID, Before(b, s, j, size).scanId)
    ensures SaysByte(b, s, j, SCAN_FLAGS, Before(b, s, j, size).flags)
    ensures SaysInt(b, s, j, CH_BUCKET_BITMASK, Before(b, s, j, size).mask)
  {
    if j > 0 {
      SaidLast(b, s, j - 1, size);
      SaidNext(b, s, j - 1, Before(b, s, j - 1, size), size);
      BeforeNext(b, s, j - 1, size);
    } else {
      assert s[..0] == [];
    }
  }

  lemma SaidNext(b: seq<Byte>, s: seq<Attr>, j: nat, st: Nested, size: Sizes)
    requires size.hal > 0 && j < |s|
    requires SaysInt(b, s, j, SCAN_ID, st.scanId) && SaysByte(b, s, j, SCAN_FLAGS, st.flags)
    requires SaysInt(b, s, j, CH_BUCKET_BITMASK, st.mask)
    ensures var next := NestedStep(b, s[j], st, size);
            && SaysInt(b, s, j + 1, SCAN_ID, next.scanId) && SaysByte(b, s, j + 1, SCAN_FLAGS, next.flags)
            && SaysInt(b, s, j + 1, CH_BUCKET_BITMASK, next.mask)
  {
    SaysNext(b, s, j, SCAN_ID, st.scanId);
    SaysNext(b, s, j, SCAN_FLAGS, st.flags);
    SaysNext(b, s, j, CH_BUCKET_BITMASK, st.mask);
    OneByte(b, s[j].off);
  }

  // ----- the count

  /** Attribute `k` is a list of records between the positions `i` and `j`. */
  predicate ListBetween(s: seq<Attr>, i: nat, j: nat, k: nat) {
    i < k < j <= |s| && s[k].ty == SCAN_RESULTS
  }

  /**
  `x` is the count announced by attribute `i`, cut by every list of records between `i` and `j`:
  to as many HAL records as fit its length, and to 32.
   */
  ghost predicate CutCount(b: seq<Byte>, s: seq<Attr>, i: nat, j: nat, hal: nat, x: int)
    requires hal > 0 && i < |s|
  {
    && x <= S32(Read(b, s[i].off, 4))
    && (forall k: nat :: ListBetween(s, i, j, k) ==> x <= s[k].len / hal && x <= 32)
    && (x == S32(Read(b, s[i].off, 4)) || exists k: nat :: ListBetween(s, i, j, k) && (x == s[k].len / hal || x == 32))
  }

  /** `x` is the count in force when the loop comes to attribute `j`; 0 when none was announced. */
  ghost predicate CountIs(b: seq<Byte>, s: seq<Attr>, j: nat, hal: nat, x: int)
    requires hal > 0
  {
    (NoneOf(s, j, NUM_OF_RESULTS) && x == 0)
    || exists i: nat :: LastOf(s, j, NUM_OF_RESULTS, i) && CutCount(b, s, i, j, hal, x)
  }

  lemma LastIsOne(s: seq<Attr>, j: nat, ty: nat, i: nat, k: nat)
    requires LastOf(s, j, ty, i) && LastOf(s, j, ty, k)
    ensures i == k
  {
  }

  lemma CutIsOne(b: seq<Byte>, s: seq<Attr>, i: nat, j: nat, hal: nat, x: int, y: int)
    requires hal > 0 && i < |s| && CutCount(b, s, i, j, hal, x) && CutCount(b, s, i, j, hal, y)
    ensures x == y
  {
  }

  /** There is one count. */
  lemma CountIsOne(b: seq<Byte>, s: seq<Attr>, j: nat, hal: nat, x: int, y: int)
    requires hal > 0 && CountIs(b, s, j, hal, x) && CountIs(b, s, j, hal, y)
    ensures x == y
  {
    if !NoneOf(s, j, NUM_OF_RESULTS) {
      var i: nat :| LastOf(s, j, NUM_OF_RESULTS, i) && CutCount(b, s, i, j, hal, x);
      var k: nat :| LastOf(s, j, NUM_OF_RESULTS, k) && CutCount(b, s, k, j, hal, y);
      LastIsOne(s, j, NUM_OF_RESULTS, i, k);
      CutIsOne(b, s, i, j, hal, x, y);
    }
  }

  lemma CutNext(b: seq<Byte>, s: seq<Attr>, i: nat, j: nat, hal: nat, x: int)
    requires hal > 0 && i < j < |s| && CutCount(b, s, i, j, hal, x)
    ensures CutCount(b, s, i, j + 1, hal, if s[j].ty == SCAN_RESULTS then Cap(x, s[j].len, hal) else x)
  {
    forall k: nat | ListBetween(s, i, j + 1, k) ensures k == j || ListBetween(s, i, j, k) {
    }
    if s[j].ty == SCAN_RESULTS {
      assert ListBetween(s, i, j + 1, j);
    }
    forall k: nat | ListBetween(s, i, j, k) ensures ListBetween(s, i, j + 1, k) {
    }
  }

  lemma CountNext(b: seq<Byte>, s: seq<Attr>, j: nat, hal: nat, x: int)
    requires hal > 0 && j < |s| && CountIs(b, s, j, hal, x) && s[j].ty != NUM_OF_RESULTS
    ensures CountIs(b, s, j + 1, hal, if s[j].ty == SCAN_RESULTS then Cap(x, s[j].len, hal) else x)
  {
    if NoneOf(s, j, NUM_OF_RESULTS) {
      assert NoneOf(s, j + 1, NUM_OF_RESULTS);
    } else {
      var i: nat :| LastOf(s, j, NUM_OF_RESULTS, i) && CutCount(b, s, i, j, hal, x);
      CountStays(b, s, i, j, hal, x);
    }
  }

  lemma CountStays(b: seq<Byte>, s: seq<Attr>, i: nat, j: nat, hal: nat, x: int)
    requires hal > 0 && j < |s| && LastOf(s, j, NUM_OF_RESULTS, i) && CutCount(b, s, i, j, hal, x)
    requires s[j].ty != NUM_OF_RESULTS
    ensures CountIs(b, s, j + 1, hal, if s[j].ty == SCAN_RESULTS then Cap(x, s[j].len, hal) else x)
  {
    CutNext(b, s, i, j, hal, x);
    assert LastOf(s, j + 1, NUM_OF_RESULTS, i);
  }

  lemma CountAnnounced(b: seq<Byte>, s: seq<Attr>, j: nat, hal: nat)
    requires hal > 0 && j < |s| && s[j].ty == NUM_OF_RESULTS
    ensures CountIs(b, s, j + 1, hal, S32(Read(b, s[j].off, 4)))
  {
    assert LastOf(s, j + 1, NUM_OF_RESULTS, j);
    assert CutCount(b, s, j, j + 1, hal, S32(Read(b, s[j].off, 4)));
  }

  /** The loop's number is that count. */
  lemma {:induction false} Counted(b: seq<Byte>, s: seq<Attr>, j: nat, size: Sizes)
    requires size.hal > 0 && j <= |s|
    ensures CountIs(b, s, j, size.hal, Before(b, s, j, size).num)
  {
    if j > 0 {
      Counted(b, s, j - 1, size);
      CountedNext(b, s, j - 1, size);
    } else {
      assert s[..0] == [];
    }
  }

  lemma CountedNext(b: seq<Byte>, s: seq<Attr>, j: nat, size: Sizes)
    requires size.hal > 0 && j < |s| && CountIs(b, s, j, size.hal, Before(b, s, j, size).num)
    ensures CountIs(b, s, j + 1, size.hal, Before(b, s, j + 1, size).num)
  {
    var before := Before(b, s, j, size);
    BeforeNext(b, s, j, size);
    CountStep(b, s[j], before, size);
    if s[j].ty == NUM_OF_RESULTS {
      CountAnnounced(b, s, j, size.hal);
    } else {
      CountNext(b, s, j, size.hal, before.num);
    }
  }

  lemma CountStep(b: seq<Byte>, a: Attr, st: Nested, size: Sizes)
    requires size.hal > 0
    ensures NestedStep(b, a, st, size).num
         == if a.ty == NUM_OF_RESULTS then S32(Read(b, a.off, 4))
            else if a.ty == SCAN_RESULTS then Cap(st.num, a.len, size.hal) else st.num
  {
  }

  // ----- the records

  lemma {:induction false} RecordIs(b: seq<Byte>, off: nat, stride: nat, n: nat, i: nat)
    requires i < n
    ensures BytesFrom(b, off + Times(i, stride), stride, Records(b, off, stride, n)[i])
    decreases n
  {
    if i == 0 {
      CopyIsBytes(b, off, stride);
    } else {
      RecordIs(b, off + stride, stride, n - 1, i - 1);
    }
  }

  lemma RecordsAre(b: seq<Byte>, off: nat, stride: nat, n: nat)
    ensures forall i :: 0 <= i < n ==> BytesFrom(b, off + Times(i, stride), stride, Records(b, off, stride, n)[i])
  {
    forall i | 0 <= i < n ensures BytesFrom(b, off + Times(i, stride), stride, Records(b, off, stride, n)[i]) {
      RecordIs(b, off, stride, n, i);
    }
  }

  // ----- which attributes make a scan, and which scan

  /** Attribute `j` makes a scan: it is a list of records and the count is not 0. */
  ghost predicate Makes(b: seq<Byte>, s: seq<Attr>, j: nat, hal: nat)
    requires hal > 0
  {
    j < |s| && s[j].ty == SCAN_RESULTS && !CountIs(b, s, j, hal, 0)
  }

  /** The scan made at `j`: id, flags and mask as said last, the count cut by this list too, and its records. */
  ghost predicate MadeAt(b: seq<Byte>, s: seq<Attr>, j: nat, size: Sizes, scan: Scan)
    requires size.hal > 0
  {
    && j < |s|
    && SaysInt(b, s, j, SCAN_ID, scan.scanId) && SaysByte(b, s, j, SCAN_FLAGS, scan.flags)
    && SaysInt(b, s, j, CH_BUCKET_BITMASK, scan.buckets)
    && CountIs(b, s, j + 1, size.hal, scan.numResults)
    && |scan.results| == Max0(scan.numResults)
    && forall i :: 0 <= i < |scan.results| ==>
         BytesFrom(b, s[j].off + Times(i, size.driver), size.driver, scan.results[i])
  }

  /** `at` are the positions that made the scans, in order. */
  ghost predicate MadeBy(b: seq<Byte>, s: seq<Attr>, m: nat, size: Sizes, scans: seq<Scan>, at: seq<nat>)
    requires size.hal > 0
  {
    && |at| == |scans|
    && (forall x, y :: 0 <= x < y < |at| ==> at[x] < at[y])
    && (forall j: nat :: j in at <==> j < m && Makes(b, s, j, size.hal))
    && (forall x :: 0 <= x < |at| ==> MadeAt(b, s, at[x], size, scans[x]))
  }

  lemma MakesNext(b: seq<Byte>, s: seq<Attr>, j: nat, size: Sizes)
    requires size.hal > 0 && j < |s|
    ensures Makes(b, s, j, size.hal) <==> s[j].ty == SCAN_RESULTS && Before(b, s, j, size).num != 0
    ensures Makes(b, s, j, size.hal) ==>
              && |Before(b, s, j + 1, size).scans| > 0
              && var n := |Before(b, s, j + 1, size).scans| - 1;
                 && Before(b, s, j + 1, size).scans[..n] == Before(b, s, j, size).scans
                 && MadeAt(b, s, j, size, Before(b, s, j + 1, size).scans[n])
    ensures !Makes(b, s, j, size.hal) ==> Before(b, s, j + 1, size).scans == Before(b, s, j, size).scans
  {
    var before := Before(b, s, j, size);
    Counted(b, s, j, size);
    if CountIs(b, s, j, size.hal, 0) {
      CountIsOne(b, s, j, size.hal, 0, before.num);
    }
    BeforeNext(b, s, j, size);
    if Makes(b, s, j, size.hal) {
      SaidLast(b, s, j, size);
      CountNext(b, s, j, size.hal, before.num);
      RecordsAre(b, s[j].off, size.driver, Max0(Cap(before.num, s[j].len, size.hal)));
    }
  }

  lemma {:induction false} MadeUpTo(b: seq<Byte>, s: seq<Attr>, m: nat, size: Sizes) returns (at: seq<nat>)
    requires size.hal > 0 && m <= |s|
    ensures MadeBy(b, s, m, size, Before(b, s, m, size).scans, at)
  {
    if m == 0 {
      assert s[..0] == [];
      return [];
    }
    at := MadeUpTo(b, s, m - 1, size);
    at := MadeOneMore(b, s, m - 1, size, at);
  }

  lemma MadeOneMore(b: seq<Byte>, s: seq<Attr>, m: nat, size: Sizes, at: seq<nat>) returns (more: seq<nat>)
    requires size.hal > 0 && m < |s| && MadeBy(b, s, m, size, Before(b, s, m, size).scans, at)
    ensures MadeBy(b, s, m + 1, size, Before(b, s, m + 1, size).scans, more)
  {
    MakesNext(b, s, m, size);
    var after := Before(b, s, m + 1, size).scans;
    if Makes(b, s, m, size.hal) {
      MadeNext(b, s, m, size, after[..|after| - 1], after[|after| - 1], at);
      assert after == after[..|after| - 1] + [after[|after| - 1]];
      more := at + [m];
    } else {
      MadeSame(b, s, m, size, after, at);
      more := at;
    }
  }

  lemma MadeNext(b: seq<Byte>, s: seq<Attr>, m: nat, size: Sizes, scans: seq<Scan>, scan: Scan, at: seq<nat>)
    requires size.hal > 0 && MadeBy(b, s, m, size, scans, at)
    requires Makes(b, s, m, size.hal) && MadeAt(b, s, m, size, scan)
    ensures MadeBy(b, s, m + 1, size, scans + [scan], at + [m])
  {
    forall x | 0 <= x < |at| ensures at[x] < m {
      assert at[x] in at;
    }
    forall j: nat ensures j in at + [m] <==> j < m + 1 && Makes(b, s, j, size.hal) {
      assert j in at <==> j < m && Makes(b, s, j, size.hal);
    }
  }

  lemma MadeSame(b: seq<Byte>, s: seq<Attr>, m: nat, size: Sizes, scans: seq<Scan>, at: seq<nat>)
    requires size.hal > 0 && MadeBy(b, s, m, size, scans, at) && !Makes(b, s, m, size.hal)
    ensures MadeBy(b, s, m + 1, size, scans, at)
  {
    forall j: nat ensures j in at <==> j < m + 1 && Makes(b, s, j, size.hal) {
      assert j in at <==> j < m && Makes(b, s, j, size.hal);
    }
  }

  /**
  The scans of a result nest: one for each list of records whose count is not 0, in order, each
  with the id, flags and mask that the attributes before it said last.
   */
  lemma ScansOfNest(b: seq<Byte>, a: Attr, size: Sizes) returns (at: seq<nat>)
    requires size.hal > 0
    ensures MadeBy(b, Inside(b, a), |Inside(b, a)|, size, ScansInside(b, a, size), at)
  {
    var s := Inside(b, a);
    at := MadeUpTo(b, s, |s|, size);
    assert s[..|s|] == s;
  }

  // ----- replies and rounds

  lemma {:induction false} AttrAppend(b: seq<Byte>, s: seq<Attr>, a: Attr, st: Total, size: Sizes)
    requires size.hal > 0
    ensures AttrFold(b, s + [a], st, size) == AttrStep(b, a, AttrFold(b, s, st, size), size)
    decreases |s|
  {
    if s == [] {
      assert (s + [a])[1..] == [];
    } else {
      assert (s + [a])[1..] == s[1..] + [a];
      AttrAppend(b, s[1..], a, AttrStep(b, s[0], st, size), size);
    }
  }

  /** Attribute `j` of a reply adds the scans of its nest if its type is from 30 to 36, and nothing otherwise. */
  lemma ScansOfAttr(b: seq<Byte>, s: seq<Attr>, j: nat, st: Total, size: Sizes)
    requires size.hal > 0 && j < |s|
    ensures AttrFold(b, s[..j + 1], st, size).scans
         == AttrFold(b, s[..j], st, size).scans + if 30 <= s[j].ty <= 36 then ScansInside(b, s[j], size) else []
  {
    assert s[..j + 1] == s[..j] + [s[j]];
    AttrAppend(b, s[..j], s[j], st, size);
  }

  /** The completion flag is the byte in the last attribute of its type, or what it was without one. */
  lemma {:induction false} LastFlag(b: seq<Byte>, s: seq<Attr>, m: nat, st: Total, size: Sizes)
    requires size.hal > 0 && m <= |s|
    ensures NoneOf(s, m, SCAN_RESULTS_COMPLETE) ==> AttrFold(b, s[..m], st, size).completed == st.completed
    ensures forall i: nat :: LastOf(s, m, SCAN_RESULTS_COMPLETE, i) ==>
              AttrFold(b, s[..m], st, size).completed == ByteAt(b, s[i].off)
  {
    if m > 0 {
      LastFlag(b, s, m - 1, st, size);
      FlagAt(b, s, m - 1, st, size);
      forall i: nat | LastOf(s, m, SCAN_RESULTS_COMPLETE, i)
        ensures i == m - 1 || LastOf(s, m - 1, SCAN_RESULTS_COMPLETE, i)
      {
      }
    }
  }

  lemma FlagAt(b: seq<Byte>, s: seq<Attr>, j: nat, st: Total, size: Sizes)
    requires size.hal > 0 && j < |s|
    ensures AttrFold(b, s[..j + 1], st, size).completed
         == if s[j].ty == SCAN_RESULTS_COMPLETE then ByteAt(b, s[j].off) else AttrFold(b, s[..j], st, size).completed
  {
    assert s[..j + 1] == s[..j] + [s[j]];
    AttrAppend(b, s[..j], s[j], st, size);
    OneByte(b, s[j].off);
  }

  lemma {:induction false} MsgAppend(ms: seq<Msg>, m: Msg, st: Total, size: Sizes)
    requires size.hal > 0
    ensures MsgsFold(ms + [m], st, size) == AttrFold(m.buf, Walked(m), MsgsFold(ms, st, size), size)
    decreases |ms|
  {
    if ms == [] {
      assert (ms + [m])[1..] == [];
    } else {
      assert (ms + [m])[1..] == ms[1..] + [m];
      MsgAppend(ms[1..], m, AttrFold(ms[0].buf, Walked(ms[0]), st, size), size);
    }
  }

  /** Reply `j` counts only if it is a vendor reply with data; its attributes are those behind the first header. */
  lemma ReplyAt(ms: seq<Msg>, j: nat, st: Total, size: Sizes)
    requires size.hal > 0 && j < |ms|
    ensures var m, before := ms[j], MsgsFold(ms[..j], st, size);
            MsgsFold(ms[..j + 1], st, size) == (
              if m.isVendor && m.hasData && m.len > 0
              then AttrFold(m.buf, Attrs(m.buf, 4, Read(m.buf, 0, 2) - 4), before, size)
              else before)
  {
    assert ms[..j + 1] == ms[..j] + [ms[j]];
    MsgAppend(ms[..j], ms[j], st, size);
  }

  /** A round whose request could not be made brings nothing; any other brings its replies, also when it fails. */
  lemma RoundAt(rounds: seq<Round>, k: nat, size: Sizes)
    requires size.hal > 0 && k < |rounds|
    ensures Reported(rounds, k + 1, size)
         == if rounds[k].created < 0 then Reported(rounds, k, size)
            else MsgsFold(rounds[k].msgs, Reported(rounds, k, size), size)
  {
  }

  /** Round `k` gives a reason to stop: an error, nothing new, or the completion flag. */
  predicate Stops(rounds: seq<Round>, k: nat, size: Sizes)
    requires size.hal > 0 && k < |rounds|
  {
    || rounds[k].created < 0 || rounds[k].err != 0
    || |Reported(rounds, k + 1, size).scans| == |Reported(rounds, k, size).scans|
    || Reported(rounds, k + 1, size).completed != 0
  }

  /** More than `k` rounds are worth asking for: the array is not full. */
  predicate Misses(rounds: seq<Round>, k: nat, max: int, size: Sizes)
    requires size.hal > 0 && k <= |rounds|
  {
    |Reported(rounds, k, size).scans| < max
  }

  /** How many requests are sent: until ten are, the array is full, or a round gives a reason to stop. */
  lemma RequestsSent(rounds: seq<Round>, max: int, size: Sizes, k: nat)
    requires size.hal > 0 && k <= |rounds|
    ensures RunsUntil(rounds, max, size, k) <==>
              && (forall j :: 0 <= j < k ==> Misses(rounds, j, max, size))
              && (forall j :: 0 <= j < k - 1 ==> !Stops(rounds, j, size))
              && (k == 10 || !Misses(rounds, k, max, size) || (k > 0 && Stops(rounds, k - 1, size)))
  {
    forall j | 0 <= j < k ensures Wanted(rounds, max, size, j) == Misses(rounds, j, max, size) {
    }
    forall j | 0 <= j < k && Misses(rounds, j, max, size)
      ensures Passes(rounds, max, size, j) == !Stops(rounds, j, size)
    {
      StopsIs(rounds, j, max, size);
    }
  }

  lemma StopsIs(rounds: seq<Round>, j: nat, max: int, size: Sizes)
    requires size.hal > 0 && j < |rounds| && Misses(rounds, j, max, size)
    ensures Passes(rounds, max, size, j) == !Stops(rounds, j, size)
  {
    if rounds[j].created >= 0 {
      MsgsAppend(rounds[j].msgs, Reported(rounds, j, size), size);
    }
  }

  // ----- a message made of given scans

  /** A scan as a driver sends it; `tail` is what may follow the records. */
  datatype Sent = Sent(scanId: int, flags: Byte, mask: int, records: seq<seq<Byte>>, tail: seq<Byte>)

  function Flat(records: seq<seq<Byte>>): seq<Byte> {
    if records == [] then [] else records[0] + Flat(records[1..])
  }

  function ScanItems(x: Sent): seq<Item> {
    [U32Item(SCAN_ID, x.scanId), Item(SCAN_FLAGS, [x.flags]), U32Item(CH_BUCKET_BITMASK, x.mask),
     U32Item(NUM_OF_RESULTS, |x.records|), Item(SCAN_RESULTS, Flat(x.records) + x.tail)]
  }

  /** Numbers that fit an int, and 1 to 32 records of the driver's size, with room for as many HAL records. */
  predicate Sendable(x: Sent, size: Sizes) {
    && -0x8000_0000 <= x.scanId < 0x8000_0000 && -0x8000_0000 <= x.mask < 0x8000_0000
    && 1 <= |x.records| <= 32 && (forall i :: 0 <= i < |x.records| ==> |x.records[i]| == size.driver)
    && Times(|x.records|, size.hal) <= |Flat(x.records) + x.tail|
  }

  /** The slot it should fill. */
  function Slot(x: Sent): Scan { Scan(x.scanId, x.flags, |x.records|, x.mask, x.records) }

  lemma {:induction false} RecordsBack(b: seq<Byte>, off: nat, stride: nat, records: seq<seq<Byte>>, tail: seq<Byte>)
    requires At(b, off, Flat(records) + tail) && forall i :: 0 <= i < |records| ==> |records[i]| == stride
    ensures Records(b, off, stride, |records|) == records
    decreases |records|
  {
    if records != [] {
      var rest := Flat(records[1..]) + tail;
      ConcatAssoc(records[0], Flat(records[1..]), tail);
      AtConcat(b, off, records[0], rest);
      CopyBack(b, off, records[0]);
      RecordsBack(b, off + stride, stride, records[1..], tail);
    }
  }

  lemma QuotientTimes(len: nat, hal: nat)
    requires hal > 0
    ensures len < Times(len / hal, hal) + hal
  {
    var q := len / hal;
    TimesIsProduct(q, hal);
    assert len == q * hal + len % hal;
  }

  lemma CapWhole(n: nat, len: nat, hal: nat)
    requires hal > 0 && n <= 32 && Times(n, hal) <= len
    ensures Cap(n, len, hal) == n
  {
    QuotientTimes(len, hal);
    if len / hal < n {
      TimesGrows(len / hal, n, hal);
    }
  }

  /** Five attributes, taken one by one. */
  lemma FoldOfFive(b: seq<Byte>, s: seq<Attr>, st: Nested, size: Sizes)
    requires size.hal > 0 && |s| == 5
    ensures NestedFold(b, s, st, size)
         == NestedStep(b, s[4], NestedStep(b, s[3], NestedStep(b, s[2], NestedStep(b, s[1],
              NestedStep(b, s[0], st, size), size), size), size), size)
  {
    var st1 := NestedStep(b, s[0], st, size);
    var st2 := NestedStep(b, s[1], st1, size);
    var st3 := NestedStep(b, s[2], st2, size);
    assert NestedFold(b, s, st, size) == NestedFold(b, s[1..], st1, size);
    assert NestedFold(b, s[1..], st1, size) == NestedFold(b, s[1..][1..], st2, size);
    assert s[1..][1..] == s[2..] && s[2..][1..] == s[3..] && s[3..][1..] == s[4..] && s[4..][1..] == [];
    assert NestedFold(b, s[2..], st2, size) == NestedFold(b, s[3..], st3, size);
    assert NestedFold(b, s[3..], st3, size) == NestedFold(b, s[4..], NestedStep(b, s[3], st3, size), size);
  }

  /** A nest made of one scan brings that scan. */
  lemma NestBringsScan(b: seq<Byte>, a: Attr, ty: nat, x: Sent, size: Sizes)
    requires size.hal > 0 && Sendable(x, size) && Carries(b, a, Nest(ty, ScanItems(x))) && AllFit(ScanItems(x))
    ensures ScansInside(b, a, size) == [Slot(x)]
  {
    var xs, s := ScanItems(x), Inside(b, a);
    WalkFindsNested(b, a, ty, xs);
    CarryAt(b, s, xs, 0);
    CarryAt(b, s, xs, 1);
    CarryAt(b, s, xs, 2);
    CarryAt(b, s, xs, 3);
    CarryAt(b, s, xs, 4);
    FoldOfFive(b, s, START, size);
    NumbersBack(b, s, x);
    RecordsBack(b, s[4].off, size.driver, x.records, x.tail);
    CapWhole(|x.records|, s[4].len, size.hal);
  }

  lemma NumbersBack(b: seq<Byte>, s: seq<Attr>, x: Sent)
    requires |s| == 5 && -0x8000_0000 <= x.scanId < 0x8000_0000 && -0x8000_0000 <= x.mask < 0x8000_0000
    requires |x.records| <= 32
    requires Carries(b, s[0], U32Item(SCAN_ID, x.scanId)) && Carries(b, s[1], Item(SCAN_FLAGS, [x.flags]))
    requires Carries(b, s[2], U32Item(CH_BUCKET_BITMASK, x.mask))
    requires Carries(b, s[3], U32Item(NUM_OF_RESULTS, |x.records|))
    ensures S32(Read(b, s[0].off, 4)) == x.scanId && Read(b, s[1].off, 1) == x.flags
    ensures S32(Read(b, s[2].off, 4)) == x.mask && S32(Read(b, s[3].off, 4)) == |x.records|
  {
    ReadsU32(b, s[0], SCAN_ID, x.scanId);
    ReadsU32(b, s[2], CH_BUCKET_BITMASK, x.mask);
    ReadsU32(b, s[3], NUM_OF_RESULTS, |x.records|);
    SignedAgain(x.scanId);
    SignedAgain(x.mask);
    SignedAgain(|x.records|);
    OneByte(b, s[1].off);
  }

  /** A reply: one nest for each scan, and then the completion flag. */
  function ReplyItems(xs: seq<Sent>, flag: Byte): seq<Item> {
    if xs == [] then [Item(SCAN_RESULTS_COMPLETE, [flag])]
    else [Nest(NUM_OF_RESULTS, ScanItems(xs[0]))] + ReplyItems(xs[1..], flag)
  }

  function Slots(xs: seq<Sent>): seq<Scan> {
    if xs == [] then [] else [Slot(xs[0])] + Slots(xs[1..])
  }

  /** `s` are the attributes of a reply made of the scans `xs`, all of which can be sent. */
  ghost predicate Arrives(b: seq<Byte>, s: seq<Attr>, xs: seq<Sent>, flag: Byte, size: Sizes) {
    && AllCarry(b, s, ReplyItems(xs, flag)) && |EncodeAll(ReplyItems(xs, flag))| < 0x1_0000
    && forall i :: 0 <= i < |xs| ==> Sendable(xs[i], size)
  }

  lemma {:induction false} ItemsBring(b: seq<Byte>, s: seq<Attr>, xs: seq<Sent>, flag: Byte, st: Total, size: Sizes)
    requires size.hal > 0 && Arrives(b, s, xs, flag, size)
    ensures AttrFold(b, s, st, size) == Total(st.scans + Slots(xs), flag)
    decreases |xs|
  {
    if xs == [] {
      FlagBrings(b, s, flag, st, size);
    } else {
      var next := Total(st.scans + [Slot(xs[0])], st.completed);
      FirstItemBrings(b, s, xs, flag, st, size);
      ItemsBring(b, s[1..], xs[1..], flag, next, size);
      ConcatAssoc(st.scans, [Slot(xs[0])], Slots(xs[1..]));
    }
  }

  lemma FlagBrings(b: seq<Byte>, s: seq<Attr>, flag: Byte, st: Total, size: Sizes)
    requires size.hal > 0 && Arrives(b, s, [], flag, size)
    ensures AttrFold(b, s, st, size) == st.(completed := flag)
  {
    CarryAt(b, s, ReplyItems([], flag), 0);
    OneByte(b, s[0].off);
    assert AttrFold(b, s, st, size) == AttrFold(b, s[1..], AttrStep(b, s[0], st, size), size);
  }

  lemma FirstItemBrings(b: seq<Byte>, s: seq<Attr>, xs: seq<Sent>, flag: Byte, st: Total, size: Sizes)
    requires size.hal > 0 && xs != [] && Arrives(b, s, xs, flag, size)
    ensures s != [] && AttrStep(b, s[0], st, size) == Total(st.scans + [Slot(xs[0])], st.completed)
    ensures Arrives(b, s[1..], xs[1..], flag, size)
  {
    var items, nest := ReplyItems(xs, flag), Nest(NUM_OF_RESULTS, ScanItems(xs[0]));
    CarryAt(b, s, items, 0);
    assert items[1..] == ReplyItems(xs[1..], flag);
    ItemWithin(items, nest);
    AllFitWithin(ScanItems(xs[0]));
    NestBringsScan(b, s[0], NUM_OF_RESULTS, xs[0], size);
  }

  /** The bytes of that reply, inside the attribute its vendor data starts with. */
  function ReplyOf(xs: seq<Sent>, flag: Byte): Msg {
    var b := Encode(Nest(0, ReplyItems(xs, flag)));
    Msg(true, true, b, |b|)
  }

  /** A reply made of given scans adds exactly those, and sets the flag it carries. */
  lemma ReplyBrings(xs: seq<Sent>, flag: Byte, st: Total, size: Sizes)
    requires size.hal > 0 && NLA_HDRLEN + |EncodeAll(ReplyItems(xs, flag))| < 0x1_0000
    requires forall i :: 0 <= i < |xs| ==> Sendable(xs[i], size)
    ensures MsgsFold([ReplyOf(xs, flag)], st, size) == Total(st.scans + Slots(xs), flag)
  {
    var m := ReplyOf(xs, flag);
    ReplyFits(xs, flag);
    ReplyWalked(m, ReplyItems(xs, flag));
    ReplyArrives(m.buf, Walked(m), xs, flag, st, size);
    OneReply(m, st, size);
  }

  lemma ReplyFits(xs: seq<Sent>, flag: Byte)
    requires |EncodeAll(ReplyItems(xs, flag))| < 0x1_0000
    ensures AllFit(ReplyItems(xs, flag))
  {
    ItemTypes(xs, flag);
    AllFitWithin(ReplyItems(xs, flag));
  }

  lemma ReplyWalked(m: Msg, items: seq<Item>)
    requires m.isVendor && m.hasData && m.len > 0 && m.buf == Encode(Nest(0, items))
    requires NLA_HDRLEN + |EncodeAll(items)| < 0x1_0000 && AllFit(items)
    ensures AllCarry(m.buf, Walked(m), items)
  {
    WalkOfNest(0, items);
  }

  lemma ReplyArrives(b: seq<Byte>, s: seq<Attr>, xs: seq<Sent>, flag: Byte, st: Total, size: Sizes)
    requires size.hal > 0 && AllCarry(b, s, ReplyItems(xs, flag)) && |EncodeAll(ReplyItems(xs, flag))| < 0x1_0000
    requires forall i :: 0 <= i < |xs| ==> Sendable(xs[i], size)
    ensures AttrFold(b, s, st, size) == Total(st.scans + Slots(xs), flag)
  {
    ItemsBring(b, s, xs, flag, st, size);
  }

  lemma OneReply(m: Msg, st: Total, size: Sizes)
    requires size.hal > 0
    ensures MsgsFold([m], st, size) == AttrFold(m.buf, Walked(m), st, size)
  {
    assert [m][1..] == [];
    assert MsgsFold([m], st, size) == MsgsFold([], AttrFold(m.buf, Walked(m), st, size), size);
  }

  lemma {:induction false} ItemTypes(xs: seq<Sent>, flag: Byte)
    ensures forall x :: x in ReplyItems(xs, flag) ==> x.ty == NUM_OF_RESULTS || x.ty == SCAN_RESULTS_COMPLETE
  {
    if xs != [] {
      ItemTypes(xs[1..], flag);
    }
  }
}

/**
The gscan set-up request (ScanCommand::createSetupRequest, wifi_hal/gscan.cpp): buckets and
channel lists written as nested attributes, and the reading of such a message back with the
attribute walk that a receiver does, position by position.
 */
module ScanSetup {
  import HT = HandlerTables
  import opened Options
  import opened Bytes
  import opened Netlink

  const SET_CONFIG := 0x1001
  const ATTR_IFINDEX := 3
  const ATTR_VENDOR_ID := 195
  const ATTR_VENDOR_SUBCMD := 196
  const ATTR_VENDOR_DATA := 197
  const NUM_BUCKETS := 10
  const BASE_PERIOD := 11
  const BUCKETS_BAND := 12
  const BUCKET_ID := 13
  const BUCKET_PERIOD := 14
  const BUCKET_NUM_CHANNELS := 15
  const BUCKET_CHANNELS := 16
  const REPORT_EVENTS := 24
  const BUCKET_STEP_COUNT := 25
  const BUCKET_MAX_PERIOD := 26
  const BAND_UNSPECIFIED := 0
  const BAND_ABG := 3
  const BAND_ABG_WITH_DFS := 7

  /** `channels` is the whole fixed-size array of the caller; the first `numChannels` count, none if negative. */
  datatype Bucket = Bucket(bucket: int, period: int, band: int, stepCount: int, maxPeriod: int,
                           reportEvents: int, numChannels: int, channels: seq<int>)

  predicate Valid(k: Bucket) { k.numChannels <= |k.channels| }

  /** The bucket after the parameter check: a band out of range becomes ABG. */
  function Checked(k: Bucket): (r: Bucket)
    ensures r == k.(band := r.band) && r.band == if 0 <= k.band <= 7 then k.band else 3
  {
    if k.band < BAND_UNSPECIFIED || k.band > BAND_ABG_WITH_DFS then k.(band := BAND_ABG) else k
  }

  // ----- the attributes of a request

  datatype Field = Field(ty: nat, value: int)

  function FieldItems(fs: seq<Field>): (r: seq<Item>)
    ensures |r| == |fs| && forall i :: 0 <= i < |fs| ==> r[i] == U32Item(fs[i].ty, fs[i].value)
  {
    seq(|fs|, i requires 0 <= i < |fs| => U32Item(fs[i].ty, fs[i].value))
  }

  function BucketFields(k: Bucket): seq<Field> {
    [Field(BUCKET_ID, k.bucket), Field(BUCKET_PERIOD, k.period), Field(BUCKETS_BAND, k.band),
     Field(BUCKET_STEP_COUNT, k.stepCount), Field(BUCKET_MAX_PERIOD, k.maxPeriod),
     Field(REPORT_EVENTS, k.reportEvents), Field(BUCKET_NUM_CHANNELS, k.numChannels)]
  }

  /** Channel `j` is sent under type `j`. */
  function ChannelFields(channels: seq<int>): (r: seq<Field>)
    ensures |r| == |channels| && forall j :: 0 <= j < |r| ==> r[j] == Field(j, channels[j])
  {
    seq(|channels|, j requires 0 <= j < |channels| => Field(j, channels[j]))
  }

  function ChannelNest(k: Bucket): Item
    requires Valid(k)
  {
    Nest(BUCKET_CHANNELS, FieldItems(ChannelFields(k.channels[..Max0(k.numChannels)])))
  }

  function BucketItems(k: Bucket): seq<Item>
    requires Valid(k)
  {
    FieldItems(BucketFields(k)) + (if k.numChannels == 0 then [] else [ChannelNest(k)])
  }

  /** Bucket `i` is sent under type `i`. */
  function BucketNests(ks: seq<Bucket>): (r: seq<Item>)
    requires forall k :: k in ks ==> Valid(k)
    ensures |r| == |ks| && forall i :: 0 <= i < |ks| ==> r[i] == Nest(i, BucketItems(ks[i]))
  {
    seq(|ks|, i requires 0 <= i < |ks| => Nest(i, BucketItems(ks[i])))
  }

  function DataFields(basePeriod: int, numBuckets: int): seq<Field> {
    [Field(BASE_PERIOD, basePeriod), Field(NUM_BUCKETS, numBuckets)]
  }

  function DataItems(basePeriod: int, numBuckets: int, ks: seq<Bucket>): seq<Item>
    requires forall k :: k in ks ==> Valid(k)
  {
    FieldItems(DataFields(basePeriod, numBuckets)) + BucketNests(ks)
  }

  function EnvelopeFields(iface: int): seq<Field> {
    [Field(ATTR_VENDOR_ID, HT.GOOGLE_OUI), Field(ATTR_VENDOR_SUBCMD, SET_CONFIG)]
    + if iface == -1 then [] else [Field(ATTR_IFINDEX, iface)]
  }

  function RequestItems(iface: int, basePeriod: int, numBuckets: int, ks: seq<Bucket>): seq<Item>
    requires forall k :: k in ks ==> Valid(k)
  {
    FieldItems(EnvelopeFields(iface)) + [Nest(ATTR_VENDOR_DATA, DataItems(basePeriod, numBuckets, ks))]
  }

  // ----- sizes

  lemma FieldBytesNext(fs: seq<Field>, i: nat)
    requires i < |fs|
    ensures EncodeAll(FieldItems(fs[..i + 1]))
         == EncodeAll(FieldItems(fs[..i])) + Encode(U32Item(fs[i].ty, fs[i].value))
  {
    var x := U32Item(fs[i].ty, fs[i].value);
    assert FieldItems(fs[..i + 1]) == FieldItems(fs[..i]) + [x];
    EncodeAllAppend(FieldItems(fs[..i]), x);
  }

  lemma {:induction false} FieldSizes(fs: seq<Field>)
    ensures |EncodeAll(FieldItems(fs))| == 8 * |fs|
    decreases |fs|
  {
    if fs != [] {
      var n := |fs| - 1;
      FieldSizes(fs[..n]);
      FieldBytesNext(fs, n);
      assert fs[..n + 1] == fs;
    }
  }

  /** One more field behind a message that ends in the fields up to `i`. */
  lemma FieldsNext(base: seq<Byte>, fs: seq<Field>, i: nat)
    requires i < |fs|
    ensures base + EncodeAll(FieldItems(fs[..i + 1]))
         == base + EncodeAll(FieldItems(fs[..i])) + Encode(U32Item(fs[i].ty, fs[i].value))
  {
    FieldBytesNext(fs, i);
    ConcatAssoc(base, EncodeAll(FieldItems(fs[..i])), Encode(U32Item(fs[i].ty, fs[i].value)));
  }

  // ----- writing

  /** A run of put_u32 calls, each followed by "if (result < 0) return result". */
  method PutFields(req: WifiRequest, fs: seq<Field>) returns (result: int)
    requires req.Valid()
    modifies req
    ensures req.Valid() && result <= 0
    ensures result == 0 <==> |old(req.msg)| + 8 * |fs| <= req.capacity
    ensures result == 0 ==> req.msg == old(req.msg) + EncodeAll(FieldItems(fs))
  {
    ghost var base := req.msg;
    result := 0;
    for i := 0 to |fs|
      invariant result == 0 && req.Valid()
      invariant req.msg == base + EncodeAll(FieldItems(fs[..i]))
      invariant |req.msg| == |base| + 8 * i
    {
      FieldsNext(base, fs, i);
      result := req.PutU32(fs[i].ty, fs[i].value);
      if result < 0 {
        return;
      }
    }
    assert fs[..|fs|] == fs;
  }

  /**
  The channel nest; an attr_start without room shows at the first put.  With a negative count
  there is no put, and attr_end would be given NULL; that is reported as a failure here.
   */
  method PutChannels(req: WifiRequest, k: Bucket) returns (result: int)
    requires req.Valid() && Valid(k) && k.numChannels != 0
    modifies req
    ensures req.Valid() && result <= 0
    ensures result == 0 <==> |old(req.msg)| + |Encode(ChannelNest(k))| <= req.capacity
    ensures result == 0 ==> req.msg == old(req.msg) + Encode(ChannelNest(k))
  {
    ghost var base := req.msg;
    var fs := ChannelFields(k.channels[..Max0(k.numChannels)]);
    FieldSizes(fs);
    var ok, start := req.AttrStart(BUCKET_CHANNELS);
    result := PutFields(req, fs);
    if result < 0 {
      return;
    }
    if !ok {
      return -NLE_NOMEM;
    }
    req.AttrEnd(start, base, BUCKET_CHANNELS, FieldItems(fs));
  }

  lemma BucketBytes(k: Bucket)
    requires Valid(k)
    ensures EncodeAll(BucketItems(k))
         == EncodeAll(FieldItems(BucketFields(k))) + (if k.numChannels == 0 then [] else Encode(ChannelNest(k)))
  {
    if k.numChannels == 0 {
      assert BucketItems(k) == FieldItems(BucketFields(k));
    } else {
      EncodeAllAppend(FieldItems(BucketFields(k)), ChannelNest(k));
    }
  }

  lemma BucketSize(i: nat, k: Bucket)
    requires Valid(k)
    ensures |Encode(Nest(i, BucketItems(k)))| == 60 + (if k.numChannels == 0 then 0 else |Encode(ChannelNest(k))|)
  {
    FieldSizes(BucketFields(k));
    BucketBytes(k);
    NestBytes(i, BucketItems(k));
  }

  method PutBucket(req: WifiRequest, i: nat, k: Bucket) returns (result: int)
    requires req.Valid() && Valid(k)
    modifies req
    ensures req.Valid() && result <= 0
    ensures result == 0 <==> |old(req.msg)| + |Encode(Nest(i, BucketItems(k)))| <= req.capacity
    ensures result == 0 ==> req.msg == old(req.msg) + Encode(Nest(i, BucketItems(k)))
  {
    ghost var base := req.msg;
    BucketBytes(k);
    BucketSize(i, k);
    var ok, start := req.AttrStart(i);
    result := PutFields(req, BucketFields(k));
    if result < 0 {
      return;
    }
    if k.numChannels != 0 {
      result := PutChannels(req, k);
      if result < 0 {
        return;
      }
    }
    ghost var open, fields := base + OpenHeader(i), EncodeAll(FieldItems(BucketFields(k)));
    ConcatAssoc(open, fields, if k.numChannels == 0 then [] else Encode(ChannelNest(k)));
    assert req.msg == open + EncodeAll(BucketItems(k));
    req.AttrEnd(start, base, i, BucketItems(k));
  }

  /** What a later bucket adds does not make an earlier one fit. */
  lemma {:induction false} DataSizes(basePeriod: int, numBuckets: int, ks: seq<Bucket>, i: nat)
    requires (forall k :: k in ks ==> Valid(k)) && i <= |ks|
    ensures |EncodeAll(DataItems(basePeriod, numBuckets, ks[..i]))| + 60 * (|ks| - i)
         <= |EncodeAll(DataItems(basePeriod, numBuckets, ks))|
    decreases |ks| - i
  {
    if i < |ks| {
      DataSizes(basePeriod, numBuckets, ks, i + 1);
      DataStep(basePeriod, numBuckets, ks, i);
      BucketSize(i, ks[i]);
    } else {
      assert ks[..i] == ks;
    }
  }

  lemma DataStep(basePeriod: int, numBuckets: int, ks: seq<Bucket>, i: nat)
    requires (forall k :: k in ks ==> Valid(k)) && i < |ks|
    ensures EncodeAll(DataItems(basePeriod, numBuckets, ks[..i + 1]))
         == EncodeAll(DataItems(basePeriod, numBuckets, ks[..i])) + Encode(Nest(i, BucketItems(ks[i])))
  {
    assert BucketNests(ks[..i + 1]) == BucketNests(ks[..i]) + [Nest(i, BucketItems(ks[i]))];
    ConcatAssoc(FieldItems(DataFields(basePeriod, numBuckets)), BucketNests(ks[..i]), [Nest(i, BucketItems(ks[i]))]);
    EncodeAllAppend(DataItems(basePeriod, numBuckets, ks[..i]), Nest(i, BucketItems(ks[i])));
  }

  /** The vendor data starts with its two numbers. */
  lemma DataHead(basePeriod: int, numBuckets: int, ks: seq<Bucket>)
    requires forall k :: k in ks ==> Valid(k)
    ensures DataItems(basePeriod, numBuckets, ks[..0]) == FieldItems(DataFields(basePeriod, numBuckets))
    ensures |EncodeAll(FieldItems(DataFields(basePeriod, numBuckets)))| == 16
    ensures |EncodeAll(DataItems(basePeriod, numBuckets, ks))| >= 16
  {
    assert DataItems(basePeriod, numBuckets, ks[..0]) == FieldItems(DataFields(basePeriod, numBuckets));
    FieldSizes(DataFields(basePeriod, numBuckets));
    DataSizes(basePeriod, numBuckets, ks, 0);
  }

  /** One more bucket behind a message that ends in the buckets up to `i`. */
  lemma DataNext(base: seq<Byte>, basePeriod: int, numBuckets: int, ks: seq<Bucket>, i: nat)
    requires (forall k :: k in ks ==> Valid(k)) && i < |ks|
    ensures base + EncodeAll(DataItems(basePeriod, numBuckets, ks[..i + 1]))
         == base + EncodeAll(DataItems(basePeriod, numBuckets, ks[..i])) + Encode(Nest(i, BucketItems(ks[i])))
    ensures |EncodeAll(DataItems(basePeriod, numBuckets, ks[..i + 1]))|
         <= |EncodeAll(DataItems(basePeriod, numBuckets, ks))|
  {
    DataStep(basePeriod, numBuckets, ks, i);
    DataSizes(basePeriod, numBuckets, ks, i + 1);
    ConcatAssoc(base, EncodeAll(DataItems(basePeriod, numBuckets, ks[..i])), Encode(Nest(i, BucketItems(ks[i]))));
  }

  /** The parameter check of one bucket, written back into the caller's array, and its nest. */
  method CheckAndPutBucket(req: WifiRequest, i: nat, buckets: array<Bucket>) returns (result: int)
    requires req.Valid() && i < buckets.Length && Valid(buckets[i])
    modifies req, buckets
    ensures req.Valid() && result <= 0
    ensures var k := old(buckets[i]).(band := if 0 <= old(buckets[i].band) <= 7 then old(buckets[i].band) else 3);
            var x := Encode(Nest(i, BucketItems(k)));
            && buckets[..] == old(buckets[..])[i := k]
            && (result == 0 <==> |old(req.msg)| + |x| <= req.capacity)
            && (result == 0 ==> req.msg == old(req.msg) + x)
  {
    if buckets[i].band < BAND_UNSPECIFIED || buckets[i].band > BAND_ABG_WITH_DFS {
      buckets[i] := buckets[i].(band := BAND_ABG);
    }
    result := PutBucket(req, i, buckets[i]);
  }

  /** Checked buckets up to `n`, the others as they were. */
  function CheckedTo(ks: seq<Bucket>, n: nat): (r: seq<Bucket>)
    requires n <= |ks|
    ensures |r| == |ks| && forall i :: 0 <= i < |ks| ==> r[i] == if i < n then Checked(ks[i]) else ks[i]
  {
    seq(|ks|, i requires 0 <= i < |ks| => if i < n then Checked(ks[i]) else ks[i])
  }

  lemma CheckedStep(ks: seq<Bucket>, n: nat)
    requires n < |ks|
    ensures CheckedTo(ks, n)[n] == ks[n]
    ensures CheckedTo(ks, n)[n := Checked(ks[n])] == CheckedTo(ks, n + 1)
  {
  }

  /** The buckets that are sent: the first `n`, checked. */
  function Sent(all: seq<Bucket>, n: nat): (r: seq<Bucket>)
    requires n <= |all|
    ensures |r| == n && forall i :: 0 <= i < n ==> r[i] == Checked(all[i])
  {
    seq(n, i requires 0 <= i < n => Checked(all[i]))
  }

  lemma SentAreValid(all: seq<Bucket>, n: nat)
    requires n <= |all| && forall i :: 0 <= i < n ==> Valid(all[i])
    ensures forall k :: k in Sent(all, n) ==> Valid(k)
  {
    forall i | 0 <= i < n ensures Valid(Sent(all, n)[i]) {
      assert Valid(all[i]);
    }
  }

  /** The two leading fields and the bucket loop, inside the open vendor data nest. */
  method PutData(req: WifiRequest, basePeriod: int, numBuckets: int, buckets: array<Bucket>, ghost ks: seq<Bucket>)
      returns (result: int)
    requires req.Valid() && numBuckets <= buckets.Length && ks == Sent(buckets[..], Max0(numBuckets))
    requires (forall i :: 0 <= i < numBuckets ==> Valid(buckets[i])) && forall k :: k in ks ==> Valid(k)
    modifies req, buckets
    ensures req.Valid() && result <= 0
    ensures var data := EncodeAll(DataItems(basePeriod, numBuckets, ks));
            && (result == 0 <==> |old(req.msg)| + |data| <= req.capacity)
            && (result == 0 ==> req.msg == old(req.msg) + data)
    ensures result == 0 ==> buckets[..] == CheckedTo(old(buckets[..]), Max0(numBuckets))
    ensures exists m :: 0 <= m <= Max0(numBuckets) && buckets[..] == CheckedTo(old(buckets[..]), m)
  {
    ghost var base, all, n := req.msg, buckets[..], Max0(numBuckets);
    assert all == CheckedTo(all, 0);
    DataHead(basePeriod, numBuckets, ks);
    result := PutFields(req, DataFields(basePeriod, numBuckets));
    if result < 0 {
      return;
    }
    var i := 0;
    while i < numBuckets
      invariant 0 <= i <= n && result == 0 && req.Valid()
      invariant req.msg == base + EncodeAll(DataItems(basePeriod, numBuckets, ks[..i]))
      invariant buckets[..] == CheckedTo(all, i)
    {
      DataNext(base, basePeriod, numBuckets, ks, i);
      CheckedStep(all, i);
      assert buckets[i] == buckets[..][i] == all[i];
      result := CheckAndPutBucket(req, i, buckets);
      if result < 0 {
        return;
      }
      i := i + 1;
    }
    assert ks[..i] == ks;
  }

  // ----- reading a message back

  datatype WireBucket = WireBucket(id: nat, period: nat, band: nat, stepCount: nat, maxPeriod: nat,
                                   reportEvents: nat, numChannels: nat, channels: seq<nat>)

  datatype WireSetup = WireSetup(vendorId: nat, subcmd: nat, iface: Option<nat>,
                                 basePeriod: nat, numBuckets: nat, buckets: seq<WireBucket>)

  /** Attributes of exactly these types, each holding a 32-bit number. */
  predicate Numbers(s: seq<Attr>, types: seq<nat>) {
    |s| == |types| && forall i :: 0 <= i < |s| ==> s[i].ty == types[i] && s[i].len == 4
  }

  function Num(b: seq<Byte>, a: Attr): nat { Read(b, a.off, 4) }

  function Count(n: nat): (r: seq<nat>)
    ensures |r| == n && forall i :: 0 <= i < n ==> r[i] == i
  {
    seq(n, i => i)
  }

  const BUCKET_TYPES: seq<nat> :=
    [BUCKET_ID, BUCKET_PERIOD, BUCKETS_BAND, BUCKET_STEP_COUNT, BUCKET_MAX_PERIOD, REPORT_EVENTS, BUCKET_NUM_CHANNELS]

  predicate IsBucket(b: seq<Byte>, a: Attr, i: nat) {
    var s := Inside(b, a);
    && a.ty == i && 7 <= |s| <= 8 && Numbers(s[..7], BUCKET_TYPES)
    && (|s| == 8 ==> s[7].ty == BUCKET_CHANNELS && Numbers(Inside(b, s[7]), Count(|Inside(b, s[7])|)))
  }

  function ReadBucket(b: seq<Byte>, a: Attr): WireBucket
    requires 7 <= |Inside(b, a)| <= 8
  {
    var s := Inside(b, a);
    var channels := if |s| == 7 then [] else Inside(b, s[7]);
    WireBucket(Num(b, s[0]), Num(b, s[1]), Num(b, s[2]), Num(b, s[3]), Num(b, s[4]), Num(b, s[5]), Num(b, s[6]),
               seq(|channels|, j requires 0 <= j < |channels| => Num(b, channels[j])))
  }

  const DATA_TYPES: seq<nat> := [BASE_PERIOD, NUM_BUCKETS]

  predicate IsData(b: seq<Byte>, a: Attr) {
    var s := Inside(b, a);
    a.ty == ATTR_VENDOR_DATA && |s| >= 2 && Numbers(s[..2], DATA_TYPES) && AreBuckets(b, s[2..])
  }

  predicate AreBuckets(b: seq<Byte>, s: seq<Attr>) {
    forall i :: 0 <= i < |s| ==> IsBucket(b, s[i], i)
  }

  function ReadBuckets(b: seq<Byte>, s: seq<Attr>): (r: seq<WireBucket>)
    requires AreBuckets(b, s)
    ensures |r| == |s| && forall i :: 0 <= i < |s| ==> r[i] == ReadBucket(b, s[i])
  {
    seq(|s|, i requires 0 <= i < |s| => ReadBucket(b, s[i]))
  }

  const ENVELOPE_TYPES: seq<nat> := [ATTR_VENDOR_ID, ATTR_VENDOR_SUBCMD]
  const ENVELOPE_TYPES_IFACE: seq<nat> := [ATTR_VENDOR_ID, ATTR_VENDOR_SUBCMD, ATTR_IFINDEX]

  /** The first attributes are numbers of these types, and the last is the vendor data. */
  predicate IsEnvelope(b: seq<Byte>, top: seq<Attr>, types: seq<nat>) {
    |top| == |types| + 1 && Numbers(top[..|types|], types) && IsData(b, top[|types|])
  }

  function Decode(b: seq<Byte>): Option<WireSetup> {
    var top := Attrs(b, 0, |b|);
    if IsEnvelope(b, top, ENVELOPE_TYPES) then
      Some(ReadData(b, top[2], Num(b, top[0]), Num(b, top[1]), None))
    else if IsEnvelope(b, top, ENVELOPE_TYPES_IFACE) then
      Some(ReadData(b, top[3], Num(b, top[0]), Num(b, top[1]), Some(Num(b, top[2]))))
    else None
  }

  function ReadData(b: seq<Byte>, a: Attr, vendorId: nat, subcmd: nat, iface: Option<nat>): WireSetup
    requires IsData(b, a)
  {
    var s := Inside(b, a);
    WireSetup(vendorId, subcmd, iface, Num(b, s[0]), Num(b, s[1]), ReadBuckets(b, s[2..]))
  }

  // ----- what the receiver should find

  function WireOfBucket(k: Bucket): WireBucket
    requires Valid(k)
  {
    WireBucket(U32(k.bucket), U32(k.period), U32(k.band), U32(k.stepCount), U32(k.maxPeriod),
               U32(k.reportEvents), U32(k.numChannels),
               seq(Max0(k.numChannels), j requires 0 <= j < Max0(k.numChannels) => U32(k.channels[j])))
  }

  function WireOf(iface: int, basePeriod: int, numBuckets: int, ks: seq<Bucket>): WireSetup
    requires forall k :: k in ks ==> Valid(k)
  {
    WireSetup(U32(HT.GOOGLE_OUI), U32(SET_CONFIG), if iface == -1 then None else Some(U32(iface)),
              U32(basePeriod), U32(numBuckets), WireOfBuckets(ks))
  }

  function WireOfBuckets(ks: seq<Bucket>): (r: seq<WireBucket>)
    requires forall k :: k in ks ==> Valid(k)
    ensures |r| == |ks| && forall i :: 0 <= i < |ks| ==> r[i] == WireOfBucket(ks[i])
  {
    seq(|ks|, i requires 0 <= i < |ks| => WireOfBucket(ks[i]))
  }

  // ----- the proof that it does

  /** `s` starts with numbers of the types and values of `fs`. */
  predicate HoldsFields(b: seq<Byte>, s: seq<Attr>, fs: seq<Field>) {
    |fs| <= |s| && forall i :: 0 <= i < |fs| ==> HoldsField(b, s[i], fs[i])
  }

  predicate HoldsField(b: seq<Byte>, a: Attr, f: Field) {
    a.ty == f.ty && a.len == 4 && Num(b, a) == U32(f.value)
  }

  /** Fields that were sent are found as numbers of their types, with their values. */
  lemma FieldsFound(b: seq<Byte>, s: seq<Attr>, xs: seq<Item>, fs: seq<Field>)
    requires AllCarry(b, s, xs) && FieldItems(fs) <= xs
    ensures |s| == |xs| && HoldsFields(b, s, fs)
  {
    forall i | 0 <= i < |fs| ensures i < |s| && HoldsField(b, s[i], fs[i]) {
      CarryAt(b, s, xs, i);
      assert xs[i] == FieldItems(fs)[i];
      ReadsU32(b, s[i], fs[i].ty, fs[i].value);
    }
  }

  function Types(fs: seq<Field>): (r: seq<nat>)
    ensures |r| == |fs| && forall i :: 0 <= i < |fs| ==> r[i] == fs[i].ty
  {
    seq(|fs|, i requires 0 <= i < |fs| => fs[i].ty)
  }

  lemma FieldsAreNumbers(b: seq<Byte>, s: seq<Attr>, fs: seq<Field>)
    requires HoldsFields(b, s, fs)
    ensures Numbers(s[..|fs|], Types(fs))
  {
    forall i | 0 <= i < |fs| ensures s[i].ty == fs[i].ty && s[i].len == 4 {
      assert HoldsField(b, s[i], fs[i]);
    }
  }

  lemma BucketTypes(k: Bucket)
    ensures Types(BucketFields(k)) == BUCKET_TYPES
  {
  }

  lemma DataTypes(basePeriod: int, numBuckets: int)
    ensures Types(DataFields(basePeriod, numBuckets)) == DATA_TYPES
  {
  }

  lemma EnvelopeTypes(iface: int)
    ensures Types(EnvelopeFields(iface)) == if iface == -1 then ENVELOPE_TYPES else ENVELOPE_TYPES_IFACE
  {
  }

  /** `s` starts with the seven numbers of `k`. */
  predicate HoldsNumbers(b: seq<Byte>, s: seq<Attr>, k: Bucket) {
    && |s| >= 7 && Numbers(s[..7], BUCKET_TYPES)
    && Num(b, s[0]) == U32(k.bucket) && Num(b, s[1]) == U32(k.period) && Num(b, s[2]) == U32(k.band)
    && Num(b, s[3]) == U32(k.stepCount) && Num(b, s[4]) == U32(k.maxPeriod)
    && Num(b, s[5]) == U32(k.reportEvents) && Num(b, s[6]) == U32(k.numChannels)
  }

  predicate HoldsChannels(b: seq<Byte>, a: Attr, k: Bucket)
    requires Valid(k)
  {
    var s := Inside(b, a);
    && a.ty == BUCKET_CHANNELS && |s| == Max0(k.numChannels) && Numbers(s, Count(|s|))
    && forall j :: 0 <= j < |s| ==> Num(b, s[j]) == U32(k.channels[j])
  }

  lemma NumbersFound(b: seq<Byte>, s: seq<Attr>, k: Bucket)
    requires Valid(k) && AllCarry(b, s, BucketItems(k))
    ensures HoldsNumbers(b, s, k)
  {
    FieldsFound(b, s, BucketItems(k), BucketFields(k));
    NumbersHeld(b, s, k, BucketFields(k));
  }

  lemma NumbersHeld(b: seq<Byte>, s: seq<Attr>, k: Bucket, fs: seq<Field>)
    requires fs == BucketFields(k) && HoldsFields(b, s, fs)
    ensures HoldsNumbers(b, s, k)
  {
    FieldsAreNumbers(b, s, fs);
    BucketTypes(k);
    assert HoldsField(b, s[0], fs[0]) && HoldsField(b, s[1], fs[1]) && HoldsField(b, s[2], fs[2]);
    assert HoldsField(b, s[3], fs[3]) && HoldsField(b, s[4], fs[4]);
    assert HoldsField(b, s[5], fs[5]) && HoldsField(b, s[6], fs[6]);
  }

  lemma ChannelsFound(b: seq<Byte>, s: seq<Attr>, k: Bucket)
    requires Valid(k) && k.numChannels != 0 && AllCarry(b, s, BucketItems(k))
    requires |EncodeAll(BucketItems(k))| < 0x1_0000
    ensures |s| == 8 && HoldsChannels(b, s[7], k)
  {
    var fs := ChannelFields(k.channels[..Max0(k.numChannels)]);
    assert BucketItems(k)[7] == ChannelNest(k);
    CarryAt(b, s, BucketItems(k), 7);
    ItemWithin(BucketItems(k), ChannelNest(k));
    FieldSizes(fs);
    AllFitWithin(FieldItems(fs));
    WalkFindsNested(b, s[7], BUCKET_CHANNELS, FieldItems(fs));
    FieldsFound(b, Inside(b, s[7]), FieldItems(fs), fs);
  }

  lemma BucketRead(b: seq<Byte>, a: Attr, i: nat, k: Bucket)
    requires Valid(k) && a.ty == i && HoldsNumbers(b, Inside(b, a), k)
    requires |Inside(b, a)| == if k.numChannels == 0 then 7 else 8
    requires k.numChannels != 0 ==> HoldsChannels(b, Inside(b, a)[7], k)
    ensures IsBucket(b, a, i) && ReadBucket(b, a) == WireOfBucket(k)
  {
    assert ReadBucket(b, a).channels == WireOfBucket(k).channels;
  }

  lemma BucketFound(b: seq<Byte>, a: Attr, i: nat, k: Bucket)
    requires Valid(k) && Carries(b, a, Nest(i, BucketItems(k))) && a.len < 0x1_0000
    ensures IsBucket(b, a, i) && ReadBucket(b, a) == WireOfBucket(k)
  {
    AllFitWithin(BucketItems(k));
    WalkFindsNested(b, a, i, BucketItems(k));
    NumbersFound(b, Inside(b, a), k);
    if k.numChannels != 0 {
      ChannelsFound(b, Inside(b, a), k);
    }
    BucketRead(b, a, i, k);
  }

  /** Bucket `i` of the nests from `from` on is found at that position. */
  lemma BucketsFound(b: seq<Byte>, s: seq<Attr>, xs: seq<Item>, ks: seq<Bucket>, from: nat)
    requires (forall k :: k in ks ==> Valid(k)) && AllCarry(b, s, xs) && |EncodeAll(xs)| < 0x1_0000
    requires from <= |xs| && xs[from..] == BucketNests(ks)
    ensures |s| == |xs| && AreBuckets(b, s[from..]) && ReadBuckets(b, s[from..]) == WireOfBuckets(ks)
  {
    var t := s[from..];
    assert |xs| == from + |ks|;
    forall i | 0 <= i < |ks|
      ensures IsBucket(b, t[i], i) && ReadBucket(b, t[i]) == WireOfBucket(ks[i])
    {
      CarryAt(b, s, xs, from + i);
      assert xs[from + i] == xs[from..][i];
      ItemWithin(xs, xs[from + i]);
      BucketFound(b, t[i], i, ks[i]);
    }
    assert |t| == |ks|;
    assert ReadBuckets(b, t) == WireOfBuckets(ks);
  }

  /** What the vendor data holds when its attributes are `s`. */
  predicate HoldsData(b: seq<Byte>, s: seq<Attr>, basePeriod: int, numBuckets: int, ks: seq<Bucket>)
    requires forall k :: k in ks ==> Valid(k)
  {
    && HoldsFields(b, s, DataFields(basePeriod, numBuckets))
    && AreBuckets(b, s[2..]) && ReadBuckets(b, s[2..]) == WireOfBuckets(ks)
  }

  lemma DataFound(b: seq<Byte>, s: seq<Attr>, basePeriod: int, numBuckets: int, ks: seq<Bucket>)
    requires forall k :: k in ks ==> Valid(k)
    requires AllCarry(b, s, DataItems(basePeriod, numBuckets, ks))
    requires |EncodeAll(DataItems(basePeriod, numBuckets, ks))| < 0x1_0000
    ensures HoldsData(b, s, basePeriod, numBuckets, ks)
  {
    var xs := DataItems(basePeriod, numBuckets, ks);
    FieldsFound(b, s, xs, DataFields(basePeriod, numBuckets));
    assert xs[2..] == BucketNests(ks);
    BucketsFound(b, s, xs, ks, 2);
  }

  lemma DataRead(b: seq<Byte>, a: Attr, basePeriod: int, numBuckets: int, ks: seq<Bucket>)
    requires forall k :: k in ks ==> Valid(k)
    requires a.ty == ATTR_VENDOR_DATA && HoldsData(b, Inside(b, a), basePeriod, numBuckets, ks)
    ensures IsData(b, a)
    ensures ReadData(b, a, 0, 0, None) == WireSetup(0, 0, None, U32(basePeriod), U32(numBuckets), WireOfBuckets(ks))
  {
    var s, fs := Inside(b, a), DataFields(basePeriod, numBuckets);
    FieldsAreNumbers(b, s, fs);
    DataTypes(basePeriod, numBuckets);
    assert HoldsField(b, s[0], fs[0]) && HoldsField(b, s[1], fs[1]);
  }

  /** The attributes inside the vendor data are those put into it. */
  lemma DataWalked(b: seq<Byte>, a: Attr, basePeriod: int, numBuckets: int, ks: seq<Bucket>)
    requires forall k :: k in ks ==> Valid(k)
    requires Carries(b, a, Nest(ATTR_VENDOR_DATA, DataItems(basePeriod, numBuckets, ks))) && a.len < 0x1_0000
    ensures AllCarry(b, Inside(b, a), DataItems(basePeriod, numBuckets, ks))
  {
    var xs := DataItems(basePeriod, numBuckets, ks);
    DataSizes(basePeriod, numBuckets, ks, 0);
    AllFitWithin(xs);
    WalkFindsNested(b, a, ATTR_VENDOR_DATA, xs);
  }

  /**
  Round trip: reading the bytes of a request back, attribute by attribute, gives exactly the
  parameters it was made from, number by number.
   */
  lemma RoundTrip(iface: int, basePeriod: int, numBuckets: int, ks: seq<Bucket>)
    requires forall k :: k in ks ==> Valid(k)
    requires |EncodeAll(RequestItems(iface, basePeriod, numBuckets, ks))| < 0x1_0000
    ensures Decode(EncodeAll(RequestItems(iface, basePeriod, numBuckets, ks)))
         == Some(WireOf(iface, basePeriod, numBuckets, ks))
  {
    var xs := RequestItems(iface, basePeriod, numBuckets, ks);
    var b := EncodeAll(xs);
    AtIsSlice(b, 0, b);
    AllFitWithin(xs);
    WalkFindsItems(b, 0, |b|, xs);
    EnvelopeFound(b, Attrs(b, 0, |b|), iface, basePeriod, numBuckets, ks);
  }

  lemma EnvelopeFound(b: seq<Byte>, top: seq<Attr>, iface: int, basePeriod: int, numBuckets: int, ks: seq<Bucket>)
    requires forall k :: k in ks ==> Valid(k)
    requires AllCarry(b, top, RequestItems(iface, basePeriod, numBuckets, ks))
    requires |EncodeAll(RequestItems(iface, basePeriod, numBuckets, ks))| < 0x1_0000
    requires top == Attrs(b, 0, |b|)
    ensures Decode(b) == Some(WireOf(iface, basePeriod, numBuckets, ks))
  {
    var xs, n := RequestItems(iface, basePeriod, numBuckets, ks), |EnvelopeFields(iface)|;
    FieldsFound(b, top, xs, EnvelopeFields(iface));
    CarryAt(b, top, xs, n);
    ItemWithin(xs, xs[n]);
    DataWalked(b, top[n], basePeriod, numBuckets, ks);
    DataFound(b, Inside(b, top[n]), basePeriod, numBuckets, ks);
    EnvelopeRead(b, top, iface, basePeriod, numBuckets, ks);
  }

  lemma EnvelopeRead(b: seq<Byte>, top: seq<Attr>, iface: int, basePeriod: int, numBuckets: int, ks: seq<Bucket>)
    requires forall k :: k in ks ==> Valid(k)
    requires top == Attrs(b, 0, |b|) && |top| == |EnvelopeFields(iface)| + 1
    requires HoldsFields(b, top, EnvelopeFields(iface))
    requires top[|top| - 1].ty == ATTR_VENDOR_DATA
    requires HoldsData(b, Inside(b, top[|top| - 1]), basePeriod, numBuckets, ks)
    ensures Decode(b) == Some(WireOf(iface, basePeriod, numBuckets, ks))
  {
    var fs := EnvelopeFields(iface);
    DataRead(b, top[|top| - 1], basePeriod, numBuckets, ks);
    FieldsAreNumbers(b, top, fs);
    EnvelopeTypes(iface);
    assert HoldsField(b, top[0], fs[0]) && HoldsField(b, top[1], fs[1]);
    if iface != -1 {
      assert HoldsField(b, top[2], fs[2]);
    }
  }

  /** What the receiver reads for a bucket `k` of the caller, field by field. */
  predicate ReadsAs(w: WireBucket, k: Bucket) {
    && w.id == U32(k.bucket) && w.period == U32(k.period)
    && w.band == (if 0 <= k.band <= 7 then k.band else 3)
    && w.stepCount == U32(k.stepCount) && w.maxPeriod == U32(k.maxPeriod) && w.reportEvents == U32(k.reportEvents)
    && w.numChannels == U32(k.numChannels) && |w.channels| == Max0(k.numChannels) <= |k.channels|
    && forall j :: 0 <= j < |w.channels| ==> w.channels[j] == U32(k.channels[j])
  }

  /** What the receiver reads when the caller asks for the first `numBuckets` of `all`. */
  ghost predicate Received(w: WireSetup, iface: int, basePeriod: int, numBuckets: int, all: seq<Bucket>) {
    && w.vendorId == 0x1A11 && w.subcmd == 0x1001 && w.iface == (if iface == -1 then None else Some(U32(iface)))
    && w.basePeriod == U32(basePeriod) && w.numBuckets == U32(numBuckets)
    && |w.buckets| == Max0(numBuckets) <= |all|
    && forall i :: 0 <= i < |w.buckets| ==> ReadsAs(w.buckets[i], all[i])
  }

  /** The caller's array afterwards: of the first `n` buckets the band is corrected, nothing else is changed. */
  ghost predicate Corrected(now: seq<Bucket>, all: seq<Bucket>, n: int) {
    && |now| == |all|
    && forall i :: 0 <= i < |all| ==>
         now[i] == if i < n then all[i].(band := if 0 <= all[i].band <= 7 then all[i].band else 3) else all[i]
  }

  lemma WireReceived(iface: int, basePeriod: int, numBuckets: int, all: seq<Bucket>, ks: seq<Bucket>)
    requires numBuckets <= |all| && ks == Sent(all, Max0(numBuckets))
    requires (forall i :: 0 <= i < numBuckets ==> Valid(all[i])) && forall k :: k in ks ==> Valid(k)
    ensures Received(WireOf(iface, basePeriod, numBuckets, ks), iface, basePeriod, numBuckets, all)
  {
    forall i | 0 <= i < numBuckets ensures ReadsAs(WireOfBuckets(ks)[i], all[i]) {
      assert Valid(all[i]) && WireOfBuckets(ks)[i] == WireOfBucket(ks[i]);
    }
  }

  lemma CheckedCorrects(all: seq<Bucket>, m: nat)
    requires m <= |all|
    ensures Corrected(CheckedTo(all, m), all, m)
  {
  }

  /**
  createSetupRequest: succeeds exactly when the whole request has room, and then the message
  reads back as the caller's parameters; the caller's bands are corrected in place up to where
  the call gets, and nothing else of the caller's is changed.
   */
  method CreateSetupRequest(req: WifiRequest, iface: int, basePeriod: int, numBuckets: int, buckets: array<Bucket>)
      returns (result: int)
    requires req.Valid() && req.msg == [] && req.capacity < 0x1_0000
    requires numBuckets <= buckets.Length && forall i :: 0 <= i < numBuckets ==> Valid(buckets[i])
    modifies req, buckets
    ensures result <= 0
    ensures var ks := Sent(old(buckets[..]), Max0(numBuckets));
            && (forall k :: k in ks ==> Valid(k))
            && (result == 0 <==> |EncodeAll(RequestItems(iface, basePeriod, numBuckets, ks))| <= req.capacity)
    ensures result == 0 ==>
              && Decode(req.msg).Some?
              && Received(Decode(req.msg).value, iface, basePeriod, numBuckets, old(buckets[..]))
              && Corrected(buckets[..], old(buckets[..]), numBuckets)
    ensures exists m :: 0 <= m <= Max0(numBuckets) && Corrected(buckets[..], old(buckets[..]), m)
  {
    ghost var all, n := buckets[..], Max0(numBuckets);
    ghost var ks := Sent(all, n);
    SentAreValid(all, n);
    result := WriteRequest(req, iface, basePeriod, numBuckets, buckets, ks);
    ghost var m :| 0 <= m <= n && buckets[..] == CheckedTo(all, m);
    CheckedCorrects(all, m);
    CheckedCorrects(all, n);
    WireReceived(iface, basePeriod, numBuckets, all, ks);
  }

  /** The request with the buckets `ks`, which are the caller's once they are checked. */
  method WriteRequest(req: WifiRequest, iface: int, basePeriod: int, numBuckets: int, buckets: array<Bucket>,
                      ghost ks: seq<Bucket>) returns (result: int)
    requires req.Valid() && req.msg == [] && req.capacity < 0x1_0000
    requires numBuckets <= buckets.Length && ks == Sent(buckets[..], Max0(numBuckets))
    requires (forall i :: 0 <= i < numBuckets ==> Valid(buckets[i])) && forall k :: k in ks ==> Valid(k)
    modifies req, buckets
    ensures result <= 0
    ensures result == 0 <==> |EncodeAll(RequestItems(iface, basePeriod, numBuckets, ks))| <= req.capacity
    ensures result == 0 ==> Decode(req.msg) == Some(WireOf(iface, basePeriod, numBuckets, ks))
    ensures result == 0 ==> buckets[..] == CheckedTo(old(buckets[..]), Max0(numBuckets))
    ensures exists m :: 0 <= m <= Max0(numBuckets) && buckets[..] == CheckedTo(old(buckets[..]), m)
  {
    assert buckets[..] == CheckedTo(buckets[..], 0);
    RequestBytes(iface, basePeriod, numBuckets, ks);
    result := PutFields(req, EnvelopeFields(iface));
    if result < 0 {
      return;
    }
    assert req.msg == EncodeAll(FieldItems(EnvelopeFields(iface)));
    var ok, start := req.AttrStart(ATTR_VENDOR_DATA);
    result := PutData(req, basePeriod, numBuckets, buckets, ks);
    if result < 0 {
      return;
    }
    req.AttrEnd(start, EncodeAll(FieldItems(EnvelopeFields(iface))), ATTR_VENDOR_DATA,
                DataItems(basePeriod, numBuckets, ks));
    RoundTrip(iface, basePeriod, numBuckets, ks);
  }

  /** The parts of the message and how long each is. */
  lemma RequestBytes(iface: int, basePeriod: int, numBuckets: int, ks: seq<Bucket>)
    requires forall k :: k in ks ==> Valid(k)
    ensures var head := EncodeAll(FieldItems(EnvelopeFields(iface)));
            var data := EncodeAll(DataItems(basePeriod, numBuckets, ks));
            var all := EncodeAll(RequestItems(iface, basePeriod, numBuckets, ks));
            && |head| == 8 * |EnvelopeFields(iface)| && |data| >= 16 && |all| == |head| + NLA_HDRLEN + |data|
            && all == head + Encode(Nest(ATTR_VENDOR_DATA, DataItems(basePeriod, numBuckets, ks)))
  {
    var data := DataItems(basePeriod, numBuckets, ks);
    FieldSizes(EnvelopeFields(iface));
    DataHead(basePeriod, numBuckets, ks);
    NestBytes(ATTR_VENDOR_DATA, data);
    EncodeAllAppend(FieldItems(EnvelopeFields(iface)), Nest(ATTR_VENDOR_DATA, data));
  }

  // ----- how much room a request takes

  /** Seven numbers in a nest, and a nest of channels unless there are none. */
  function Room(ks: seq<Bucket>): nat {
    if ks == [] then 0
    else
      var k := ks[|ks| - 1];
      Room(ks[..|ks| - 1]) + 60 + if k.numChannels == 0 then 0 else 4 + 8 * Max0(k.numChannels)
  }

  lemma {:induction false} DataRoom(basePeriod: int, numBuckets: int, ks: seq<Bucket>)
    requires forall k :: k in ks ==> Valid(k)
    ensures |EncodeAll(DataItems(basePeriod, numBuckets, ks))| == 16 + Room(ks)
    decreases |ks|
  {
    if ks == [] {
      DataHead(basePeriod, numBuckets, ks);
      assert ks[..0] == ks;
    } else {
      var n := |ks| - 1;
      DataRoom(basePeriod, numBuckets, ks[..n]);
      DataStep(basePeriod, numBuckets, ks, n);
      assert ks[..n + 1] == ks;
      BucketSize(n, ks[n]);
      ChannelRoom(ks[n]);
    }
  }

  lemma ChannelRoom(k: Bucket)
    requires Valid(k)
    ensures |Encode(ChannelNest(k))| == 4 + 8 * Max0(k.numChannels)
  {
    var fs := ChannelFields(k.channels[..Max0(k.numChannels)]);
    FieldSizes(fs);
    NestBytes(BUCKET_CHANNELS, FieldItems(fs));
  }

  /** The number of bytes CreateSetupRequest needs. */
  lemma RequestRoom(iface: int, basePeriod: int, numBuckets: int, ks: seq<Bucket>)
    requires forall k :: k in ks ==> Valid(k)
    ensures |EncodeAll(RequestItems(iface, basePeriod, numBuckets, ks))|
         == 36 + (if iface == -1 then 0 else 8) + Room(ks)
  {
    RequestBytes(iface, basePeriod, numBuckets, ks);
    DataRoom(basePeriod, numBuckets, ks);
    FieldSizes(EnvelopeFields(iface));
  }
}

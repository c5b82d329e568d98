/** The HELLO payload and the capability set both ends derive from it. */
module Hellos {
  import opened Types
  import opened Sorting
  import opened Wire
  import opened Bits
  import opened Crc

  datatype Descriptor = Descriptor(family: u32, schema: u64, depth: u32)

  datatype Policy = Policy(
    minMajor: u16,
    maxMajor: u16,
    maxFrame: u64,
    maxMessage: u64,
    window: u64,
    maxChannels: u16,
    required: u64,
    optional: u64,
    replayWindow: u32)

  datatype Hello = Hello(minMajor: u16, maxMajor: u16, limits: Policy, plugins: seq<Descriptor>)

  datatype Capabilities = Capabilities(
    major: u16,
    maxFrame: u64,
    maxMessage: u64,
    window: u64,
    maxChannels: u16,
    features: u64,
    hash: Bytes,
    plugins: seq<Descriptor>)

  const DEFAULT_REPLAY: u32 := 4096
  const REJECTED: Error := ConnectionError(NegotiationRejected)

  function Family(d: Descriptor): int { d.family }

  // ---------------------------------------------------------------- the payload

  /** Limits are cut to 32 bits and the plugin count to 16. */
  function Head(h: Hello): (bs: Bytes)
    ensures |bs| == 36
  {
    U16Bytes(h.minMajor) + U16Bytes(h.maxMajor)
    + U32Bytes(h.limits.maxFrame % U32_SPAN) + U32Bytes(h.limits.maxMessage % U32_SPAN) + U32Bytes(h.limits.window % U32_SPAN)
    + U16Bytes(h.limits.maxChannels)
    + U64Bytes(h.limits.required) + U64Bytes(h.limits.optional)
    + U16Bytes(|h.plugins| % 0x1_0000)
  }

  function DescriptorBytes(d: Descriptor): (bs: Bytes)
    ensures |bs| == 16
  {
    U32Bytes(d.family) + U64Bytes(d.schema) + U32Bytes(d.depth)
  }

  function DescriptorsBytes(ds: seq<Descriptor>): (bs: Bytes)
    ensures |bs| == 16 * |ds|
  {
    if ds == [] then [] else DescriptorBytes(ds[0]) + DescriptorsBytes(ds[1..])
  }

  /** No two neighbours share a family. */
  predicate NoRepeat(ds: seq<Descriptor>) {
    forall i :: 0 < i < |ds| ==> ds[i - 1].family != ds[i].family
  }

  function EncodeHelloSpec(h: Hello): Result<Bytes> {
    var ds := SortBy(Family, h.plugins);
    if h.minMajor > h.maxMajor then Err(REJECTED)
    else if !NoRepeat(ds) then Err(Error(Plugin, DuplicateRequiredTlv, CloseConnection))
    else Ok(Head(h) + DescriptorsBytes(ds))
  }

  method EncodeHello(h: Hello) returns (r: Result<Bytes>)
    ensures r == EncodeHelloSpec(h)
  {
    if h.minMajor > h.maxMajor {
      return Err(REJECTED);
    }
    var out := Head(h);
    var ds := SortBy(Family, h.plugins);
    var previous: Option<u32> := None;
    ghost var rest := ds;
    for i := 0 to |ds|
      invariant rest == ds[i..]
      invariant previous == if i == 0 then None else Some(ds[i - 1].family)
      invariant forall j :: 0 < j < i ==> ds[j - 1].family != ds[j].family
      invariant out + DescriptorsBytes(rest) == Head(h) + DescriptorsBytes(ds)
    {
      hide Head, DescriptorBytes;
      if previous == Some(ds[i].family) {
        return Err(Error(Plugin, DuplicateRequiredTlv, CloseConnection));
      }
      previous := Some(ds[i].family);
      Assoc(out, DescriptorBytes(ds[i]), DescriptorsBytes(rest[1..]));
      out := out + DescriptorBytes(ds[i]);
      rest := rest[1..];
    }
    assert rest == [] && out + [] == out;
    return Ok(out);
  }

  function ReadDescriptor(bs: Bytes, offset: nat): Descriptor
    requires offset + 16 <= |bs|
  {
    Descriptor(ReadU32(bs, offset), ReadU64(bs, offset + 4), ReadU32(bs, offset + 12))
  }

  function ReadDescriptors(bs: Bytes, offset: nat, count: nat): (ds: seq<Descriptor>)
    requires offset + 16 * count <= |bs|
    ensures |ds| == count
    decreases count
  {
    if count == 0 then [] else [ReadDescriptor(bs, offset)] + ReadDescriptors(bs, offset + 16, count - 1)
  }

  function ReadLimits(bs: Bytes): Policy
    requires |bs| >= 36
  {
    Policy(ReadU16(bs, 0), ReadU16(bs, 2), ReadU32(bs, 4), ReadU32(bs, 8), ReadU32(bs, 12), ReadU16(bs, 16),
           ReadU64(bs, 18), ReadU64(bs, 26), DEFAULT_REPLAY)
  }

  /** Every way of being too short or too long is the same error. */
  function DecodeHelloSpec(bs: Bytes): Result<Hello> {
    if |bs| < 36 || |bs| != 36 + 16 * ReadU16(bs, 34) then Err(REJECTED)
    else Ok(Hello(ReadU16(bs, 0), ReadU16(bs, 2), ReadLimits(bs), ReadDescriptors(bs, 36, ReadU16(bs, 34))))
  }

  /** The three cursor readers: a short read leaves the cursor where it is. */
  method TakeU16(bs: Bytes, cursor: nat) returns (value: Option<u16>, next: nat)
    ensures if |bs| - cursor < 2 then value == None && next == cursor
            else value == Some(ReadU16(bs, cursor)) && next == cursor + 2
  {
    if cursor > |bs| || |bs| - cursor < 2 {
      return None, cursor;
    }
    return Some(ReadU16(bs, cursor)), cursor + 2;
  }

  method TakeU32(bs: Bytes, cursor: nat) returns (value: Option<u32>, next: nat)
    ensures if |bs| - cursor < 4 then value == None && next == cursor
            else value == Some(ReadU32(bs, cursor)) && next == cursor + 4
  {
    var r := ReadU32Be(bs, cursor);
    if r.Err? {
      return None, cursor;
    }
    return Some(r.value), cursor + 4;
  }

  method TakeU64(bs: Bytes, cursor: nat) returns (value: Option<u64>, next: nat)
    ensures if |bs| - cursor < 8 then value == None && next == cursor
            else value == Some(ReadU64(bs, cursor)) && next == cursor + 8
  {
    if cursor > |bs| || |bs| - cursor < 8 {
      return None, cursor;
    }
    return Some(ReadU64(bs, cursor)), cursor + 8;
  }

  method DecodeHello(bs: Bytes) returns (r: Result<Hello>)
    ensures r == DecodeHelloSpec(bs)
  {
    hide ReadU16, ReadU32, ReadU64;
    var cursor := 0;
    var minMajor, maxMajor, maxFrame, maxMessage, window, channels, required, optional, count;
    minMajor, cursor := TakeU16(bs, cursor);
    maxMajor, cursor := TakeU16(bs, cursor);
    maxFrame, cursor := TakeU32(bs, cursor);
    maxMessage, cursor := TakeU32(bs, cursor);
    window, cursor := TakeU32(bs, cursor);
    channels, cursor := TakeU16(bs, cursor);
    required, cursor := TakeU64(bs, cursor);
    optional, cursor := TakeU64(bs, cursor);
    count, cursor := TakeU16(bs, cursor);
    if minMajor.None? || maxMajor.None? || maxFrame.None? || maxMessage.None? || window.None?
      || channels.None? || required.None? || optional.None? || count.None? {
      return Err(REJECTED);
    }
    var limits := Policy(minMajor.value, maxMajor.value, maxFrame.value, maxMessage.value, window.value,
                         channels.value, required.value, optional.value, DEFAULT_REPLAY);
    assert limits == ReadLimits(bs);
    var plugins := TakeDescriptors(bs, cursor, count.value);
    if plugins.None? {
      return Err(REJECTED);
    }
    var n: nat := count.value;
    if cursor + 16 * n != |bs| {
      return Err(REJECTED);
    }
    return Ok(Hello(minMajor.value, maxMajor.value, limits, plugins.value));
  }

  /** The descriptor loop of the decoder. */
  method TakeDescriptors(bs: Bytes, start: nat, count: nat) returns (r: Option<seq<Descriptor>>)
    requires start <= |bs|
    ensures r == if start + 16 * count <= |bs| then Some(ReadDescriptors(bs, start, count)) else None
  {
    hide ReadU16, ReadU32, ReadU64;
    var cursor := start;
    var found: seq<Descriptor> := [];
    for i := 0 to count
      invariant cursor == start + 16 * i <= |bs|
      invariant start + 16 * count <= |bs| ==>
                  found + ReadDescriptors(bs, cursor, count - i) == ReadDescriptors(bs, start, count)
    {
      var family, schema, depth;
      ghost var from := cursor;
      family, cursor := TakeU32(bs, cursor);
      schema, cursor := TakeU64(bs, cursor);
      depth, cursor := TakeU32(bs, cursor);
      if family.None? || schema.None? || depth.None? {
        return None;
      }
      var d := Descriptor(family.value, schema.value, depth.value);
      assert d == ReadDescriptor(bs, from);
      if start + 16 * count <= |bs| {
        Assoc(found, [d], ReadDescriptors(bs, cursor, count - i - 1));
      }
      found := found + [d];
    }
    assert found + [] == found;
    return Some(found);
  }

  // ---------------------------------------------------------------- the payload round trip

  predicate DistinctFamilies(ds: seq<Descriptor>) {
    forall i, j :: 0 <= i < j < |ds| ==> ds[i].family != ds[j].family
  }

  lemma {:induction false} NoRepeatStrict(ds: seq<Descriptor>)
    requires SortedBy(Family, ds) && NoRepeat(ds)
    ensures StrictlySorted(Family, ds)
  {
    forall i, j | 0 <= i < j < |ds|
      ensures Family(ds[i]) < Family(ds[j])
    {
      assert Family(ds[i]) <= Family(ds[j - 1]) <= Family(ds[j]) by {
        if i == j - 1 { }
      }
      assert ds[j - 1].family != ds[j].family;
    }
  }

  lemma StrictDistinct(ds: seq<Descriptor>)
    requires StrictlySorted(Family, ds)
    ensures DistinctFamilies(ds) && NoRepeat(ds)
  {
    forall i, j | 0 <= i < j < |ds|
      ensures ds[i].family != ds[j].family
    {
      assert Family(ds[i]) < Family(ds[j]);
    }
  }

  lemma {:induction false} DistinctInsert(x: Descriptor, ds: seq<Descriptor>)
    ensures DistinctFamilies(Insert(Family, x, ds)) <==> DistinctFamilies([x] + ds)
  {
    if ds != [] && x.family > ds[0].family {
      DistinctInsert(x, ds[1..]);
      DistinctSwap(x, ds);
      DistinctCons(ds[0], Insert(Family, x, ds[1..]));
      DistinctCons(ds[0], [x] + ds[1..]);
      InsertMultiset(Family, x, ds[1..]);
      SameFamilies(Insert(Family, x, ds[1..]), [x] + ds[1..]);
    }
  }

  lemma SameFamilies(a: seq<Descriptor>, b: seq<Descriptor>)
    requires multiset(a) == multiset(b)
    ensures forall d :: d in a <==> d in b
  {
    assert forall d :: d in a <==> d in multiset(a);
    assert forall d :: d in b <==> d in multiset(b);
  }

  lemma DistinctCons(x: Descriptor, ds: seq<Descriptor>)
    ensures DistinctFamilies([x] + ds) <==> (forall d <- ds :: d.family != x.family) && DistinctFamilies(ds)
  {
    var all := [x] + ds;
    if DistinctFamilies(all) {
      forall d | d in ds
        ensures d.family != x.family
      {
        var i :| 0 <= i < |ds| && ds[i] == d;
        assert all[0].family != all[i + 1].family;
      }
      forall i, j | 0 <= i < j < |ds|
        ensures ds[i].family != ds[j].family
      {
        assert all[i + 1].family != all[j + 1].family;
      }
    }
  }

  lemma DistinctSwap(x: Descriptor, ds: seq<Descriptor>)
    requires ds != []
    ensures DistinctFamilies([x] + ds) <==> DistinctFamilies([ds[0]] + ([x] + ds[1..]))
  {
    hide DistinctFamilies;
    assert ds == [ds[0]] + ds[1..];
    DistinctCons(x, ds);
    DistinctCons(ds[0], ds[1..]);
    DistinctCons(ds[0], [x] + ds[1..]);
    DistinctCons(x, ds[1..]);
    assert forall d :: d in ds <==> d == ds[0] || d in ds[1..];
    assert forall d :: d in [x] + ds[1..] <==> d == x || d in ds[1..];
  }

  lemma {:induction false} DistinctSorted(ds: seq<Descriptor>)
    ensures DistinctFamilies(SortBy(Family, ds)) <==> DistinctFamilies(ds)
  {
    hide DistinctFamilies;
    if ds != [] {
      assert ds == [ds[0]] + ds[1..];
      DistinctSorted(ds[1..]);
      DistinctInsert(ds[0], SortBy(Family, ds[1..]));
      DistinctCons(ds[0], ds[1..]);
      DistinctCons(ds[0], SortBy(Family, ds[1..]));
      SortBySorted(Family, ds[1..]);
      SameFamilies(SortBy(Family, ds[1..]), ds[1..]);
    }
  }

  lemma NoRepeatIff(ds: seq<Descriptor>)
    ensures NoRepeat(SortBy(Family, ds)) <==> DistinctFamilies(ds)
    ensures DistinctFamilies(ds) ==> StrictlySorted(Family, SortBy(Family, ds))
  {
    SortBySorted(Family, ds);
    DistinctSorted(ds);
    var sorted := SortBy(Family, ds);
    if NoRepeat(sorted) {
      NoRepeatStrict(sorted);
      StrictDistinct(sorted);
    }
  }

  /** What a peer sees of a HELLO. */
  function OverWire(h: Hello): Hello {
    Hello(h.minMajor, h.maxMajor,
          Policy(h.minMajor, h.maxMajor, h.limits.maxFrame % U32_SPAN, h.limits.maxMessage % U32_SPAN,
                 h.limits.window % U32_SPAN, h.limits.maxChannels, h.limits.required, h.limits.optional, DEFAULT_REPLAY),
          SortBy(Family, h.plugins))
  }

  lemma U16At(bs: Bytes, n: u16, offset: nat)
    requires offset + 2 <= |bs| && bs[offset..offset + 2] == U16Bytes(n)
    ensures ReadU16(bs, offset) == n
  {
    hide U16Bytes, ReadU16;
    U16Inverse(n, bs[..offset], bs[offset + 2..]);
    assert bs[..offset] + U16Bytes(n) + bs[offset + 2..] == bs;
  }

  lemma U32At(bs: Bytes, n: u32, offset: nat)
    requires offset + 4 <= |bs| && bs[offset..offset + 4] == U32Bytes(n)
    ensures ReadU32(bs, offset) == n
  {
    hide U32Bytes, ReadU32;
    U32Inverse(n, bs[..offset], bs[offset + 4..]);
    assert bs[..offset] + U32Bytes(n) + bs[offset + 4..] == bs;
  }

  lemma U64At(bs: Bytes, n: u64, offset: nat)
    requires offset + 8 <= |bs| && bs[offset..offset + 8] == U64Bytes(n)
    ensures ReadU64(bs, offset) == n
  {
    hide U64Bytes, ReadU64;
    U64Inverse(n, bs[..offset], bs[offset + 8..]);
    assert bs[..offset] + U64Bytes(n) + bs[offset + 8..] == bs;
  }

  lemma HeadReads(h: Hello, more: Bytes)
    ensures var bs := Head(h) + more;
            && |bs| >= 36
            && ReadU16(bs, 0) == h.minMajor && ReadU16(bs, 2) == h.maxMajor
            && ReadLimits(bs) == OverWire(h).limits
            && ReadU16(bs, 34) == |h.plugins| % 0x1_0000
  {
    hide U16Bytes, U32Bytes, U64Bytes, ReadU16, ReadU32, ReadU64, Head;
    var bs := Head(h) + more;
    HeadSlices(h, more);
    U16At(bs, h.minMajor, 0);
    U16At(bs, h.maxMajor, 2);
    U32At(bs, h.limits.maxFrame % U32_SPAN, 4);
    U32At(bs, h.limits.maxMessage % U32_SPAN, 8);
    U32At(bs, h.limits.window % U32_SPAN, 12);
    U16At(bs, h.limits.maxChannels, 16);
    U64At(bs, h.limits.required, 18);
    U64At(bs, h.limits.optional, 26);
    U16At(bs, |h.plugins| % 0x1_0000, 34);
  }

  lemma HeadSlices(h: Hello, more: Bytes)
    ensures var bs := Head(h) + more;
            && bs[0..2] == U16Bytes(h.minMajor) && bs[2..4] == U16Bytes(h.maxMajor)
            && bs[4..8] == U32Bytes(h.limits.maxFrame % U32_SPAN)
            && bs[8..12] == U32Bytes(h.limits.maxMessage % U32_SPAN)
            && bs[12..16] == U32Bytes(h.limits.window % U32_SPAN)
            && bs[16..18] == U16Bytes(h.limits.maxChannels)
            && bs[18..26] == U64Bytes(h.limits.required) && bs[26..34] == U64Bytes(h.limits.optional)
            && bs[34..36] == U16Bytes(|h.plugins| % 0x1_0000)
  {
    hide U16Bytes, U32Bytes, U64Bytes;
  }

  lemma {:induction false} DescriptorsRead(ds: seq<Descriptor>, pre: Bytes)
    ensures ReadDescriptors(pre + DescriptorsBytes(ds), |pre|, |ds|) == ds
    decreases |ds|
  {
    hide ReadDescriptor, DescriptorBytes;
    if ds != [] {
      var one, rest := DescriptorBytes(ds[0]), DescriptorsBytes(ds[1..]);
      assert pre + DescriptorsBytes(ds) == pre + one + rest;
      DescriptorReads(ds[0], pre, rest);
      DescriptorsRead(ds[1..], pre + one);
    }
  }

  lemma DescriptorReads(d: Descriptor, pre: Bytes, post: Bytes)
    ensures ReadDescriptor(pre + DescriptorBytes(d) + post, |pre|) == d
  {
    hide U32Bytes, U64Bytes, ReadU32, ReadU64;
    var bs := pre + DescriptorBytes(d) + post;
    DescriptorSlices(d, pre, post);
    U32At(bs, d.family, |pre|);
    U64At(bs, d.schema, |pre| + 4);
    U32At(bs, d.depth, |pre| + 12);
  }

  lemma DescriptorSlices(d: Descriptor, pre: Bytes, post: Bytes)
    ensures var bs, n := pre + DescriptorBytes(d) + post, |pre|;
            && bs[n..n + 4] == U32Bytes(d.family)
            && bs[n + 4..n + 12] == U64Bytes(d.schema)
            && bs[n + 12..n + 16] == U32Bytes(d.depth)
  {
    hide U32Bytes, U64Bytes;
  }

  /**
   A HELLO encodes exactly when its version range is not empty and its families differ; the peer then
   reads it back, limits cut to 32 bits and plugins by family, unless there are more than 65535 plugins.
   */
  lemma HelloRoundTrip(h: Hello)
    ensures EncodeHelloSpec(h).Ok? <==> h.minMajor <= h.maxMajor && DistinctFamilies(h.plugins)
    ensures EncodeHelloSpec(h).Ok? ==>
              DecodeHelloSpec(EncodeHelloSpec(h).value)
              == if |h.plugins| < 0x1_0000 then Ok(OverWire(h)) else Err(REJECTED)
  {
    hide Head, ReadU16, ReadLimits, ReadDescriptors, NoRepeat, DistinctFamilies;
    NoRepeatIff(h.plugins);
    var ds := SortBy(Family, h.plugins);
    HeadReads(h, DescriptorsBytes(ds));
    DescriptorsRead(ds, Head(h));
  }

  lemma {:induction false} DescriptorsRewrite(bs: Bytes, offset: nat, count: nat)
    requires offset + 16 * count <= |bs|
    ensures DescriptorsBytes(ReadDescriptors(bs, offset, count)) == bs[offset..offset + 16 * count]
    decreases count
  {
    hide U32Bytes, U64Bytes, ReadU32, ReadU64;
    if count > 0 {
      DescriptorsRewrite(bs, offset + 16, count - 1);
      U32Canonical(bs, offset);
      U64Canonical(bs, offset + 4);
      U32Canonical(bs, offset + 12);
      Pieces(bs, offset, offset + 4, offset + 12, offset + 16, offset + 16 * count);
    }
  }

  lemma Pieces(bs: Bytes, a: nat, b: nat, c: nat, d: nat, e: nat)
    requires a <= b <= c <= d <= e <= |bs|
    ensures bs[a..b] + bs[b..c] + bs[c..d] + bs[d..e] == bs[a..e]
  {
    assert bs[a..b] + bs[b..c] == bs[a..c];
    assert bs[a..c] + bs[c..d] == bs[a..d];
    assert bs[a..d] + bs[d..e] == bs[a..e];
  }

  lemma HeadRewrites(bs: Bytes)
    requires DecodeHelloSpec(bs).Ok?
    ensures Head(DecodeHelloSpec(bs).value) == bs[..36]
  {
    hide U16Bytes, U32Bytes, U64Bytes, ReadU16, ReadU32, ReadU64, ReadDescriptors;
    U16Canonical(bs, 0);
    U16Canonical(bs, 2);
    U32Canonical(bs, 4);
    U32Canonical(bs, 8);
    U32Canonical(bs, 12);
    U16Canonical(bs, 16);
    U64Canonical(bs, 18);
    U64Canonical(bs, 26);
    U16Canonical(bs, 34);
    Pieces(bs, 0, 2, 4, 8, 12);
    Pieces(bs, 0, 12, 16, 18, 26);
    Pieces(bs, 0, 26, 34, 36, 36);
  }

  /** An accepted payload is reproduced exactly when its versions are in order and its families ascend. */
  lemma HelloDecodeEncode(bs: Bytes)
    requires DecodeHelloSpec(bs).Ok?
    ensures var h := DecodeHelloSpec(bs).value;
            EncodeHelloSpec(h) == Ok(bs) <==> h.minMajor <= h.maxMajor && StrictlySorted(Family, h.plugins)
  {
    hide Head, ReadLimits, ReadDescriptors, StrictlySorted, NoRepeat, DistinctFamilies;
    var h := DecodeHelloSpec(bs).value;
    HeadRewrites(bs);
    DescriptorsRewrite(bs, 36, |h.plugins|);
    assert bs[36..36 + 16 * |h.plugins|] == bs[36..];
    assert bs == bs[..36] + bs[36..];
    if StrictlySorted(Family, h.plugins) {
      StrictIsSorted(h.plugins);
      SortedIsFixed(Family, h.plugins);
      StrictDistinct(h.plugins);
    }
    if EncodeHelloSpec(h) == Ok(bs) {
      NoRepeatIff(h.plugins);
      HelloRoundTrip(h);
      assert SortBy(Family, h.plugins) == h.plugins;
    }
  }

  lemma StrictIsSorted(ds: seq<Descriptor>)
    requires StrictlySorted(Family, ds)
    ensures SortedBy(Family, ds)
  {
  }

  // ---------------------------------------------------------------- negotiation

  function HashInput(c: Capabilities): Bytes {
    U16Bytes(c.major)
    + U32Bytes(c.maxFrame % U32_SPAN) + U32Bytes(c.maxMessage % U32_SPAN) + U32Bytes(c.window % U32_SPAN)
    + U16Bytes(c.maxChannels) + U64Bytes(c.features) + DescriptorsBytes(c.plugins)
  }

  /** Two checksums, their exclusive or and their sum. */
  function TranscriptHash(c: Capabilities): (hash: Bytes)
    ensures |hash| == 16
  {
    var first := Crc32c(HashInput(c));
    var second := Crc32c(HashInput(c) + [0xA5]);
    U32Bytes(first) + U32Bytes(second) + U32Bytes(Xor32(first, second)) + U32Bytes((first + second) % U32_SPAN)
  }

  function Common(a: Descriptor, b: Descriptor): Descriptor {
    Descriptor(a.family, a.schema, Min(a.depth, b.depth))
  }

  /** The matches of one local plugin; none when a schema differs. */
  function MatchesOf(a: Descriptor, rs: seq<Descriptor>): Option<seq<Descriptor>> {
    if rs == [] then Some([])
    else if a.family != rs[0].family then MatchesOf(a, rs[1..])
    else if a.schema != rs[0].schema then None
    else match MatchesOf(a, rs[1..])
      case None => None
      case Some(rest) => Some([Common(a, rs[0])] + rest)
  }

  function AllMatches(ls: seq<Descriptor>, rs: seq<Descriptor>): Option<seq<Descriptor>> {
    if ls == [] then Some([])
    else match MatchesOf(ls[0], rs)
      case None => None
      case Some(first) =>
        match AllMatches(ls[1..], rs)
        case None => None
        case Some(rest) => Some(first + rest)
  }

  function Offered(p: Policy): u64 { Or64(p.required, p.optional) }

  function Bounds(a: Hello, b: Hello): Capabilities {
    Capabilities(Min(a.maxMajor, b.maxMajor),
                 Min(a.limits.maxFrame, b.limits.maxFrame),
                 Min(a.limits.maxMessage, b.limits.maxMessage),
                 Min(a.limits.window, b.limits.window),
                 Min(a.limits.maxChannels, b.limits.maxChannels),
                 And64(Offered(a.limits), Offered(b.limits)), [], [])
  }

  function NegotiateSpec(local: Hello, peer: Hello): Result<Capabilities> {
    var caps := Bounds(local, peer);
    if local.maxMajor < peer.minMajor || peer.maxMajor < local.minMajor then Err(REJECTED)
    else if caps.maxFrame < 128 || caps.maxMessage < 1 || caps.window < caps.maxFrame || caps.maxChannels == 0 then Err(REJECTED)
    else if And64(local.limits.required, Not64(caps.features)) != 0 || And64(peer.limits.required, Not64(caps.features)) != 0 then
      Err(ConnectionError(UnknownRequiredFeature))
    else match AllMatches(local.plugins, peer.plugins)
      case None => Err(Error(Plugin, NegotiationRejected, CloseConnection))
      case Some(found) =>
        if found == [] then Err(Error(Plugin, NegotiationRejected, CloseConnection)) else
        var named := caps.(plugins := SortBy(Family, found));
        Ok(named.(hash := TranscriptHash(named)))
  }

  /** The two nested loops. */
  method MatchPlugins(local: seq<Descriptor>, peer: seq<Descriptor>) returns (found: Option<seq<Descriptor>>)
    ensures found == AllMatches(local, peer)
  {
    var plugins: seq<Descriptor> := [];
    ghost var rest := local;
    PrefixedNothing(AllMatches(local, peer));
    for i := 0 to |local|
      invariant rest == local[i..]
      invariant AllMatches(local, peer) == Prefixed(plugins, AllMatches(rest, peer))
    {
      var lhs := local[i];
      ghost var before, tail := plugins, peer;
      for j := 0 to |peer|
        invariant tail == peer[j..]
        invariant Prefixed(before, MatchesOf(lhs, peer)) == Prefixed(plugins, MatchesOf(lhs, tail))
      {
        var rhs := peer[j];
        if lhs.family == rhs.family {
          if lhs.schema != rhs.schema {
            PrefixedAll(before, MatchesOf(lhs, peer), AllMatches(rest[1..], peer));
            return None;
          }
          PrefixedCons(plugins, Common(lhs, rhs), MatchesOf(lhs, tail[1..]));
          plugins := plugins + [Descriptor(lhs.family, lhs.schema, Min(lhs.depth, rhs.depth))];
        }
        tail := tail[1..];
      }
      assert tail == [] && plugins + [] == plugins;
      PrefixedAll(before, MatchesOf(lhs, peer), AllMatches(rest[1..], peer));
      rest := rest[1..];
    }
    assert rest == [] && plugins + [] == plugins;
    return Some(plugins);
  }

  function Prefixed(pre: seq<Descriptor>, r: Option<seq<Descriptor>>): Option<seq<Descriptor>> {
    if r.None? then None else Some(pre + r.value)
  }

  lemma PrefixedNothing(r: Option<seq<Descriptor>>)
    ensures Prefixed([], r) == r
  {
    if r.Some? { assert [] + r.value == r.value; }
  }

  lemma PrefixedCons(pre: seq<Descriptor>, d: Descriptor, r: Option<seq<Descriptor>>)
    ensures Prefixed(pre, if r.None? then None else Some([d] + r.value)) == Prefixed(pre + [d], r)
  {
    if r.Some? { Assoc(pre, [d], r.value); }
  }

  lemma PrefixedAll(pre: seq<Descriptor>, first: Option<seq<Descriptor>>, rest: Option<seq<Descriptor>>)
    ensures first.Some? ==>
              Prefixed(pre, if rest.None? then None else Some(first.value + rest.value)) == Prefixed(pre + first.value, rest)
  {
    if first.Some? && rest.Some? { Assoc(pre, first.value, rest.value); }
  }

  method Negotiate(local: Hello, peer: Hello) returns (r: Result<Capabilities>)
    ensures r == NegotiateSpec(local, peer)
  {
    if local.maxMajor < peer.minMajor || peer.maxMajor < local.minMajor {
      return Err(REJECTED);
    }
    var maxFrame := Min(local.limits.maxFrame, peer.limits.maxFrame);
    var maxMessage := Min(local.limits.maxMessage, peer.limits.maxMessage);
    var window := Min(local.limits.window, peer.limits.window);
    var maxChannels := Min(local.limits.maxChannels, peer.limits.maxChannels);
    if maxFrame < 128 || maxMessage < 1 || window < maxFrame || maxChannels == 0 {
      return Err(REJECTED);
    }
    var common := And64(Or64(local.limits.required, local.limits.optional), Or64(peer.limits.required, peer.limits.optional));
    if And64(local.limits.required, Not64(common)) != 0 || And64(peer.limits.required, Not64(common)) != 0 {
      return Err(ConnectionError(UnknownRequiredFeature));
    }
    var found := MatchPlugins(local.plugins, peer.plugins);
    if found.None? || found.value == [] {
      return Err(Error(Plugin, NegotiationRejected, CloseConnection));
    }
    var caps := Capabilities(Min(local.maxMajor, peer.maxMajor), maxFrame, maxMessage, window, maxChannels, common, [],
                             SortBy(Family, found.value));
    return Ok(caps.(hash := TranscriptHash(caps)));
  }

  // ---------------------------------------------------------------- both ends agree

  /** `d` is what two descriptors of one family agree on. */
  predicate Matched(d: Descriptor, ls: seq<Descriptor>, rs: seq<Descriptor>) {
    exists a <- ls, b <- rs :: a.family == b.family && d == Common(a, b)
  }

  predicate Clash(ls: seq<Descriptor>, rs: seq<Descriptor>) {
    exists a <- ls, b <- rs :: a.family == b.family && a.schema != b.schema
  }

  lemma {:induction false} MatchesMeaning(a: Descriptor, rs: seq<Descriptor>)
    ensures MatchesOf(a, rs).None? <==> exists b <- rs :: a.family == b.family && a.schema != b.schema
    ensures MatchesOf(a, rs).Some? ==>
              forall d :: d in MatchesOf(a, rs).value <==> exists b <- rs :: a.family == b.family && d == Common(a, b)
  {
    if rs != [] {
      MatchesMeaning(a, rs[1..]);
      assert rs == [rs[0]] + rs[1..];
    }
  }

  lemma {:induction false} AllMatchesMeaning(ls: seq<Descriptor>, rs: seq<Descriptor>)
    ensures AllMatches(ls, rs).None? <==> Clash(ls, rs)
    ensures AllMatches(ls, rs).Some? ==> forall d :: d in AllMatches(ls, rs).value <==> Matched(d, ls, rs)
  {
    hide MatchesOf, Common;
    if ls != [] {
      AllMatchesMeaning(ls[1..], rs);
      MatchesMeaning(ls[0], rs);
      assert ls == [ls[0]] + ls[1..];
    }
  }

  lemma {:induction false} NoMatch(a: Descriptor, rs: seq<Descriptor>)
    requires forall b <- rs :: b.family != a.family
    ensures MatchesOf(a, rs) == Some([])
  {
    if rs != [] { NoMatch(a, rs[1..]); }
  }

  lemma {:induction false} AtMostOne(a: Descriptor, rs: seq<Descriptor>)
    requires DistinctFamilies(rs) && MatchesOf(a, rs).Some?
    ensures |MatchesOf(a, rs).value| <= 1
    ensures forall d <- MatchesOf(a, rs).value :: d.family == a.family
  {
    if rs != [] {
      assert rs == [rs[0]] + rs[1..];
      DistinctCons(rs[0], rs[1..]);
      AtMostOne(a, rs[1..]);
      MatchesMeaning(a, rs[1..]);
      if a.family == rs[0].family {
        NoMatch(a, rs[1..]);
      }
    }
  }

  lemma {:induction false} MatchesDistinct(ls: seq<Descriptor>, rs: seq<Descriptor>)
    requires DistinctFamilies(ls) && DistinctFamilies(rs) && AllMatches(ls, rs).Some?
    ensures DistinctFamilies(AllMatches(ls, rs).value)
  {
    hide DistinctFamilies, MatchesOf;
    if ls == [] {
      NoneDistinct();
    } else {
      assert ls == [ls[0]] + ls[1..];
      DistinctCons(ls[0], ls[1..]);
      var first, rest := MatchesOf(ls[0], rs).value, AllMatches(ls[1..], rs).value;
      MatchesDistinct(ls[1..], rs);
      AtMostOne(ls[0], rs);
      AllMatchesMeaning(ls[1..], rs);
      if first == [] {
        assert first + rest == rest;
      } else {
        assert first == [first[0]] && first[0] in first;
        forall d | d in rest
          ensures d.family != first[0].family
        {
          assert Matched(d, ls[1..], rs);
        }
        DistinctCons(first[0], rest);
      }
    }
  }

  lemma NoneDistinct()
    ensures DistinctFamilies([])
  {
  }

  lemma MatchedSymmetric(d: Descriptor, ls: seq<Descriptor>, rs: seq<Descriptor>)
    requires !Clash(ls, rs) && Matched(d, ls, rs)
    ensures Matched(d, rs, ls)
  {
    var a, b :| a in ls && b in rs && a.family == b.family && d == Common(a, b);
    assert a.schema == b.schema;
    assert d == Common(b, a);
  }

  lemma ClashSymmetric(ls: seq<Descriptor>, rs: seq<Descriptor>)
    ensures Clash(ls, rs) <==> Clash(rs, ls)
  {
  }

  lemma HeadIsLeast(ds: seq<Descriptor>)
    requires StrictlySorted(Family, ds) && ds != []
    ensures StrictlySorted(Family, ds[1..])
    ensures forall d <- ds[1..] :: ds[0].family < d.family
  {
    forall d | d in ds[1..]
      ensures ds[0].family < d.family
    {
      var i :| 1 <= i < |ds| && ds[i] == d;
      assert Family(ds[0]) < Family(ds[i]);
    }
    forall i, j | 0 <= i < j < |ds[1..]|
      ensures Family(ds[1..][i]) < Family(ds[1..][j])
    {
      assert Family(ds[i + 1]) < Family(ds[j + 1]);
    }
  }

  lemma Members(ds: seq<Descriptor>)
    ensures ds == [] <==> forall d :: d !in ds
  {
    if ds != [] { assert ds[0] in ds; }
  }

  lemma {:induction false} SameMembersSorted(a: seq<Descriptor>, b: seq<Descriptor>)
    requires StrictlySorted(Family, a) && StrictlySorted(Family, b)
    requires forall d :: d in a <==> d in b
    ensures a == b
  {
    hide StrictlySorted;
    if a == [] {
      Members(a);
      Members(b);
    } else {
      assert a[0] in b;
      HeadIsLeast(a);
      HeadIsLeast(b);
      assert b[0] in a;
      assert a == [a[0]] + a[1..] && b == [b[0]] + b[1..];
      assert a[0] == b[0];
      forall d
        ensures d in a[1..] <==> d in b[1..]
      {
        if d in a[1..] { assert d in b; }
        if d in b[1..] { assert d in a; }
      }
      SameMembersSorted(a[1..], b[1..]);
    }
  }

  /** The outcome of the plugin loops depends on the two sets of descriptors only. */
  lemma SameOutcome(l1: seq<Descriptor>, r1: seq<Descriptor>, l2: seq<Descriptor>, r2: seq<Descriptor>)
    requires DistinctFamilies(l1) && DistinctFamilies(r1) && DistinctFamilies(l2) && DistinctFamilies(r2)
    requires Clash(l1, r1) <==> Clash(l2, r2)
    requires !Clash(l1, r1) ==> forall d :: Matched(d, l1, r1) <==> Matched(d, l2, r2)
    ensures var m1, m2 := AllMatches(l1, r1), AllMatches(l2, r2);
            && (m1.None? <==> m2.None?)
            && (m1.Some? ==> (m1.value == [] <==> m2.value == []) && SortBy(Family, m1.value) == SortBy(Family, m2.value))
  {
    hide DistinctFamilies, Clash, Matched, AllMatches;
    AllMatchesMeaning(l1, r1);
    AllMatchesMeaning(l2, r2);
    if !Clash(l1, r1) {
      var m1, m2 := AllMatches(l1, r1).value, AllMatches(l2, r2).value;
      MatchesDistinct(l1, r1);
      MatchesDistinct(l2, r2);
      NoRepeatIff(m1);
      NoRepeatIff(m2);
      SameDescriptors(m1);
      SameDescriptors(m2);
      SameMembersSorted(SortBy(Family, m1), SortBy(Family, m2));
      Members(m1);
      Members(m2);
    }
  }

  lemma SameDescriptors(ds: seq<Descriptor>)
    ensures forall d :: d in SortBy(Family, ds) <==> d in ds
  {
    SortBySorted(Family, ds);
    SameFamilies(SortBy(Family, ds), ds);
  }

  /** Negotiation gives both sides the same result, errors included. */
  lemma NegotiateSymmetric(a: Hello, b: Hello)
    requires DistinctFamilies(a.plugins) && DistinctFamilies(b.plugins)
    ensures NegotiateSpec(a, b) == NegotiateSpec(b, a)
  {
    hide DistinctFamilies, AllMatches, TranscriptHash, And64, Or64, Not64;
    And64Commutes(Offered(a.limits), Offered(b.limits));
    ClashSymmetric(a.plugins, b.plugins);
    if !Clash(a.plugins, b.plugins) {
      forall d
        ensures Matched(d, a.plugins, b.plugins) <==> Matched(d, b.plugins, a.plugins)
      {
        if Matched(d, a.plugins, b.plugins) { MatchedSymmetric(d, a.plugins, b.plugins); }
        if Matched(d, b.plugins, a.plugins) { MatchedSymmetric(d, b.plugins, a.plugins); }
      }
    }
    SameOutcome(a.plugins, b.plugins, b.plugins, a.plugins);
    assert Bounds(a, b) == Bounds(b, a);
  }

  /** The limits that the wire can carry. */
  predicate Fits32(p: Policy) {
    p.maxFrame < U32_SPAN && p.maxMessage < U32_SPAN && p.window < U32_SPAN
  }

  /** Nothing that negotiation looks at is lost on the wire. */
  lemma NegotiateOverWire(a: Hello, b: Hello)
    requires DistinctFamilies(a.plugins) && DistinctFamilies(b.plugins) && Fits32(b.limits)
    ensures NegotiateSpec(a, OverWire(b)) == NegotiateSpec(a, b)
  {
    hide DistinctFamilies, AllMatches, TranscriptHash, And64, Or64, Not64;
    DistinctSorted(b.plugins);
    SameDescriptors(b.plugins);
    SameOutcome(a.plugins, b.plugins, a.plugins, SortBy(Family, b.plugins));
    assert Bounds(a, OverWire(b)) == Bounds(a, b);
  }

  /**
   After the HELLOs have crossed, both ends hold the same result: the same error, or the same
   capability set with the same transcript hash.
   */
  lemma BothEndsAgree(local: Hello, remote: Hello)
    requires EncodeHelloSpec(local).Ok? && EncodeHelloSpec(remote).Ok?
    requires |local.plugins| < 0x1_0000 && |remote.plugins| < 0x1_0000
    requires Fits32(local.limits) && Fits32(remote.limits)
    ensures var atLocal := DecodeHelloSpec(EncodeHelloSpec(remote).value);
            var atRemote := DecodeHelloSpec(EncodeHelloSpec(local).value);
            && atLocal.Ok? && atRemote.Ok?
            && NegotiateSpec(local, atLocal.value) == NegotiateSpec(remote, atRemote.value)
  {
    hide EncodeHelloSpec, DecodeHelloSpec, NegotiateSpec, OverWire, DistinctFamilies;
    HelloRoundTrip(local);
    HelloRoundTrip(remote);
    NegotiateOverWire(local, remote);
    NegotiateOverWire(remote, local);
    NegotiateSymmetric(local, remote);
  }

  /** Cutting the two limits to 32 bits does not change their minimum as either end sees it. */
  predicate CutHarmless(a: u64, b: u64) {
    if a < U32_SPAN && b < U32_SPAN then true
    else if a < U32_SPAN then a <= b % U32_SPAN
    else if b < U32_SPAN then b <= a % U32_SPAN
    else a % U32_SPAN == b % U32_SPAN
  }

  lemma CutMinimum(a: u64, b: u64)
    ensures Min(a, b % U32_SPAN) == Min(b, a % U32_SPAN) <==> CutHarmless(a, b)
  {
  }

  /**
   For limits of any size, over the bytes that cross: unless both ends refuse the session, they hold the
   same result exactly when each pair of limits survives the cut to 32 bits.
   */
  lemma AgreeIff(local: Hello, remote: Hello)
    requires EncodeHelloSpec(local).Ok? && EncodeHelloSpec(remote).Ok?
    requires |local.plugins| < 0x1_0000 && |remote.plugins| < 0x1_0000
    ensures var atLocal := DecodeHelloSpec(EncodeHelloSpec(remote).value);
            var atRemote := DecodeHelloSpec(EncodeHelloSpec(local).value);
            && atLocal.Ok? && atRemote.Ok?
            && var here, there := NegotiateSpec(local, atLocal.value), NegotiateSpec(remote, atRemote.value);
               here.Ok? || there.Ok? ==>
                 (here == there <==>
                    && CutHarmless(local.limits.maxFrame, remote.limits.maxFrame)
                    && CutHarmless(local.limits.maxMessage, remote.limits.maxMessage)
                    && CutHarmless(local.limits.window, remote.limits.window))
  {
    hide EncodeHelloSpec, DecodeHelloSpec, DistinctFamilies, AllMatches, TranscriptHash, And64, Or64, Not64, CutHarmless,
         Clash, Matched;
    HelloRoundTrip(local);
    HelloRoundTrip(remote);
    CutMinimum(local.limits.maxFrame, remote.limits.maxFrame);
    CutMinimum(local.limits.maxMessage, remote.limits.maxMessage);
    CutMinimum(local.limits.window, remote.limits.window);
    And64Commutes(Offered(local.limits), Offered(remote.limits));
    SamePlugins(local.plugins, remote.plugins);
  }

  /** The plugins two ends settle on, each from its own list and the other's sorted one. */
  lemma SamePlugins(ls: seq<Descriptor>, rs: seq<Descriptor>)
    requires DistinctFamilies(ls) && DistinctFamilies(rs)
    ensures var m1, m2 := AllMatches(ls, SortBy(Family, rs)), AllMatches(rs, SortBy(Family, ls));
            && (m1.None? <==> m2.None?)
            && (m1.Some? ==> (m1.value == [] <==> m2.value == []) && SortBy(Family, m1.value) == SortBy(Family, m2.value))
  {
    hide DistinctFamilies, AllMatches;
    DistinctSorted(ls);
    DistinctSorted(rs);
    SameDescriptors(ls);
    SameDescriptors(rs);
    var l2, r2 := SortBy(Family, ls), SortBy(Family, rs);
    ClashSymmetric(ls, rs);
    assert Clash(ls, r2) <==> Clash(ls, rs);
    assert Clash(rs, l2) <==> Clash(rs, ls);
    if !Clash(ls, rs) {
      forall d
        ensures Matched(d, ls, r2) <==> Matched(d, rs, l2)
      {
        assert Matched(d, ls, r2) <==> Matched(d, ls, rs);
        assert Matched(d, rs, l2) <==> Matched(d, rs, ls);
        if Matched(d, ls, rs) { MatchedSymmetric(d, ls, rs); }
        if Matched(d, rs, ls) { MatchedSymmetric(d, rs, ls); }
      }
    }
    SameOutcome(ls, r2, rs, l2);
  }

  /** A limit of 2^32 or more is cut on the wire, and then the two ends can settle on different frames. */
  lemma WideLimitsDisagree()
    ensures var d := Descriptor(7, 0, 4);
            var wide := Hello(1, 1, Policy(1, 1, U32_SPAN + 200, 1024, 1024, 1, 0, 0, 1), [d]);
            var narrow := Hello(1, 1, Policy(1, 1, 300, 1024, 1024, 1, 0, 0, 1), [d]);
            && NegotiateSpec(wide, OverWire(narrow)).Ok? && NegotiateSpec(narrow, OverWire(wide)).Ok?
            && NegotiateSpec(wide, OverWire(narrow)).value.maxFrame == 300
            && NegotiateSpec(narrow, OverWire(wide)).value.maxFrame == 200
  {
    hide TranscriptHash, And64, Not64, Or64;
    OnePlugin(Descriptor(7, 0, 4));
    NoBits();
  }

  /** Worse, one end can go ahead with the session that the other refuses. */
  lemma WideLimitsSplit()
    ensures var d := Descriptor(7, 0, 4);
            var wide := Hello(1, 1, Policy(1, 1, U32_SPAN + 50, 1024, 1024, 1, 0, 0, 1), [d]);
            var narrow := Hello(1, 1, Policy(1, 1, 300, 1024, 1024, 1, 0, 0, 1), [d]);
            NegotiateSpec(wide, OverWire(narrow)).Ok? && NegotiateSpec(narrow, OverWire(wide)) == Err(REJECTED)
  {
    hide TranscriptHash, And64, Not64, Or64;
    OnePlugin(Descriptor(7, 0, 4));
    NoBits();
  }

  lemma OnePlugin(d: Descriptor)
    ensures SortBy(Family, [d]) == [d] && AllMatches([d], [d]) == Some([Common(d, d)])
  {
    assert [d][1..] == [];
    assert MatchesOf(d, [d]) == Some([Common(d, d)] + []);
  }

  lemma NoBits()
    ensures forall mask: u64 :: And64(0, mask) == 0
  {
    forall mask: u64
      ensures And64(0, mask) == 0
    {
      hide And, Pow2;
      WordSpans();
      AndZero(64, mask);
    }
  }

  lemma {:induction false} AndZero(n: nat, b: nat)
    requires b < Pow2(n)
    ensures 0 < Pow2(n) && And(n, 0, b) == 0
  {
    if n > 0 { AndZero(n - 1, b / 2); }
  }

  /** When a session is agreed, and what each side can rely on. */
  lemma NegotiateMeaning(local: Hello, peer: Hello)
    ensures var common := And64(Offered(local.limits), Offered(peer.limits));
            NegotiateSpec(local, peer).Ok? <==>
              && peer.minMajor <= local.maxMajor && local.minMajor <= peer.maxMajor
              && 128 <= Min(local.limits.maxFrame, peer.limits.maxFrame) <= Min(local.limits.window, peer.limits.window)
              && local.limits.maxMessage > 0 && peer.limits.maxMessage > 0
              && local.limits.maxChannels > 0 && peer.limits.maxChannels > 0
              && And64(local.limits.required, common) == local.limits.required
              && And64(peer.limits.required, common) == peer.limits.required
              && !Clash(local.plugins, peer.plugins)
              && exists d :: Matched(d, local.plugins, peer.plugins)
    ensures NegotiateSpec(local, peer).Ok? ==>
              var c := NegotiateSpec(local, peer).value;
              && (peer.minMajor <= peer.maxMajor && local.minMajor <= local.maxMajor ==>
                    local.minMajor <= c.major <= local.maxMajor && peer.minMajor <= c.major <= peer.maxMajor)
              && 128 <= c.maxFrame <= c.window && 1 <= c.maxMessage && 1 <= c.maxChannels
              && SortedBy(Family, c.plugins)
              && (forall d :: d in c.plugins <==> Matched(d, local.plugins, peer.plugins))
              && c.hash == TranscriptHash(c.(hash := []))
  {
    hide Clash, Matched, AllMatches, TranscriptHash, And64, Or64, Not64;
    var common := And64(Offered(local.limits), Offered(peer.limits));
    Covered(local.limits.required, common);
    Covered(peer.limits.required, common);
    AllMatchesMeaning(local.plugins, peer.plugins);
    if !Clash(local.plugins, peer.plugins) {
      var found := AllMatches(local.plugins, peer.plugins).value;
      if found != [] { assert found[0] in found; }
      SortBySorted(Family, found);
      SameDescriptors(found);
    }
  }

  /** Where everything in a HELLO is, with integers in network byte order. */
  lemma HelloLayout(h: Hello)
    ensures var bs := Head(h);
            && Value(bs[0..2]) == h.minMajor && Value(bs[2..4]) == h.maxMajor
            && Value(bs[4..8]) == h.limits.maxFrame % U32_SPAN && Value(bs[8..12]) == h.limits.maxMessage % U32_SPAN
            && Value(bs[12..16]) == h.limits.window % U32_SPAN && Value(bs[16..18]) == h.limits.maxChannels
            && Value(bs[18..26]) == h.limits.required && Value(bs[26..34]) == h.limits.optional
            && Value(bs[34..36]) == |h.plugins| % 0x1_0000
  {
    hide Value, Head, U16Bytes, U32Bytes, U64Bytes;
    HeadSlices(h, []);
    assert Head(h) + [] == Head(h);
    BigEndian(h.minMajor, 0, h.limits.maxFrame % U32_SPAN, h.limits.required);
    BigEndian(h.maxMajor, 0, h.limits.maxMessage % U32_SPAN, h.limits.optional);
    BigEndian(h.limits.maxChannels, 0, h.limits.window % U32_SPAN, 0);
    BigEndian(|h.plugins| % 0x1_0000, 0, 0, 0);
  }

  lemma DescriptorLayout(d: Descriptor)
    ensures var bs := DescriptorBytes(d);
            Value(bs[0..4]) == d.family && Value(bs[4..12]) == d.schema && Value(bs[12..16]) == d.depth
  {
    hide Value, U32Bytes, U64Bytes;
    BigEndian(0, 0, d.family, d.schema);
    BigEndian(0, 0, d.depth, 0);
    var bs := DescriptorBytes(d);
    assert bs[0..4] == U32Bytes(d.family) && bs[4..12] == U64Bytes(d.schema) && bs[12..16] == U32Bytes(d.depth);
  }

  lemma {:induction false} DescriptorsSize(ds: seq<Descriptor>)
    ensures |DescriptorsBytes(ds)| == 16 * |ds|
  {
    hide DescriptorBytes;
    if ds != [] { DescriptorsSize(ds[1..]); }
  }

  /** The fixed part of what the transcript hash is taken over. */
  function HashHead(c: Capabilities): (bs: Bytes)
    ensures |bs| == 24
  {
    U16Bytes(c.major)
    + U32Bytes(c.maxFrame % U32_SPAN) + U32Bytes(c.maxMessage % U32_SPAN) + U32Bytes(c.window % U32_SPAN)
    + U16Bytes(c.maxChannels) + U64Bytes(c.features)
  }

  lemma HashHeadReads(c: Capabilities)
    ensures var bs := HashHead(c);
            && Value(bs[0..2]) == c.major && Value(bs[2..6]) == c.maxFrame % U32_SPAN
            && Value(bs[6..10]) == c.maxMessage % U32_SPAN && Value(bs[10..14]) == c.window % U32_SPAN
            && Value(bs[14..16]) == c.maxChannels && Value(bs[16..24]) == c.features
  {
    hide Value, U16Bytes, U32Bytes, U64Bytes;
    BigEndian(c.major, 0, c.maxFrame % U32_SPAN, c.features);
    BigEndian(c.maxChannels, 0, c.maxMessage % U32_SPAN, 0);
    BigEndian(0, 0, c.window % U32_SPAN, 0);
    var bs := HashHead(c);
    assert bs[0..2] == U16Bytes(c.major) && bs[2..6] == U32Bytes(c.maxFrame % U32_SPAN);
    assert bs[6..10] == U32Bytes(c.maxMessage % U32_SPAN) && bs[10..14] == U32Bytes(c.window % U32_SPAN);
    assert bs[14..16] == U16Bytes(c.maxChannels) && bs[16..24] == U64Bytes(c.features);
  }

  /**
   The transcript hash is taken over everything that was agreed: two sets with limits below 2^32 have the same
   hash input only if they agree in every field, plugins and their order included.
   */
  lemma HashInputInjective(a: Capabilities, b: Capabilities)
    requires a.maxFrame < U32_SPAN && a.maxMessage < U32_SPAN && a.window < U32_SPAN
    requires b.maxFrame < U32_SPAN && b.maxMessage < U32_SPAN && b.window < U32_SPAN
    ensures HashInput(a) == HashInput(b) <==> a.(hash := []) == b.(hash := [])
  {
    hide Value, HashHead, DescriptorsBytes, U16Bytes, U32Bytes, U64Bytes, ReadDescriptors;
    HashHeadReads(a);
    HashHeadReads(b);
    InputParts(a);
    InputParts(b);
    DescriptorsSize(a.plugins);
    DescriptorsSize(b.plugins);
    if HashInput(a) == HashInput(b) {
      var x, y := HashHead(a), HashHead(b);
      assert x == HashInput(a)[..24] && y == HashInput(b)[..24];
      assert DescriptorsBytes(a.plugins) == HashInput(a)[24..] && DescriptorsBytes(b.plugins) == HashInput(b)[24..];
      DescriptorsRead(a.plugins, []);
      DescriptorsRead(b.plugins, []);
      assert [] + DescriptorsBytes(a.plugins) == DescriptorsBytes(a.plugins);
      assert [] + DescriptorsBytes(b.plugins) == DescriptorsBytes(b.plugins);
    }
  }

  lemma InputParts(c: Capabilities)
    ensures HashInput(c) == HashHead(c) + DescriptorsBytes(c.plugins)
    ensures HashInput(c) == HashInput(c.(hash := []))
  {
    hide DescriptorsBytes, U16Bytes, U32Bytes, U64Bytes;
  }

  /**
   The four words of the transcript hash, in network byte order: the checksum of the input, that of the input with
   A5 behind it, the bits in which the two differ, and their sum modulo 2^32.
   */
  lemma HashWords(c: Capabilities, k: nat)
    requires k < 32
    ensures var hash, first, second := TranscriptHash(c), Crc32c(HashInput(c)), Crc32c(HashInput(c) + [0xA5]);
            && Value(hash[0..4]) == first && Value(hash[4..8]) == second
            && (Bit(Value(hash[8..12]), k) <==> Bit(first, k) != Bit(second, k))
            && Value(hash[12..16]) == (first + second) % U32_SPAN
  {
    hide Crc32c, HashInput, U32Bytes, Value, Bit, Xor32, Pow2;
    var first, second := Crc32c(HashInput(c)), Crc32c(HashInput(c) + [0xA5]);
    FourWords(U32Bytes(first), U32Bytes(second), U32Bytes(Xor32(first, second)), U32Bytes((first + second) % U32_SPAN));
    BigEndian(0, 0, first, 0);
    BigEndian(0, 0, second, 0);
    BigEndian(0, 0, Xor32(first, second), 0);
    BigEndian(0, 0, (first + second) % U32_SPAN, 0);
    XorBits(first, second, k);
  }

  lemma XorBits(a: u32, b: u32, k: nat)
    requires k < 32
    ensures Bit(Xor32(a, b), k) <==> Bit(a, k) != Bit(b, k)
  {
    hide Bit, Bits.Xor, Pow2;
    WordSpans();
    BitsOf(32, a, b, k);
  }

  lemma FourWords(a: Bytes, b: Bytes, c: Bytes, d: Bytes)
    requires |a| == |b| == |c| == |d| == 4
    ensures var all := a + b + c + d;
            all[0..4] == a && all[4..8] == b && all[8..12] == c && all[12..16] == d
  {
  }

  /**
   Which error a failed negotiation has: a rejection while versions or limits do not meet, then the unknown feature,
   and the plugin error once only plugins are in the way.
   */
  lemma NegotiateErrors(local: Hello, peer: Hello)
    ensures var common := And64(Offered(local.limits), Offered(peer.limits));
            var meets := peer.minMajor <= local.maxMajor && local.minMajor <= peer.maxMajor
                         && 128 <= Min(local.limits.maxFrame, peer.limits.maxFrame) <= Min(local.limits.window, peer.limits.window)
                         && local.limits.maxMessage > 0 && peer.limits.maxMessage > 0
                         && local.limits.maxChannels > 0 && peer.limits.maxChannels > 0;
            var known := And64(local.limits.required, common) == local.limits.required
                         && And64(peer.limits.required, common) == peer.limits.required;
            NegotiateSpec(local, peer).Err? ==>
              NegotiateSpec(local, peer).error
              == if !meets then REJECTED
                 else if !known then ConnectionError(UnknownRequiredFeature)
                 else Error(Plugin, NegotiationRejected, CloseConnection)
  {
    hide AllMatches, TranscriptHash, And64, Or64, Not64;
    var common := And64(Offered(local.limits), Offered(peer.limits));
    Covered(local.limits.required, common);
    Covered(peer.limits.required, common);
  }

  predicate Speaks(h: Hello, version: u16) { h.minMajor <= version <= h.maxMajor }

  /** Feature `k` is one this end requires or offers. */
  predicate Has(p: Policy, k: nat) { Bit(p.required, k) || Bit(p.optional, k) }

  predicate WithinBoth(n: int, a: int, b: int) { n <= a && n <= b }

  ghost predicate Greatest(n: int, a: int, b: int) {
    WithinBoth(n, a, b) && forall m :: WithinBoth(m, a, b) ==> m <= n
  }

  /**
   What is agreed: the highest version both ends speak; as each limit the greatest value within both offers;
   and exactly the features that each end requires or offers, all that either requires among them.
   */
  lemma AgreedMeaning(local: Hello, peer: Hello)
    requires NegotiateSpec(local, peer).Ok?
    ensures var c := NegotiateSpec(local, peer).value;
            && (forall v: u16 :: Speaks(local, v) && Speaks(peer, v) ==> v <= c.major)
            && (local.minMajor <= local.maxMajor && peer.minMajor <= peer.maxMajor ==> Speaks(local, c.major) && Speaks(peer, c.major))
            && Greatest(c.maxFrame, local.limits.maxFrame, peer.limits.maxFrame)
            && Greatest(c.maxMessage, local.limits.maxMessage, peer.limits.maxMessage)
            && Greatest(c.window, local.limits.window, peer.limits.window)
            && Greatest(c.maxChannels, local.limits.maxChannels, peer.limits.maxChannels)
            && (forall k: nat | k < 64 :: Bit(c.features, k) <==> Has(local.limits, k) && Has(peer.limits, k))
            && (forall k: nat | k < 64 :: Bit(local.limits.required, k) || Bit(peer.limits.required, k) ==> Bit(c.features, k))
  {
    hide AllMatches, TranscriptHash, And64, Or64, Not64, Bit;
    var c := NegotiateSpec(local, peer).value;
    NegotiateMeaning(local, peer);
    forall k: nat | k < 64
      ensures Bit(c.features, k) <==> Has(local.limits, k) && Has(peer.limits, k)
      ensures Bit(local.limits.required, k) || Bit(peer.limits.required, k) ==> Bit(c.features, k)
    {
      FeatureBit(local.limits, peer.limits, k);
    }
  }

  /** `d` is what two descriptors of one family and schema come to: the greatest depth within both. */
  ghost predicate Offer(d: Descriptor, a: Descriptor, b: Descriptor) {
    && d.family == a.family == b.family && d.schema == a.schema == b.schema
    && Greatest(d.depth, a.depth, b.depth)
  }

  ghost predicate BothOffer(d: Descriptor, ls: seq<Descriptor>, rs: seq<Descriptor>) {
    exists a, b :: a in ls && b in rs && Offer(d, a, b)
  }

  lemma CommonIsOffer(ls: seq<Descriptor>, rs: seq<Descriptor>, a: Descriptor, b: Descriptor)
    requires !Clash(ls, rs) && a in ls && b in rs && a.family == b.family
    ensures Offer(Common(a, b), a, b) && Matched(Common(a, b), ls, rs) && BothOffer(Common(a, b), ls, rs)
  {
    NoClash(ls, rs, a, b);
  }

  lemma OfferIsCommon(ls: seq<Descriptor>, rs: seq<Descriptor>, d: Descriptor)
    requires !Clash(ls, rs)
    ensures Matched(d, ls, rs) <==> BothOffer(d, ls, rs)
  {
    hide Clash;
    if Matched(d, ls, rs) {
      var a, b :| a in ls && b in rs && a.family == b.family && d == Common(a, b);
      CommonIsOffer(ls, rs, a, b);
    }
    if BothOffer(d, ls, rs) {
      var a, b :| a in ls && b in rs && Offer(d, a, b);
      OfferUnique(d, a, b);
    }
  }

  lemma OfferUnique(d: Descriptor, a: Descriptor, b: Descriptor)
    requires Offer(d, a, b)
    ensures d == Common(a, b)
  {
    assert WithinBoth(Min(a.depth, b.depth), a.depth, b.depth);
  }

  /**
   The plugins agreed are exactly those both ends offer: each has the family and schema both name, and the greatest
   depth within both offers.
   */
  lemma AgreedPlugins(local: Hello, peer: Hello, d: Descriptor)
    requires NegotiateSpec(local, peer).Ok?
    ensures d in NegotiateSpec(local, peer).value.plugins <==> BothOffer(d, local.plugins, peer.plugins)
  {
    hide Clash, Matched, AllMatches, TranscriptHash, And64, Or64, Not64, BothOffer;
    NegotiateMeaning(local, peer);
    OfferIsCommon(local.plugins, peer.plugins, d);
  }

  lemma NoClash(ls: seq<Descriptor>, rs: seq<Descriptor>, a: Descriptor, b: Descriptor)
    requires !Clash(ls, rs) && a in ls && b in rs && a.family == b.family
    ensures a.schema == b.schema
  {
  }

  lemma FeatureBit(a: Policy, b: Policy, k: nat)
    requires k < 64
    ensures var common := And64(Offered(a), Offered(b));
            && (Bit(common, k) <==> Has(a, k) && Has(b, k))
            && (And64(a.required, common) == a.required && Bit(a.required, k) ==> Bit(common, k))
            && (And64(b.required, common) == b.required && Bit(b.required, k) ==> Bit(common, k))
  {
    hide And64, Or64, Not64, Bit;
    var common := And64(Offered(a), Offered(b));
    WordBits(a.required, a.optional, k);
    WordBits(b.required, b.optional, k);
    WordBits(Offered(a), Offered(b), k);
    WordBits(a.required, common, k);
    WordBits(b.required, common, k);
  }

  /** The plugins of a session do not depend on how the sort orders equal families. */
  ghost predicate OrderSettled(found: seq<Descriptor>) {
    forall plugins :: Arrangement(Family, found, plugins) ==> plugins == SortBy(Family, found)
  }

  /**
   The program's sort is not stable. What it returns is determined exactly when no two matches of one family
   differ, as when neither end offers a family twice. Nothing refuses a HELLO that does.
   */
  lemma OrderSettledIff(local: Hello, peer: Hello)
    requires AllMatches(local.plugins, peer.plugins).Some?
    ensures OrderSettled(AllMatches(local.plugins, peer.plugins).value) <==>
              forall d, e | Matched(d, local.plugins, peer.plugins) && Matched(e, local.plugins, peer.plugins) ::
                d.family == e.family ==> d == e
    ensures DistinctFamilies(local.plugins) && DistinctFamilies(peer.plugins) ==>
              OrderSettled(AllMatches(local.plugins, peer.plugins).value)
  {
    hide Matched, AllMatches, DistinctFamilies;
    var found := AllMatches(local.plugins, peer.plugins).value;
    AllMatchesMeaning(local.plugins, peer.plugins);
    AnySortIff(Family, found);
    if DistinctFamilies(local.plugins) && DistinctFamilies(peer.plugins) {
      MatchesDistinct(local.plugins, peer.plugins);
      DistinctDecide(found);
    }
  }

  lemma DistinctDecide(ds: seq<Descriptor>)
    requires DistinctFamilies(ds)
    ensures KeysDecide(Family, ds)
  {
  }

  /** Nothing in a payload's descriptors is refused, a repeated family included. */
  lemma AnyPluginsRead(h: Hello)
    requires |h.plugins| < 0x1_0000
    ensures DecodeHelloSpec(Head(h) + DescriptorsBytes(h.plugins)) == Ok(OverWire(h).(plugins := h.plugins))
  {
    hide Head, ReadU16, ReadLimits, ReadDescriptors;
    HeadReads(h, DescriptorsBytes(h.plugins));
    DescriptorsRead(h.plugins, Head(h));
  }

  /** So a peer can name one family twice, with different depths, and the order of the matches is then open. */
  lemma RepeatedFamily(h: Hello)
    requires h.plugins == [Descriptor(1, 0, 3), Descriptor(1, 0, 5)]
    ensures var mine := [Descriptor(1, 0, 5)];
            var r := DecodeHelloSpec(Head(h) + DescriptorsBytes(h.plugins));
            && r.Ok? && AllMatches(mine, r.value.plugins) == Some(h.plugins)
            && !OrderSettled(h.plugins)
  {
    hide DecodeHelloSpec, Head, DescriptorsBytes, OverWire;
    AnyPluginsRead(h);
    BothMatch(Descriptor(1, 0, 3), Descriptor(1, 0, 5));
    AnySortIff(Family, h.plugins);
    assert h.plugins[0] in h.plugins && h.plugins[1] in h.plugins;
  }

  lemma BothMatch(low: Descriptor, high: Descriptor)
    requires low.family == high.family && low.schema == high.schema && low.depth < high.depth
    ensures AllMatches([high], [low, high]) == Some([low, high])
  {
    var rs := [low, high];
    assert rs[1..] == [high] && [high][1..] == [];
    assert MatchesOf(high, [high]) == Some([high] + []) && [high] + [] == [high];
    assert MatchesOf(high, rs) == Some([low] + [high]) && [low] + [high] == rs;
    assert rs + [] == rs;
  }
}

/** What the frame codec promises: an inverse pair, a stream cut anywhere, and error detection. */
module CodecTheorems {
  import opened Types
  import opened Wire
  import opened Sorting
  import opened Extensions
  import opened Crc
  import opened FrameCodec

  // ---------------------------------------------------------------- a settled step stays settled

  lemma HeaderStable(limits: FrameLimits, view: Bytes, more: Bytes, eof: bool)
    requires ReadHeader(limits, view, false) != HeaderMore
    ensures ReadHeader(limits, view + more, eof) == ReadHeader(limits, view, false)
  {
    hide UlebFrom, TypeOf;
    var all := view + more;
    assert forall i :: 0 <= i < |view| ==> all[i] == view[i];
    if UlebParse(view, FIXED_PREFIX) != Err(Error(Connection, NeedMoreData, NoAction)) {
      UlebStable(view, FIXED_PREFIX, 0, 0, more);
    }
    UlebErrors(view, FIXED_PREFIX, 0, 0);
  }

  lemma {:induction false} UlebErrors(bs: Bytes, offset: nat, i: nat, value: u32)
    requires i <= MAX_VARINT_BYTES
    ensures UlebFrom(bs, offset, i, value).Err? ==>
              var e := UlebFrom(bs, offset, i, value).error;
              e == Error(Connection, NeedMoreData, NoAction) || e.code != NeedMoreData
    decreases MAX_VARINT_BYTES - i
  {
    if i < MAX_VARINT_BYTES && offset + i < |bs| {
      UlebErrors(bs, offset, i + 1, Gather(value, bs[offset + i], i));
    }
  }

  lemma StepStable(limits: FrameLimits, view: Bytes, more: Bytes, eof: bool)
    requires DecodeStep(limits, view, false) != More
    ensures DecodeStep(limits, view + more, eof) == DecodeStep(limits, view, false)
  {
    hide ReadHeader, Crc32c, ParseExtensionsSpec;
    HeaderStable(limits, view, more, eof);
    match ReadHeader(limits, view, false)
    case HeaderBad(_) =>
    case HeaderOk(h) =>
      var all := view + more;
      assert all[..h.WithoutCrc()] == view[..h.WithoutCrc()];
      assert all[h.Prefix()..h.Body()] == view[h.Prefix()..h.Body()];
      assert all[h.Body()..h.WithoutCrc()] == view[h.Body()..h.WithoutCrc()];
      assert forall i :: 0 <= i < |view| ==> all[i] == view[i];
  }

  // ---------------------------------------------------------------- what a stream means

  /** The frames of a byte stream, the error that ends it if any, and the bytes left over. */
  datatype Reading = Reading(frames: seq<Frame>, error: Option<Error>, rest: Bytes)

  function Read(limits: FrameLimits, buffer: Bytes, eof: bool): Reading
    decreases |buffer|
  {
    match DecodeStep(limits, buffer, eof)
    case More => Reading([], None, buffer)
    case Bad(e) => Reading([], Some(e), [])
    case Got(f, n) =>
      var r := Read(limits, buffer[n..], eof);
      Reading([f] + r.frames, r.error, r.rest)
  }

  function Frames(events: seq<DecodeEvent>): seq<Frame> {
    if events == [] then []
    else if events[0].Decoded? then [events[0].frame] + Frames(events[1..])
    else Frames(events[1..])
  }

  function FirstError(events: seq<DecodeEvent>): Option<Error> {
    if events == [] then None
    else if events[0].Failed? then Some(events[0].error)
    else FirstError(events[1..])
  }

  lemma {:induction false} FramesAppend(a: seq<DecodeEvent>, b: seq<DecodeEvent>)
    ensures Frames(a + b) == Frames(a) + Frames(b)
    ensures FirstError(a + b) == if FirstError(a).Some? then FirstError(a) else FirstError(b)
  {
    if a == [] {
      assert a + b == b;
    } else {
      assert (a + b)[1..] == a[1..] + b;
      FramesAppend(a[1..], b);
    }
  }

  /** The events `feed` reports say exactly what `Read` says. */
  lemma {:induction false} DrainReads(limits: FrameLimits, buffer: Bytes, eof: bool, events: seq<DecodeEvent>)
    requires FirstError(events).None?
    ensures var (out, rest) := Drain(limits, buffer, eof, events);
            var r := Read(limits, buffer, eof);
            && Frames(out) == Frames(events) + r.frames
            && FirstError(out) == r.error
            && rest == r.rest
    decreases |buffer|
  {
    hide DecodeStep;
    match DecodeStep(limits, buffer, eof)
    case More =>
    case Bad(e) =>
      FramesAppend(events, [Failed(e)]);
    case Got(f, n) =>
      FramesAppend(events, [Decoded(f)]);
      assert Frames([Decoded(f)]) == [f] + Frames([]);
      if n == |buffer| {
        EmptyReads(limits, eof);
        assert buffer[n..] == [];
      } else {
        DrainReads(limits, buffer[n..], eof, events + [Decoded(f)]);
      }
  }

  lemma EmptyReads(limits: FrameLimits, eof: bool)
    ensures Read(limits, [], eof) == Reading([], None, [])
  {
  }

  // ---------------------------------------------------------------- cutting the stream

  /** Reading more bytes later is reading them at once. */
  lemma {:induction false} ReadAppend(limits: FrameLimits, buffer: Bytes, more: Bytes, eof: bool)
    ensures var first := Read(limits, buffer, false);
            var whole := Read(limits, buffer + more, eof);
            if first.error.Some? then whole.frames == first.frames && whole.error == first.error
            else
              var next := Read(limits, first.rest + more, eof);
              && whole.frames == first.frames + next.frames
              && whole.error == next.error
              && whole.rest == next.rest
    decreases |buffer|
  {
    hide DecodeStep;
    if DecodeStep(limits, buffer, false) != More {
      StepStable(limits, buffer, more, eof);
      match DecodeStep(limits, buffer, false)
      case Bad(_) =>
      case Got(f, n) =>
        assert (buffer + more)[n..] == buffer[n..] + more;
        ReadAppend(limits, buffer[n..], more, eof);
    }
  }

  function Flatten(chunks: seq<Bytes>): Bytes {
    if chunks == [] then [] else chunks[0] + Flatten(chunks[1..])
  }

  /** What a caller sees of feeding `chunks` one by one, end of input on the last, up to the first error. */
  function Observe(limits: FrameLimits, buffer: Bytes, chunks: seq<Bytes>, eof: bool): (seq<Frame>, Option<Error>)
    requires chunks != []
    decreases |chunks|
  {
    var last := |chunks| == 1;
    var (events, rest) := Drain(limits, buffer + chunks[0], eof && last, []);
    if last || FirstError(events).Some? then (Frames(events), FirstError(events))
    else
      var (frames, error) := Observe(limits, rest, chunks[1..], eof);
      (Frames(events) + frames, error)
  }

  lemma ObserveOne(limits: FrameLimits, buffer: Bytes, chunk: Bytes, eof: bool)
    ensures var r := Read(limits, buffer + chunk, eof);
            Observe(limits, buffer, [chunk], eof) == (r.frames, r.error)
  {
    hide DecodeStep, Read, Drain;
    DrainReads(limits, buffer + chunk, eof, []);
    var r := Read(limits, buffer + chunk, eof);
    assert Frames([]) + r.frames == r.frames;
  }

  lemma ObserveMany(limits: FrameLimits, buffer: Bytes, chunks: seq<Bytes>, eof: bool)
    requires |chunks| > 1
    ensures var r := Read(limits, buffer + chunks[0], false);
            Observe(limits, buffer, chunks, eof) ==
            if r.error.Some? then (r.frames, r.error)
            else var o := Observe(limits, r.rest, chunks[1..], eof); (r.frames + o.0, o.1)
  {
    hide DecodeStep, Read, Drain;
    DrainReads(limits, buffer + chunks[0], false, []);
    var r := Read(limits, buffer + chunks[0], false);
    assert Frames([]) + r.frames == r.frames;
  }

  /** However a byte stream is cut into chunks, the same frames and the same first error come out. */
  lemma {:induction false} ChunkIndependence(limits: FrameLimits, buffer: Bytes, chunks: seq<Bytes>, eof: bool)
    requires chunks != []
    ensures Observe(limits, buffer, chunks, eof) == Observe(limits, buffer, [Flatten(chunks)], eof)
    decreases |chunks|
  {
    hide DecodeStep, Read, Drain, Observe;
    if |chunks| == 1 {
      assert Flatten(chunks) == chunks[0] && chunks == [Flatten(chunks)];
    } else {
      var head, tail := buffer + chunks[0], Flatten(chunks[1..]);
      assert buffer + Flatten(chunks) == head + tail;
      ObserveOne(limits, buffer, Flatten(chunks), eof);
      ObserveMany(limits, buffer, chunks, eof);
      ReadAppend(limits, head, tail, eof);
      var first := Read(limits, head, false);
      if first.error.None? {
        ChunkIndependence(limits, first.rest, chunks[1..], eof);
        ObserveOne(limits, first.rest, tail, eof);
      }
    }
  }

  // ---------------------------------------------------------------- what is kept between calls

  lemma WaitingIsShort(limits: FrameLimits, view: Bytes, eof: bool)
    requires DecodeStep(limits, view, eof) == More
    ensures |view| <= Max(20, limits.maxFrame - 1)
    ensures eof ==> view == []
  {
    hide UlebFrom, Crc32c, ParseExtensionsSpec;
    if |view| >= FIXED_PREFIX && UlebParse(view, FIXED_PREFIX).Err? {
      UlebErrors(view, FIXED_PREFIX, 0, 0);
      if UlebParse(view, FIXED_PREFIX).error.code == NeedMoreData {
        UlebPartial(view, FIXED_PREFIX, 0, 0);
      }
    }
  }

  lemma SuffixOfSuffix(buffer: Bytes, n: nat, k: nat)
    requires n + k <= |buffer|
    ensures buffer[n..][|buffer[n..]| - k..] == buffer[|buffer| - k..]
  {
  }

  /**
   The decoder keeps exactly the undecoded suffix, at most one frame short of a byte or a fixed
   prefix and a partial length, and nothing after an error or the end of input.
   */
  lemma {:induction false} ResidueBound(limits: FrameLimits, buffer: Bytes, eof: bool)
    ensures var r := Read(limits, buffer, eof);
            && |r.rest| <= Max(20, limits.maxFrame - 1)
            && (eof || r.error.Some? ==> r.rest == [])
            && |r.rest| <= |buffer|
            && (r.error.None? ==> r.rest == buffer[|buffer| - |r.rest|..])
    decreases |buffer|
  {
    hide DecodeStep;
    match DecodeStep(limits, buffer, eof)
    case More => WaitingIsShort(limits, buffer, eof);
    case Bad(_) =>
    case Got(f, n) =>
      ResidueBound(limits, buffer[n..], eof);
      SuffixOfSuffix(buffer, n, |Read(limits, buffer[n..], eof).rest|);
  }

  // ---------------------------------------------------------------- the inverse pair

  /** The frame as it comes back: its extensions in written order. */
  function Sorted(f: Frame): Frame {
    f.(extensions := Canonical(f.extensions))
  }

  lemma PrefixReads(f: Frame, ext: Bytes, post: Bytes)
    requires f.channel.number <= MAX_CHANNEL_NO && |ext| < 0x1_0000
    ensures var view := FixedPrefix(f, |ext|) + post;
            && ReadU32(view, 0) == LTX_MAGIC
            && view[4] == TypeCode(f.kind) && view[5] == f.flags
            && ReadU16(view, 6) == |ext|
            && ReadU24(view, 8) == f.channel.number && view[11] == f.channel.generation
            && ReadU32(view, 12) == f.seqNo
  {
    hide U32Bytes, U24Bytes, U16Bytes, ReadU32, ReadU24, ReadU16;
    var magic, mid := U32Bytes(LTX_MAGIC), [TypeCode(f.kind), f.flags];
    var len, number := U16Bytes(|ext|), U24Bytes(f.channel.number);
    var gen, no := [f.channel.generation], U32Bytes(f.seqNo);
    var view := FixedPrefix(f, |ext|) + post;
    assert view == [] + magic + (mid + len + number + gen + no + post);
    U32Inverse(LTX_MAGIC, [], mid + len + number + gen + no + post);
    assert view == (magic + mid) + len + (number + gen + no + post);
    U16Inverse(|ext|, magic + mid, number + gen + no + post);
    assert view == (magic + mid + len) + number + (gen + no + post);
    U24Inverse(f.channel.number, magic + mid + len, gen + no + post);
    assert view == (magic + mid + len + number + gen) + no + post;
    U32Inverse(f.seqNo, magic + mid + len + number + gen, post);
    assert view == magic + mid + (len + number + gen + no + post);
    assert view == (magic + mid + len + number) + gen + (no + post);
  }

  lemma TypeRoundTrip(t: FrameType)
    ensures TypeOf(TypeCode(t)) == Some(t)
  {
  }

  /** The header that an encoded frame starts with. */
  function HeaderOf(f: Frame, ext: Bytes): Header {
    Header(f.kind, |ext|, f.channel, f.seqNo, |Uleb(|f.payload|)|, |f.payload|)
  }

  lemma HeaderReads(limits: FrameLimits, f: Frame, ext: Bytes, post: Bytes, eof: bool)
    requires f.channel.number <= MAX_CHANNEL_NO && f.flags == 0
    requires |ext| < 0x1_0000 && |f.payload| < U32_SPAN
    requires |ext| <= limits.maxHeader && |Unsealed(f, ext)| + 4 <= limits.maxFrame
    ensures ReadHeader(limits, Unsealed(f, ext) + post, eof) == HeaderOk(HeaderOf(f, ext))
    ensures HeaderOf(f, ext).WithoutCrc() == |Unsealed(f, ext)|
  {
    hide FixedPrefix, Uleb, UlebParse, ReadU32, ReadU24, ReadU16, TypeOf, TypeCode;
    var len := Uleb(|f.payload|);
    var view := Unsealed(f, ext) + post;
    var rest := len + ext + f.payload + post;
    assert view == FixedPrefix(f, |ext|) + rest;
    PrefixReads(f, ext, rest);
    TypeRoundTrip(f.kind);
    assert view == FixedPrefix(f, |ext|) + len + (ext + f.payload + post);
    UlebRoundTrip(|f.payload|, FixedPrefix(f, |ext|), ext + f.payload + post);
  }

  lemma BodyReads(f: Frame, ext: Bytes, post: Bytes)
    requires f.channel.number <= MAX_CHANNEL_NO
    ensures var view := Seal(Unsealed(f, ext)) + post;
            var h := HeaderOf(f, ext);
            && h.Total() == |Seal(Unsealed(f, ext))|
            && h.WithoutCrc() == |Unsealed(f, ext)|
            && view[..h.WithoutCrc()] == Unsealed(f, ext)
            && ReadU32(view, h.WithoutCrc()) == Crc32c(Unsealed(f, ext))
            && view[h.Prefix()..h.Body()] == ext
            && view[h.Body()..h.WithoutCrc()] == f.payload
  {
    hide FixedPrefix, Uleb, ReadU32, Crc32c, U32Bytes;
    var body := Unsealed(f, ext);
    U32Inverse(Crc32c(body), body, post);
  }

  lemma WrittenExtensions(f: Frame, ext: Bytes)
    requires WriteExtensionsSpec(f.extensions) == Ok(ext) && |ext| < U32_SPAN
    ensures ParseExtensionsSpec(ext)
         == if RequiredKnown(f.extensions) then Ok(Canonical(f.extensions))
            else Err(ConnectionError(UnknownRequiredFeature))
  {
    hide WriteAll, ParseFrom, Canonical;
    var es := Canonical(f.extensions);
    SameElements(f.extensions);
    CanonicalAscending(f.extensions);
    forall e | e in es
      ensures |e.value| < U32_SPAN
    {
      ValuesFit(es, e);
    }
    ParseWritten(es, [], -1);
    assert [] + ext == ext;
  }

  /**
   An encoded frame comes back whole, its extensions in canonical order, exactly when every required
   extension is a known one; otherwise the decoder rejects it.  The decoder's limits need only admit
   the bytes.
   */
  lemma EncodeDecode(limits: FrameLimits, reader: FrameLimits, f: Frame, post: Bytes, eof: bool)
    requires EncodeSpec(limits, f).Ok?
    requires limits.maxHeader < 0x1_0000
    requires |EncodeSpec(limits, f).value| <= reader.maxFrame
    requires |WriteExtensionsSpec(f.extensions).value| <= reader.maxHeader
    ensures var bs := EncodeSpec(limits, f).value;
            DecodeStep(reader, bs + post, eof)
            == if RequiredKnown(f.extensions) then Got(Sorted(f), |bs|)
               else Bad(ConnectionError(UnknownRequiredFeature))
  {
    hide FixedPrefix, Uleb, Crc32c, ReadHeader, ParseExtensionsSpec, WriteExtensionsSpec, U32Bytes, Canonical, Unsealed;
    var ext := WriteExtensionsSpec(f.extensions).value;
    var body := Unsealed(f, ext);
    var bs := Seal(body);
    assert bs + post == body + (U32Bytes(Crc32c(body)) + post);
    HeaderReads(reader, f, ext, U32Bytes(Crc32c(body)) + post, eof);
    BodyReads(f, ext, post);
    WrittenExtensions(f, ext);
  }

  /** Feeding one encoded frame to an idle decoder yields that frame and nothing else, and keeps no byte. */
  lemma FeedEncoded(limits: FrameLimits, f: Frame)
    requires EncodeSpec(limits, f).Ok? && limits.maxHeader < 0x1_0000 && RequiredKnown(f.extensions)
    ensures Drain(limits, EncodeSpec(limits, f).value, false, []) == ([Decoded(Sorted(f))], [])
  {
    hide DecodeStep, EncodeSpec;
    EncodeFits(limits, f);
    EncodeDecode(limits, limits, f, [], false);
    var bs := EncodeSpec(limits, f).value;
    assert bs + [] == bs;
    assert [] + [Decoded(Sorted(f))] == [Decoded(Sorted(f))];
  }

  lemma EncodeFits(limits: FrameLimits, f: Frame)
    requires EncodeSpec(limits, f).Ok?
    ensures WriteExtensionsSpec(f.extensions).Ok?
    ensures |EncodeSpec(limits, f).value| <= limits.maxFrame
    ensures |WriteExtensionsSpec(f.extensions).value| <= limits.maxHeader
  {
    hide Crc32c, Unsealed, WriteExtensionsSpec;
  }

  // ---------------------------------------------------------------- accepted bytes are canonical

  lemma PrefixRewrites(view: Bytes, f: Frame, extLen: nat)
    requires |view| >= FIXED_PREFIX && extLen < 0x1_0000
    requires ReadU32(view, 0) == LTX_MAGIC && view[4] == TypeCode(f.kind) && view[5] == f.flags
    requires ReadU16(view, 6) == extLen
    requires ReadU24(view, 8) == f.channel.number && view[11] == f.channel.generation
    requires ReadU32(view, 12) == f.seqNo
    ensures view[..FIXED_PREFIX] == FixedPrefix(f, extLen)
  {
    hide U32Bytes, U24Bytes, U16Bytes, ReadU32, ReadU24, ReadU16, TypeCode;
    U32Canonical(view, 0);
    U16Canonical(view, 6);
    U24Canonical(view, 8);
    U32Canonical(view, 12);
    assert extLen % 0x1_0000 == extLen;
    assert FixedPrefix(f, extLen) == view[0..4] + [view[4], view[5]] + view[6..8] + view[8..11] + [view[11]] + view[12..16];
    assert view[..FIXED_PREFIX] == view[0..4] + [view[4], view[5]] + view[6..8] + view[8..11] + [view[11]] + view[12..16];
  }

  /** The bytes the decoder took are the frame's own encoding, extensions in the order they came. */
  lemma DecodedRewrites(limits: FrameLimits, view: Bytes, eof: bool)
    requires DecodeStep(limits, view, eof).Got?
    ensures var f := DecodeStep(limits, view, eof).frame;
            var n := DecodeStep(limits, view, eof).total;
            && f.flags == 0 && f.channel.number <= MAX_CHANNEL_NO
            && WritableKinds(f.extensions) && Ascending(f.extensions, -1) && RequiredKnown(f.extensions)
            && ValuesFit32(f.extensions)
            && |WriteAll(f.extensions)| <= limits.maxHeader && |f.payload| < U32_SPAN
            && |WriteAll(f.extensions)| < 0x1_0000
            && n == |Unsealed(f, WriteAll(f.extensions))| + 4 && n <= limits.maxFrame
            && view[..n] == Seal(Unsealed(f, WriteAll(f.extensions)))
  {
    hide UlebParse, Uleb, Crc32c, ParseFrom, WriteAll, FixedPrefix, ReadU32, ReadU24, ReadU16, U32Bytes, TypeOf, TypeCode;
    var h := ReadHeader(limits, view, eof).header;
    var f := DecodeStep(limits, view, eof).frame;
    var raw := view[h.Prefix()..h.Body()];
    ParsedRewrites(raw, 0, -1);
    assert raw[0..] == raw;
    PrefixRewrites(view, f, h.extLen);
    UlebCanonical(view, FIXED_PREFIX);
    U32Canonical(view, h.WithoutCrc());
    BodyPieces(view, h);
  }

  lemma BodyPieces(view: Bytes, h: Header)
    requires h.Total() <= |view|
    ensures view[..h.WithoutCrc()]
         == view[..FIXED_PREFIX] + view[FIXED_PREFIX..FIXED_PREFIX + h.varint] + view[h.Prefix()..h.Body()]
            + view[h.Body()..h.WithoutCrc()]
    ensures view[..h.Total()] == view[..h.WithoutCrc()] + view[h.WithoutCrc()..h.WithoutCrc() + 4]
  {
  }

  /** Required extensions come before optional ones of the same type. */
  ghost predicate RequiredFirst(es: seq<Extension>) {
    forall i, j :: 0 <= i < j < |es| && es[i].kind == es[j].kind && es[j].required ==> es[i].required
  }

  lemma {:induction false} AscendingOrder(es: seq<Extension>, previous: int, i: nat, j: nat)
    requires Ascending(es, previous) && i < j < |es|
    ensures es[i].kind <= es[j].kind
  {
    if i > 0 {
      AscendingOrder(es[1..], es[0].kind, i - 1, j - 1);
    } else if j > 1 {
      AscendingOrder(es[1..], es[0].kind, 0, j - 1);
    }
  }

  /** A type-ordered list is its own canonical form exactly when required extensions come first. */
  lemma CanonicalIff(es: seq<Extension>)
    requires Ascending(es, -1)
    ensures Canonical(es) == es <==> RequiredFirst(es)
  {
    SortBySorted(Rank, es);
    if RequiredFirst(es) {
      forall i, j | 0 <= i < j < |es|
        ensures Rank(es[i]) <= Rank(es[j])
      {
        AscendingOrder(es, -1, i, j);
      }
      SortedIsFixed(Rank, es);
    }
    if Canonical(es) == es {
      forall i, j | 0 <= i < j < |es| && es[i].kind == es[j].kind && es[j].required
        ensures es[i].required
      {
        assert Rank(es[i]) <= Rank(es[j]);
      }
    }
  }

  /**
   Re-encoding an accepted frame reproduces its bytes exactly when its equal-type extensions were
   required-first; the encoder never fails on it.
   */
  lemma DecodeEncode(limits: FrameLimits, view: Bytes, eof: bool)
    requires DecodeStep(limits, view, eof).Got?
    ensures var s := DecodeStep(limits, view, eof);
            && EncodeSpec(limits, s.frame).Ok?
            && (EncodeSpec(limits, s.frame) == Ok(view[..s.total]) <==> RequiredFirst(s.frame.extensions))
  {
    hide DecodeStep, WriteAll, Canonical, Crc32c, Unsealed, Ascending;
    DecodedRewrites(limits, view, eof);
    var s := DecodeStep(limits, view, eof);
    var es := s.frame.extensions;
    var again := Canonical(es);
    SameElements(es);
    CanonicalIff(es);
    CanonicalAscending(es);
    CanonicalSize(es);
    UnsealedSize(s.frame, WriteAll(es), WriteAll(again));
    if EncodeSpec(limits, s.frame) == Ok(view[..s.total]) {
      SealInjective(Unsealed(s.frame, WriteAll(es)), Unsealed(s.frame, WriteAll(again)));
      UnsealedInjective(s.frame, WriteAll(es), WriteAll(again));
      WriteInjective(es, again);
    }
  }

  lemma UnsealedSize(f: Frame, a: Bytes, b: Bytes)
    requires f.channel.number <= MAX_CHANNEL_NO && |a| == |b|
    ensures |Unsealed(f, a)| == |Unsealed(f, b)|
  {
    hide FixedPrefix, Uleb;
  }

  lemma UnsealedInjective(f: Frame, a: Bytes, b: Bytes)
    requires f.channel.number <= MAX_CHANNEL_NO && |a| == |b|
    requires Unsealed(f, a) == Unsealed(f, b)
    ensures a == b
  {
    hide FixedPrefix, Uleb;
    var start := FIXED_PREFIX + |Uleb(|f.payload|)|;
    assert Unsealed(f, a)[start..start + |a|] == a;
    assert Unsealed(f, b)[start..start + |b|] == b;
  }

  lemma SealInjective(a: Bytes, b: Bytes)
    requires |a| == |b| && Seal(a) == Seal(b)
    ensures a == b
  {
    hide Crc32c, U32Bytes;
    assert Seal(a)[..|a|] == a && Seal(b)[..|b|] == b;
  }

  function TotalSize(es: seq<Extension>): nat
    requires WritableKinds(es)
  {
    if es == [] then 0 else |WriteOne(es[0])| + TotalSize(es[1..])
  }

  lemma {:induction false} WriteAllSize(es: seq<Extension>)
    requires WritableKinds(es)
    ensures |WriteAll(es)| == TotalSize(es)
  {
    hide WriteOne;
    if es != [] {
      WriteAllSize(es[1..]);
    }
  }

  lemma {:induction false} InsertSize(e: Extension, es: seq<Extension>)
    requires e.kind < REQUIRED_BIT && WritableKinds(es)
    ensures WritableKinds(Insert(Rank, e, es))
    ensures TotalSize(Insert(Rank, e, es)) == |WriteOne(e)| + TotalSize(es)
  {
    hide WriteOne, Rank;
    if es == [] || Rank(e) <= Rank(es[0]) {
      assert ([e] + es)[1..] == es;
    } else {
      InsertSize(e, es[1..]);
      assert ([es[0]] + Insert(Rank, e, es[1..]))[1..] == Insert(Rank, e, es[1..]);
    }
  }

  lemma {:induction false} SortSize(es: seq<Extension>)
    requires WritableKinds(es)
    ensures WritableKinds(SortBy(Rank, es)) && TotalSize(SortBy(Rank, es)) == TotalSize(es)
  {
    hide WriteOne, Rank;
    if es != [] {
      SortSize(es[1..]);
      InsertSize(es[0], SortBy(Rank, es[1..]));
    }
  }

  lemma CanonicalSize(es: seq<Extension>)
    requires WritableKinds(es)
    ensures WritableKinds(Canonical(es)) && |WriteAll(Canonical(es))| == |WriteAll(es)|
  {
    SortSize(es);
    WriteAllSize(es);
    WriteAllSize(Canonical(es));
  }

  // ---------------------------------------------------------------- damage is seen

  /**
   Change any bytes within one window of at most four, after the extension length and outside the
   payload length: the decoder reports a checksum mismatch and never a frame.
   */
  lemma DamageDetected(limits: FrameLimits, reader: FrameLimits, f: Frame, post: Bytes, eof: bool,
                       pre: Bytes, old4: Bytes, new4: Bytes, tail: Bytes)
    requires EncodeSpec(limits, f).Ok? && limits.maxHeader < 0x1_0000
    requires |EncodeSpec(limits, f).value| <= reader.maxFrame
    requires |WriteExtensionsSpec(f.extensions).value| <= reader.maxHeader
    requires |old4| == |new4| <= 4 && old4 != new4
    requires Unsealed(f, WriteExtensionsSpec(f.extensions).value) == pre + old4 + tail
    requires 8 <= |pre|
    requires |pre| + |old4| <= FIXED_PREFIX || FIXED_PREFIX + |Uleb(|f.payload|)| <= |pre|
    ensures var crc := U32Bytes(Crc32c(Unsealed(f, WriteExtensionsSpec(f.extensions).value)));
            DecodeStep(reader, pre + new4 + tail + crc + post, eof) == Bad(ConnectionError(CrcMismatch))
  {
    hide FixedPrefix, Uleb, Crc32c, ParseExtensionsSpec, WriteExtensionsSpec, U32Bytes, Unsealed, ReadHeader;
    var ext := WriteExtensionsSpec(f.extensions).value;
    var body := Unsealed(f, ext);
    var crc := U32Bytes(Crc32c(body));
    var sound := body + (crc + post);
    var hurt := pre + new4 + tail + crc + post;
    HeaderReads(reader, f, ext, crc + post, eof);
    LengthField(f, ext);
    assert sound == pre + old4 + tail + crc + post;
    WindowOutside(pre, old4, new4, tail + crc + post, 0, 8);
    assert pre + old4 + (tail + crc + post) == sound && pre + new4 + (tail + crc + post) == hurt;
    var n := |Uleb(|f.payload|)|;
    WindowOutside(pre, old4, new4, tail + crc + post, FIXED_PREFIX, FIXED_PREFIX + n);
    assert sound[FIXED_PREFIX..FIXED_PREFIX + n] == body[FIXED_PREFIX..FIXED_PREFIX + n];
    HeaderUnhurt(reader, sound, hurt, eof, f, ext);
    BurstDetected(pre, old4, new4, tail);
    var h := ReadHeader(reader, hurt, eof).header;
    assert hurt[..h.WithoutCrc()] == pre + new4 + tail;
    assert hurt == (pre + new4 + tail) + crc + post;
    U32Inverse(Crc32c(body), pre + new4 + tail, post);
  }

  /** Damage before the extension length is named: a byte of the magic, a type nobody has, a flag. */
  lemma HeaderDamage(limits: FrameLimits, reader: FrameLimits, f: Frame, post: Bytes, eof: bool, k: nat, b: u8)
    requires EncodeSpec(limits, f).Ok? && limits.maxHeader < 0x1_0000 && k < 6
    ensures 16 <= |EncodeSpec(limits, f).value|
    ensures var sound := EncodeSpec(limits, f).value + post;
            var step := DecodeStep(reader, sound[k := b], eof);
            && (k < 4 && b != sound[k] ==> step == Bad(ConnectionError(BadMagic)))
            && (k == 4 && (forall kind: FrameType :: b != TypeCode(kind)) ==> step == Bad(ConnectionError(UnsupportedFrameType)))
            && (k == 5 && b != 0 ==> step == Bad(ConnectionError(ReservedFlags)))
  {
    hide EncodeSpec, U32Bytes, U24Bytes, U16Bytes, ReadU32, ReadU24, ReadU16, TypeCode, Crc32c, UlebParse, ParseExtensionsSpec;
    FrameLayout(limits, f);
    var sound := EncodeSpec(limits, f).value + post;
    var hurt := sound[k := b];
    assert hurt[..4] == [hurt[0], hurt[1], hurt[2], hurt[3]];
    MagicReads(hurt);
  }

  /** The magic is read exactly from the four bytes that spell it. */
  lemma MagicReads(view: Bytes)
    requires 4 <= |view|
    ensures ReadU32(view, 0) == LTX_MAGIC <==> view[0] == 0x4C && view[1] == 0x54 && view[2] == 0x58 && view[3] == 0x31
  {
  }

  /** A frame whose extensions, or whose whole size, the reader does not take. */
  lemma TooLarge(limits: FrameLimits, reader: FrameLimits, f: Frame, post: Bytes, eof: bool)
    requires EncodeSpec(limits, f).Ok? && limits.maxHeader < 0x1_0000
    ensures WriteExtensionsSpec(f.extensions).Ok?
    ensures var sound := EncodeSpec(limits, f).value;
            var ext := |WriteExtensionsSpec(f.extensions).value|;
            && (ext > reader.maxHeader ==> DecodeStep(reader, sound + post, eof) == Bad(ConnectionError(HeaderTooLarge)))
            && (ext <= reader.maxHeader && |sound| > reader.maxFrame ==>
                  DecodeStep(reader, sound + post, eof) == Bad(ConnectionError(FrameTooLarge)))
  {
    hide FixedPrefix, Uleb, UlebParse, ReadU32, ReadU24, ReadU16, TypeOf, TypeCode, Crc32c, WriteExtensionsSpec, U32Bytes;
    var ext := WriteExtensionsSpec(f.extensions).value;
    var len := Uleb(|f.payload|);
    var seal := U32Bytes(Crc32c(Unsealed(f, ext)));
    var view := EncodeSpec(limits, f).value + post;
    var rest := len + ext + f.payload + seal + post;
    assert view == FixedPrefix(f, |ext|) + rest;
    PrefixReads(f, ext, rest);
    TypeRoundTrip(f.kind);
    assert view == FixedPrefix(f, |ext|) + len + (ext + f.payload + seal + post);
    UlebRoundTrip(|f.payload|, FixedPrefix(f, |ext|), ext + f.payload + seal + post);
  }

  /** A frame of which bytes are missing at its end is waited for; where no more will come it is a truncated one. */
  lemma Truncation(limits: FrameLimits, reader: FrameLimits, f: Frame, got: Bytes, missing: Bytes)
    requires EncodeSpec(limits, f) == Ok(got + missing) && limits.maxHeader < 0x1_0000 && missing != []
    requires |got + missing| <= reader.maxFrame && |WriteExtensionsSpec(f.extensions).value| <= reader.maxHeader
    ensures DecodeStep(reader, got, false) == More
    ensures DecodeStep(reader, got, true) == if got == [] then More else Bad(ConnectionError(TruncatedFrame))
  {
    hide Crc32c, ParseExtensionsSpec, WriteExtensionsSpec, UlebParse, TypeOf, ReadU32, ReadU24, ReadU16, Unsealed, HeaderOf, U32Bytes;
    var ext := WriteExtensionsSpec(f.extensions).value;
    var body := Unsealed(f, ext);
    HeaderReads(reader, f, ext, U32Bytes(Crc32c(body)), false);
    assert got + missing == body + U32Bytes(Crc32c(body));
    if ReadHeader(reader, got, false) != HeaderMore {
      HeaderStable(reader, got, missing, false);
    }
  }

  lemma LengthField(f: Frame, ext: Bytes)
    requires f.channel.number <= MAX_CHANNEL_NO
    ensures |Unsealed(f, ext)| >= FIXED_PREFIX + |Uleb(|f.payload|)|
    ensures Unsealed(f, ext)[FIXED_PREFIX..FIXED_PREFIX + |Uleb(|f.payload|)|] == Uleb(|f.payload|)
  {
    hide FixedPrefix, Uleb;
  }

  lemma WindowOutside(pre: Bytes, a: Bytes, b: Bytes, tail: Bytes, i: nat, j: nat)
    requires |a| == |b| && i <= j <= |pre| + |a| + |tail|
    requires j <= |pre| || |pre| + |a| <= i
    ensures (pre + a + tail)[i..j] == (pre + b + tail)[i..j]
  {
  }

  /** Two views that agree on the fields the sizes come from announce the same sizes. */
  lemma HeaderUnhurt(limits: FrameLimits, a: Bytes, b: Bytes, eof: bool, f: Frame, ext: Bytes)
    requires |a| == |b| >= FIXED_PREFIX + |Uleb(|f.payload|)| && |f.payload| < U32_SPAN
    requires a[..8] == b[..8]
    requires var n := |Uleb(|f.payload|)|;
             a[FIXED_PREFIX..FIXED_PREFIX + n] == Uleb(|f.payload|) == b[FIXED_PREFIX..FIXED_PREFIX + n]
    requires ReadHeader(limits, a, eof) == HeaderOk(HeaderOf(f, ext))
    ensures ReadHeader(limits, b, eof).HeaderOk?
    ensures ReadHeader(limits, b, eof).header.WithoutCrc() == HeaderOf(f, ext).WithoutCrc()
  {
    hide Uleb, UlebParse, TypeOf;
    var n := |Uleb(|f.payload|)|;
    assert forall i :: 0 <= i < 8 ==> a[i] == a[..8][i] == b[..8][i] == b[i];
    UlebAt(a, FIXED_PREFIX, |f.payload|);
    UlebAt(b, FIXED_PREFIX, |f.payload|);
  }

  lemma UlebAt(bs: Bytes, offset: nat, value: u32)
    requires offset + |Uleb(value)| <= |bs| && bs[offset..offset + |Uleb(value)|] == Uleb(value)
    ensures UlebParse(bs, offset) == Ok((value, |Uleb(value)|))
  {
    hide Uleb, UlebParse;
    var n := |Uleb(value)|;
    UlebRoundTrip(value, bs[..offset], bs[offset + n..]);
    assert bs == bs[..offset] + Uleb(value) + bs[offset + n..];
  }

  // ---------------------------------------------------------------- the layout on the wire

  /** The frame types as the protocol numbers them. */
  predicate Numbers(kind: FrameType, code: byte) {
    || (kind == Hello && code == 0x01)
    || (kind == Open && code == 0x10) || (kind == Data && code == 0x11) || (kind == Ack && code == 0x12)
    || (kind == Credit && code == 0x13) || (kind == HalfClose && code == 0x14) || (kind == FrameType.Reset && code == 0x15)
    || (kind == Ping && code == 0x20) || (kind == Pong && code == 0x21) || (kind == GoAway && code == 0x22)
    || (kind == Resume && code == 0x23)
  }

  /**
   Where everything in an encoded frame is, with integers in network byte order: the magic, which reads LTX1,
   the type, a zero, the extension length, the channel, its generation, the frame number, the payload length in
   base 128, the extensions, the payload, and the checksum of all of it.
   */
  lemma FrameLayout(limits: FrameLimits, f: Frame)
    requires EncodeSpec(limits, f).Ok? && limits.maxHeader < 0x1_0000
    ensures WriteExtensionsSpec(f.extensions).Ok?
    ensures var e, ext := EncodeSpec(limits, f).value, WriteExtensionsSpec(f.extensions).value;
            var size := 16 + |Uleb(|f.payload|)| + |ext| + |f.payload|;
            && |e| == size + 4 && e[..4] == [0x4C, 0x54, 0x58, 0x31]
            && Numbers(f.kind, e[4]) && e[5] == 0
            && Value(e[6..8]) == |ext| && Value(e[8..11]) == f.channel.number && e[11] == f.channel.generation
            && Value(e[12..16]) == f.seqNo
            && e[16..size] == Uleb(|f.payload|) + ext + f.payload
            && UlebValue(Uleb(|f.payload|)) == |f.payload|
            && Value(e[size..]) == Crc32c(e[..size])
  {
    hide Uleb, Crc32c, WriteExtensionsSpec, U16Bytes, U24Bytes, U32Bytes, Value, UlebValue, FixedPrefix, TypeCode;
    var ext := WriteExtensionsSpec(f.extensions).value;
    var e := EncodeSpec(limits, f).value;
    var rest := Uleb(|f.payload|) + ext + f.payload;
    var body := Unsealed(f, ext);
    assert body == FixedPrefix(f, |ext|) + rest;
    PrefixLayout(f, |ext|);
    assert e == body + U32Bytes(Crc32c(body));
    assert e[..16] == FixedPrefix(f, |ext|);
    forall a: nat, b: nat | a <= b <= 16
      ensures e[a..b] == FixedPrefix(f, |ext|)[a..b]
    {
    }
    UlebMeaning(|f.payload|);
    BigEndian(0, 0, Crc32c(body), 0);
    assert e[..|body|] == body && e[|body|..] == U32Bytes(Crc32c(body));
    assert e[16..|body|] == rest;
  }

  lemma PrefixLayout(f: Frame, extLen: nat)
    requires f.channel.number <= MAX_CHANNEL_NO && f.flags == 0 && extLen < 0x1_0000
    ensures var p := FixedPrefix(f, extLen);
            && p[..4] == [0x4C, 0x54, 0x58, 0x31] && Numbers(f.kind, p[4]) && p[5] == 0
            && Value(p[6..8]) == extLen && Value(p[8..11]) == f.channel.number && p[11] == f.channel.generation
            && Value(p[12..16]) == f.seqNo
  {
    hide Value;
    assert U32Bytes(LTX_MAGIC) == [0x4C, 0x54, 0x58, 0x31];
    hide U16Bytes, U24Bytes, U32Bytes;
    BigEndian(extLen, f.channel.number, f.seqNo, 0);
    var p := FixedPrefix(f, extLen);
    assert p[..4] == U32Bytes(LTX_MAGIC);
    assert p[6..8] == U16Bytes(extLen);
    assert p[8..11] == U24Bytes(f.channel.number);
    assert p[12..16] == U32Bytes(f.seqNo);
  }

  /** One extension: its type with the high bit for a required one, its length in base 128, its value. */
  lemma ExtensionLayout(e: Extension)
    requires e.kind < REQUIRED_BIT && |e.value| < U32_SPAN
    ensures var bs := WriteOne(e);
            && Value(bs[..2]) == e.kind + (if e.required then 0x8000 else 0)
            && bs[2..] == Uleb(|e.value|) + e.value && UlebValue(Uleb(|e.value|)) == |e.value|
  {
    hide Uleb, U16Bytes, Value, UlebValue;
    UlebMeaning(|e.value|);
    BigEndian(RawKind(e), 0, 0, 0);
    var bs := WriteOne(e);
    assert bs[..2] == U16Bytes(RawKind(e));
    assert bs == U16Bytes(RawKind(e)) + (Uleb(|e.value|) + e.value);
  }
}

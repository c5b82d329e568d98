/** The frame's typed extension list: `type:u16` (high bit: required), ULEB128 length, value. */
module Extensions {
  import opened Types
  import opened Wire
  import opened Sorting

  const REQUIRED_BIT: int := 0x8000

  datatype Extension = Extension(kind: u16, required: bool, value: Bytes)

  predicate KnownRequired(kind: u16) { 1 <= kind <= 4 }

  /** What the wire's type field holds for a type below the required bit. */
  function RawKind(e: Extension): (raw: u16)
    requires e.kind < REQUIRED_BIT
  {
    if e.required then e.kind + REQUIRED_BIT else e.kind
  }

  /** The sort order: by type, and required before optional within a type. */
  function Rank(e: Extension): int {
    2 * e.kind + (if e.required then 0 else 1)
  }

  function Canonical(es: seq<Extension>): (r: seq<Extension>)
    ensures |r| == |es|
  {
    SortBy(Rank, es)
  }

  // ---------------------------------------------------------------- writing

  function WriteOne(e: Extension): (bs: Bytes)
    requires e.kind < REQUIRED_BIT
    ensures |bs| >= 3
  {
    U16Bytes(RawKind(e)) + Uleb(|e.value| % U32_SPAN) + e.value
  }

  /** The bytes of `es` in the given order. */
  function WriteAll(es: seq<Extension>): (bs: Bytes)
    requires forall e <- es :: e.kind < REQUIRED_BIT
  {
    if es == [] then [] else WriteOne(es[0]) + WriteAll(es[1..])
  }

  predicate WritableKinds(es: seq<Extension>) {
    forall e <- es :: e.kind < REQUIRED_BIT
  }

  lemma SameElements(es: seq<Extension>)
    ensures forall e :: e in Canonical(es) <==> e in es
    ensures WritableKinds(Canonical(es)) <==> WritableKinds(es)
  {
    SortBySorted(Rank, es);
    assert forall e :: e in Canonical(es) <==> e in multiset(Canonical(es));
    assert forall e :: e in es <==> e in multiset(es);
  }

  function WriteExtensionsSpec(es: seq<Extension>): Result<Bytes> {
    SameElements(es);
    if WritableKinds(es) then Ok(WriteAll(Canonical(es))) else Err(ConnectionError(MalformedTlv))
  }

  method WriteExtensions(es: seq<Extension>) returns (r: Result<Bytes>)
    ensures r == WriteExtensionsSpec(es)
  {
    hide Uleb, U16Bytes, SortBy;
    var sorted := SortBy(Rank, es);
    SameElements(es);
    var out: Bytes := [];
    for i := 0 to |sorted|
      invariant WritableKinds(sorted[..i])
      invariant out == WriteAll(sorted[..i])
    {
      var e := sorted[i];
      if e.kind > 0x7FFF {
        assert e in es;
        return Err(ConnectionError(MalformedTlv));
      }
      out := out + U16Bytes(RawKind(e));
      // The length always encodes, so the source's error return here is never taken.
      var length := EncodeUleb128(|e.value| % U32_SPAN);
      out := out + length.value + e.value;
      WriteAllAppend(sorted[..i], [e]);
      assert sorted[..i + 1] == sorted[..i] + [e];
      assert WriteAll([e]) == WriteOne(e) + WriteAll([]);
    }
    assert sorted[..|sorted|] == sorted;
    return Ok(out);
  }

  lemma {:induction false} WriteAllAppend(a: seq<Extension>, b: seq<Extension>)
    requires WritableKinds(a) && WritableKinds(b)
    ensures WritableKinds(a + b)
    ensures WriteAll(a + b) == WriteAll(a) + WriteAll(b)
  {
    if a == [] {
      assert a + b == b;
    } else {
      assert a + b == [a[0]] + (a[1..] + b);
      WriteAllAppend(a[1..], b);
    }
  }

  // ---------------------------------------------------------------- reading

  /** One extension at `cursor`, and where the next one starts; `previous` is -1 before the first. */
  function ParseOne(bs: Bytes, cursor: nat, previous: int): (r: Result<(Extension, nat)>)
    requires cursor < |bs|
    ensures r.Ok? ==> cursor < r.value.1 <= |bs|
  {
    if |bs| - cursor < 2 then Err(ConnectionError(MalformedTlv))
    else
      var raw := ReadU16(bs, cursor);
      match UlebParse(bs, cursor + 2)
      case Err(e) =>
        Err(Error(e.scope, if e.code == NeedMoreData then MalformedTlv else e.code, CloseConnection))
      case Ok((length, n)) =>
        UlebInside(bs, cursor + 2);
        var start := cursor + 2 + n;
        var kind := raw % REQUIRED_BIT;
        var required := raw >= REQUIRED_BIT;
        if length > |bs| - start then Err(ConnectionError(MalformedTlv))
        else if kind < previous then Err(ConnectionError(MalformedTlv))
        else if required && !KnownRequired(kind) then Err(ConnectionError(UnknownRequiredFeature))
        else Ok((Extension(kind, required, bs[start..start + length]), start + length))
  }

  lemma UlebInside(bs: Bytes, offset: nat)
    ensures UlebParse(bs, offset).Ok? ==> offset + UlebParse(bs, offset).value.1 <= |bs|
  {
    if UlebParse(bs, offset).Ok? {
      UlebCanonical(bs, offset);
    }
  }

  function Cons(e: Extension, rest: Result<seq<Extension>>): Result<seq<Extension>> {
    match rest
    case Err(_) => rest
    case Ok(es) => Ok([e] + es)
  }

  function ParseFrom(bs: Bytes, cursor: nat, previous: int): Result<seq<Extension>>
    requires cursor <= |bs|
    decreases |bs| - cursor
  {
    if cursor == |bs| then Ok([])
    else
      match ParseOne(bs, cursor, previous)
      case Err(e) => Err(e)
      case Ok((e, next)) => Cons(e, ParseFrom(bs, next, e.kind))
  }

  function ParseExtensionsSpec(bs: Bytes): Result<seq<Extension>> {
    ParseFrom(bs, 0, -1)
  }

  function Prefixed(front: seq<Extension>, rest: Result<seq<Extension>>): Result<seq<Extension>> {
    match rest
    case Err(_) => rest
    case Ok(es) => Ok(front + es)
  }

  lemma PrefixedNone(rest: Result<seq<Extension>>)
    ensures Prefixed([], rest) == rest
  {
    match rest
    case Err(_) =>
    case Ok(es) => assert [] + es == es;
  }

  lemma PrefixedCons(front: seq<Extension>, e: Extension, rest: Result<seq<Extension>>)
    ensures Prefixed(front, Cons(e, rest)) == Prefixed(front + [e], rest)
  {
    match rest
    case Err(_) =>
    case Ok(es) => assert front + ([e] + es) == (front + [e]) + es;
  }

  method ParseExtensions(bs: Bytes) returns (r: Result<seq<Extension>>)
    ensures r == ParseExtensionsSpec(bs)
  {
    hide UlebParse, KnownRequired, ReadU16;
    var found: seq<Extension> := [];
    var cursor := 0;
    var previous := -1;
    PrefixedNone(ParseFrom(bs, cursor, previous));
    while cursor < |bs|
      invariant 0 <= cursor <= |bs|
      invariant ParseExtensionsSpec(bs) == Prefixed(found, ParseFrom(bs, cursor, previous))
      decreases |bs| - cursor
    {
      ghost var rest, one := ParseFrom(bs, cursor, previous), ParseOne(bs, cursor, previous);
      if |bs| - cursor < 2 {
        return Err(ConnectionError(MalformedTlv));
      }
      var raw := ReadU16(bs, cursor);
      var length := DecodeUleb128(bs, cursor + 2);
      if length.Err? {
        var code := if length.error.code == NeedMoreData then MalformedTlv else length.error.code;
        return Err(Error(length.error.scope, code, CloseConnection));
      }
      UlebInside(bs, cursor + 2);
      var start := cursor + 2 + length.value.1;
      var len: nat := length.value.0;
      if len > |bs| - start {
        return Err(ConnectionError(MalformedTlv));
      }
      var kind := raw % REQUIRED_BIT;
      if kind < previous {
        return Err(ConnectionError(MalformedTlv));
      }
      var required := raw >= REQUIRED_BIT;
      if required && !KnownRequired(kind) {
        return Err(ConnectionError(UnknownRequiredFeature));
      }
      var e := Extension(kind, required, bs[start..start + len]);
      assert rest == Cons(e, ParseFrom(bs, start + len, kind));
      PrefixedCons(found, e, ParseFrom(bs, start + len, kind));
      found := found + [e];
      previous := kind;
      cursor := start + len;
    }
    assert found + [] == found;
    return Ok(found);
  }

  // ---------------------------------------------------------------- the two directions

  /** Types never decrease, from a lower bound. */
  predicate Ascending(es: seq<Extension>, previous: int) {
    es == [] || (previous <= es[0].kind && Ascending(es[1..], es[0].kind))
  }

  predicate RequiredKnown(es: seq<Extension>) {
    forall e <- es :: e.required ==> KnownRequired(e.kind)
  }

  /** Where the pieces of one written extension sit. */
  lemma WrittenPieces(e: Extension, pre: Bytes, post: Bytes)
    requires e.kind < REQUIRED_BIT && |e.value| < U32_SPAN
    ensures var bs := pre + WriteOne(e) + post;
            var start := |pre| + 2 + |Uleb(|e.value|)|;
            && ReadU16(bs, |pre|) == RawKind(e)
            && UlebParse(bs, |pre| + 2) == Ok((|e.value|, |Uleb(|e.value|)|))
            && start + |e.value| == |pre| + |WriteOne(e)|
            && bs[start..start + |e.value|] == e.value
  {
    hide Uleb, UlebParse, U16Bytes, ReadU16;
    var raw, len := U16Bytes(RawKind(e)), Uleb(|e.value|);
    var bs := pre + WriteOne(e) + post;
    assert bs == pre + raw + (len + e.value + post);
    assert bs == (pre + raw) + len + (e.value + post);
    U16Inverse(RawKind(e), pre, len + e.value + post);
    UlebRoundTrip(|e.value|, pre + raw, e.value + post);
  }

  lemma ParseWrittenOne(e: Extension, pre: Bytes, post: Bytes, previous: int)
    requires e.kind < REQUIRED_BIT && |e.value| < U32_SPAN && previous <= e.kind
    ensures ParseOne(pre + WriteOne(e) + post, |pre|, previous)
         == if e.required && !KnownRequired(e.kind) then Err(ConnectionError(UnknownRequiredFeature))
            else Ok((e, |pre| + |WriteOne(e)|))
  {
    hide Uleb, UlebParse, ReadU16, WriteOne;
    WrittenPieces(e, pre, post);
  }

  predicate ValuesFit32(es: seq<Extension>) {
    forall e <- es :: |e.value| < U32_SPAN
  }

  /** Reading what was written gives the list back, or the error for the first unknown required type. */
  lemma {:induction false} ParseWritten(es: seq<Extension>, pre: Bytes, previous: int)
    requires WritableKinds(es) && Ascending(es, previous) && ValuesFit32(es)
    ensures ParseFrom(pre + WriteAll(es), |pre|, previous)
         == if RequiredKnown(es) then Ok(es) else Err(ConnectionError(UnknownRequiredFeature))
    decreases |es|
  {
    hide ParseOne, WriteOne, WriteAll, RequiredKnown, KnownRequired, WritableKinds, ValuesFit32, Ascending;
    if es == [] {
      assert WriteAll(es) == [] by { NothingWritten(); }
      assert pre + [] == pre;
      assert RequiredKnown(es) by { NothingWritten(); }
    } else {
      var e, rest := es[0], es[1..];
      WrittenSplit(es, pre);
      WrittenTail(es, previous);
      ParseWrittenOne(e, pre, WriteAll(rest), previous);
      RequiredCons(es);
      WrittenHead(e, pre, WriteAll(rest));
      if !(e.required && !KnownRequired(e.kind)) {
        ParseWritten(rest, pre + WriteOne(e), e.kind);
        assert [e] + rest == es;
      }
    }
  }

  lemma NothingWritten()
    ensures WriteAll([]) == [] && RequiredKnown([])
  {
  }

  lemma WrittenHead(e: Extension, pre: Bytes, post: Bytes)
    requires e.kind < REQUIRED_BIT
    ensures |pre| < |pre + WriteOne(e)| == |pre| + |WriteOne(e)| <= |pre + WriteOne(e) + post|
  {
    hide Uleb;
  }

  lemma WrittenTail(es: seq<Extension>, previous: int)
    requires es != [] && WritableKinds(es) && Ascending(es, previous) && ValuesFit32(es)
    ensures WritableKinds(es[1..]) && Ascending(es[1..], es[0].kind) && ValuesFit32(es[1..])
    ensures previous <= es[0].kind < REQUIRED_BIT && |es[0].value| < U32_SPAN
  {
    assert es[0] in es;
  }

  lemma WrittenSplit(es: seq<Extension>, pre: Bytes)
    requires es != [] && WritableKinds(es)
    ensures es[0] in es && WritableKinds(es[1..])
    ensures pre + WriteAll(es) == pre + WriteOne(es[0]) + WriteAll(es[1..])
  {
    hide WriteOne;
  }

  lemma RequiredCons(es: seq<Extension>)
    requires es != []
    ensures RequiredKnown(es) <==> (es[0].required ==> KnownRequired(es[0].kind)) && RequiredKnown(es[1..])
  {
    assert es == [es[0]] + es[1..];
  }

  lemma ParsedOneRewrites(bs: Bytes, cursor: nat, previous: int)
    requires cursor < |bs| && ParseOne(bs, cursor, previous).Ok?
    ensures var (e, next) := ParseOne(bs, cursor, previous).value;
            && e.kind < REQUIRED_BIT && |e.value| < U32_SPAN && previous <= e.kind
            && (e.required ==> KnownRequired(e.kind))
            && bs[cursor..next] == WriteOne(e)
  {
    hide Uleb, UlebParse, U16Bytes, ReadU16;
    var (e, next) := ParseOne(bs, cursor, previous).value;
    UlebCanonical(bs, cursor + 2);
    U16Canonical(bs, cursor);
    var n := UlebParse(bs, cursor + 2).value.1;
    assert RawKind(e) == ReadU16(bs, cursor);
    assert bs[cursor..next] == bs[cursor..cursor + 2] + bs[cursor + 2..cursor + 2 + n] + bs[cursor + 2 + n..next];
  }

  /** Whatever is accepted is exactly the written form of the list that is returned. */
  lemma {:induction false} ParsedRewrites(bs: Bytes, cursor: nat, previous: int)
    requires cursor <= |bs| && ParseFrom(bs, cursor, previous).Ok?
    ensures var es := ParseFrom(bs, cursor, previous).value;
            && WritableKinds(es) && Ascending(es, previous) && RequiredKnown(es)
            && ValuesFit32(es)
            && bs[cursor..] == WriteAll(es)
    decreases |bs| - cursor
  {
    hide ParseOne, WriteOne;
    if cursor < |bs| {
      ParsedOneRewrites(bs, cursor, previous);
      var (e, next) := ParseOne(bs, cursor, previous).value;
      ParsedRewrites(bs, next, e.kind);
      var es := ParseFrom(bs, cursor, previous).value;
      assert es[1..] == ParseFrom(bs, next, e.kind).value;
      assert es == [e] + es[1..];
      assert bs[cursor..] == bs[cursor..next] + bs[next..];
    }
  }

  lemma {:induction false} AscendingAt(es: seq<Extension>, previous: int)
    requires forall i, j :: 0 <= i < j < |es| ==> es[i].kind <= es[j].kind
    requires es != [] ==> previous <= es[0].kind
    ensures Ascending(es, previous)
  {
    if es != [] {
      AscendingAt(es[1..], es[0].kind);
    }
  }

  /** The written order is by type. */
  lemma CanonicalAscending(es: seq<Extension>)
    ensures Ascending(Canonical(es), -1)
  {
    SortBySorted(Rank, es);
    var s := Canonical(es);
    forall i, j | 0 <= i < j < |s|
      ensures s[i].kind <= s[j].kind
    {
      assert Rank(s[i]) <= Rank(s[j]);
    }
    AscendingAt(s, -1);
  }

  /** Two type-ordered known lists with the same bytes are the same list. */
  lemma WriteInjective(a: seq<Extension>, b: seq<Extension>)
    requires WritableKinds(a) && WritableKinds(b)
    requires Ascending(a, -1) && Ascending(b, -1) && RequiredKnown(a) && RequiredKnown(b)
    requires ValuesFit32(a) && ValuesFit32(b)
    requires WriteAll(a) == WriteAll(b)
    ensures a == b
  {
    ParseWritten(a, [], -1);
    ParseWritten(b, [], -1);
    assert [] + WriteAll(a) == WriteAll(a) && [] + WriteAll(b) == WriteAll(b);
  }

  lemma {:induction false} ValuesFit(es: seq<Extension>, e: Extension)
    requires WritableKinds(es) && e in es
    ensures |e.value| <= |WriteAll(es)|
  {
    if e != es[0] {
      ValuesFit(es[1..], e);
    }
  }

  /** The order on the wire: ascending types, required before optional within a type, and otherwise as they were given. */
  lemma CanonicalOrder(es: seq<Extension>, kind: u16, required: bool)
    ensures multiset(Canonical(es)) == multiset(es)
    ensures forall i, j :: 0 <= i < j < |es| ==>
              var a, b := Canonical(es)[i], Canonical(es)[j];
              a.kind < b.kind || (a.kind == b.kind && (a.required || !b.required))
    ensures Of(Canonical(es), kind, required) == Of(es, kind, required)
  {
    hide SortBy;
    SortBySorted(Rank, es);
    SortByStable(Rank, 2 * kind + (if required then 0 else 1), es);
    OfIsSelect(es, kind, required);
    OfIsSelect(Canonical(es), kind, required);
    forall i, j | 0 <= i < j < |es|
      ensures var a, b := Canonical(es)[i], Canonical(es)[j];
              a.kind < b.kind || (a.kind == b.kind && (a.required || !b.required))
    {
      assert Rank(SortBy(Rank, es)[i]) <= Rank(SortBy(Rank, es)[j]);
    }
  }

  /** The extensions of one type and kind, in order. */
  function Of(es: seq<Extension>, kind: u16, required: bool): seq<Extension> {
    if es == [] then []
    else (if es[0].kind == kind && es[0].required == required then [es[0]] else []) + Of(es[1..], kind, required)
  }

  lemma {:induction false} OfIsSelect(es: seq<Extension>, kind: u16, required: bool)
    ensures Of(es, kind, required) == Select(Rank, 2 * kind + (if required then 0 else 1), es)
  {
    if es != [] { OfIsSelect(es[1..], kind, required); }
  }
}

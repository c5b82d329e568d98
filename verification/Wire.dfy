/** Network byte order integers and canonical ULEB128 (section 7.6 of DWARF Version 5). */
module Wire {
  import opened Types

  function U16Bytes(n: u16): (bs: Bytes)
    ensures |bs| == 2
  {
    [n / 0x100, n % 0x100]
  }

  function U24Bytes(n: int): (bs: Bytes)
    requires 0 <= n < 0x100_0000
    ensures |bs| == 3
  {
    [n / 0x1_0000] + U16Bytes(n % 0x1_0000)
  }

  function U32Bytes(n: u32): (bs: Bytes)
    ensures |bs| == 4
  {
    U16Bytes(n / 0x1_0000) + U16Bytes(n % 0x1_0000)
  }

  function U64Bytes(n: u64): (bs: Bytes)
    ensures |bs| == 8
  {
    U32Bytes(n / U32_SPAN) + U32Bytes(n % U32_SPAN)
  }

  function ReadU16(bs: Bytes, offset: nat): (n: u16)
    requires offset + 2 <= |bs|
  {
    (bs[offset] as int) * 0x100 + bs[offset + 1]
  }

  function ReadU24(bs: Bytes, offset: nat): (n: int)
    requires offset + 3 <= |bs|
    ensures 0 <= n < 0x100_0000
  {
    0x1_0000 * bs[offset] + ReadU16(bs, offset + 1)
  }

  function ReadU32(bs: Bytes, offset: nat): (n: u32)
    requires offset + 4 <= |bs|
  {
    0x1_0000 * ReadU16(bs, offset) + ReadU16(bs, offset + 2)
  }

  function ReadU64(bs: Bytes, offset: nat): (n: u64)
    requires offset + 8 <= |bs|
  {
    U32_SPAN * ReadU32(bs, offset) + ReadU32(bs, offset + 4)
  }

  /** The bounds-checked reader the extension and payload parsers call. */
  function ReadU32Be(bs: Bytes, offset: nat): Result<u32> {
    if |bs| - offset < 4 then Err(ConnectionError(TruncatedFrame)) else Ok(ReadU32(bs, offset))
  }

  lemma U16Inverse(n: u16, pre: Bytes, post: Bytes)
    ensures ReadU16(pre + U16Bytes(n) + post, |pre|) == n
  {
    var bs := pre + U16Bytes(n) + post;
    assert bs[|pre|] == U16Bytes(n)[0] && bs[|pre| + 1] == U16Bytes(n)[1];
  }

  lemma U24Inverse(n: int, pre: Bytes, post: Bytes)
    requires 0 <= n < 0x100_0000
    ensures ReadU24(pre + U24Bytes(n) + post, |pre|) == n
  {
    hide U16Bytes, ReadU16;
    var bs, lo := pre + U24Bytes(n) + post, U16Bytes(n % 0x1_0000);
    assert bs == (pre + [n / 0x1_0000]) + lo + post;
    U16Inverse(n % 0x1_0000, pre + [n / 0x1_0000], post);
    assert bs[|pre|] == n / 0x1_0000;
  }

  lemma U32Inverse(n: u32, pre: Bytes, post: Bytes)
    ensures ReadU32(pre + U32Bytes(n) + post, |pre|) == n
  {
    var hi, lo := U16Bytes(n / 0x1_0000), U16Bytes(n % 0x1_0000);
    assert pre + U32Bytes(n) + post == pre + hi + (lo + post);
    assert pre + U32Bytes(n) + post == (pre + hi) + lo + post;
    U16Inverse(n / 0x1_0000, pre, lo + post);
    U16Inverse(n % 0x1_0000, pre + hi, post);
  }

  lemma U64Inverse(n: u64, pre: Bytes, post: Bytes)
    ensures ReadU64(pre + U64Bytes(n) + post, |pre|) == n
  {
    var hi, lo := U32Bytes(n / U32_SPAN), U32Bytes(n % U32_SPAN);
    assert pre + U64Bytes(n) + post == pre + hi + (lo + post);
    assert pre + U64Bytes(n) + post == (pre + hi) + lo + post;
    U32Inverse(n / U32_SPAN, pre, lo + post);
    U32Inverse(n % U32_SPAN, pre + hi, post);
  }

  /** The number a byte string stands for in network byte order: each byte counts 256 times the next. */
  function Value(bs: Bytes): nat {
    if bs == [] then 0 else 0x100 * Value(bs[..|bs| - 1]) + bs[|bs| - 1]
  }

  lemma ValueTwo(a: byte, b: byte)
    ensures Value([a, b]) == 0x100 * a + b
  {
    assert [a, b][..1] == [a] && [a][..0] == [];
    assert Value([a]) == 0x100 * Value([]) + a;
  }

  /** A string is worth its front, shifted by the bytes behind it, plus its back. */
  lemma {:induction false} ValueAppend(a: Bytes, b: Bytes)
    ensures Value(a + b) == Value(a) * Shift(|b|) + Value(b)
  {
    if b == [] {
      assert a + b == a;
    } else {
      var n := |b| - 1;
      assert (a + b)[..|a + b| - 1] == a + b[..n];
      ValueAppend(a, b[..n]);
      assert 0x100 * (Value(a) * Shift(n)) == Value(a) * (0x100 * Shift(n));
    }
  }

  function Shift(n: nat): nat { if n == 0 then 1 else 0x100 * Shift(n - 1) }

  lemma Shifts()
    ensures Shift(1) == 0x100 && Shift(2) == 0x1_0000 && Shift(4) == U32_SPAN
  {
    assert Shift(3) == 0x100_0000;
  }

  /** Every fixed-width integer is written most significant byte first. */
  lemma BigEndian(a: u16, b: int, c: u32, d: u64)
    requires 0 <= b < 0x100_0000
    ensures Value(U16Bytes(a)) == a && Value(U24Bytes(b)) == b && Value(U32Bytes(c)) == c && Value(U64Bytes(d)) == d
  {
    TwoBytes(a);
    TwoBytes(b % 0x1_0000);
    ThreeBytes(b);
    FourBytes(c);
    EightBytes(d);
  }

  lemma TwoBytes(n: u16)
    ensures Value(U16Bytes(n)) == n
  {
    ValueTwo(n / 0x100, n % 0x100);
  }

  lemma ThreeBytes(n: int)
    requires 0 <= n < 0x100_0000
    ensures Value(U24Bytes(n)) == n
  {
    hide U16Bytes, Value, Shift;
    Shifts();
    TwoBytes(n % 0x1_0000);
    ValueAppend([n / 0x1_0000], U16Bytes(n % 0x1_0000));
    ValueOne(n / 0x1_0000);
  }

  lemma ValueOne(b: byte)
    ensures Value([b]) == b
  {
    assert [b][..0] == [];
  }

  lemma FourBytes(n: u32)
    ensures Value(U32Bytes(n)) == n
  {
    hide U16Bytes, Value, Shift;
    Shifts();
    TwoBytes(n / 0x1_0000);
    TwoBytes(n % 0x1_0000);
    ValueAppend(U16Bytes(n / 0x1_0000), U16Bytes(n % 0x1_0000));
  }

  lemma EightBytes(n: u64)
    ensures Value(U64Bytes(n)) == n
  {
    hide U32Bytes, Value, Shift;
    Shifts();
    FourBytes(n / U32_SPAN);
    FourBytes(n % U32_SPAN);
    ValueAppend(U32Bytes(n / U32_SPAN), U32Bytes(n % U32_SPAN));
  }

  /** Reading and writing back gives the same bytes. */
  lemma U16Canonical(bs: Bytes, offset: nat)
    requires offset + 2 <= |bs|
    ensures U16Bytes(ReadU16(bs, offset)) == bs[offset..offset + 2]
  {
  }

  lemma U24Canonical(bs: Bytes, offset: nat)
    requires offset + 3 <= |bs|
    ensures U24Bytes(ReadU24(bs, offset)) == bs[offset..offset + 3]
  {
    hide U16Bytes, ReadU16;
    U16Canonical(bs, offset + 1);
    assert bs[offset..offset + 3] == [bs[offset]] + bs[offset + 1..offset + 3];
  }

  lemma U32Canonical(bs: Bytes, offset: nat)
    requires offset + 4 <= |bs|
    ensures U32Bytes(ReadU32(bs, offset)) == bs[offset..offset + 4]
  {
    hide U16Bytes, ReadU16;
    U16Canonical(bs, offset);
    U16Canonical(bs, offset + 2);
    assert bs[offset..offset + 4] == bs[offset..offset + 2] + bs[offset + 2..offset + 4];
  }

  lemma U64Canonical(bs: Bytes, offset: nat)
    requires offset + 8 <= |bs|
    ensures U64Bytes(ReadU64(bs, offset)) == bs[offset..offset + 8]
  {
    hide U32Bytes, ReadU32;
    U32Canonical(bs, offset);
    U32Canonical(bs, offset + 4);
    assert bs[offset..offset + 8] == bs[offset..offset + 4] + bs[offset + 4..offset + 8];
  }

  // ---------------------------------------------------------------- ULEB128

  const MAX_VARINT_BYTES: nat := 5

  /** The shortest base-128 little-endian form, continuation bit on all bytes but the last. */
  function Uleb(value: nat): (bs: Bytes)
    ensures |bs| >= 1
  {
    if value < 0x80 then [value] else [0x80 + value % 0x80] + Uleb(value / 0x80)
  }

  method EncodeUleb128(value: u32) returns (r: Result<Bytes>)
    ensures r == Ok(Uleb(value))
  {
    var out: Bytes := [];
    var rest: nat := value;
    var first := true;
    while first || rest != 0
      invariant first ==> out == [] && rest == value
      invariant !first && rest != 0 ==> Uleb(value) == out + Uleb(rest)
      invariant !first && rest == 0 ==> Uleb(value) == out
      decreases first, rest
    {
      var low: byte := rest % 0x80;
      var next := rest / 0x80;
      if next != 0 {
        low := low + 0x80;
      }
      ghost var before := out;
      out := out + [low];
      assert next != 0 ==> before + Uleb(rest) == out + Uleb(next);
      rest := next;
      first := false;
    }
    UlebShort(value);
    if |out| > MAX_VARINT_BYTES {
      return Err(ConnectionError(VarintTooLong));
    }
    return Ok(out);
  }

  /** No 32-bit value needs more than five bytes, so encoding never fails. */
  lemma UlebShort(value: u32)
    ensures |Uleb(value)| <= MAX_VARINT_BYTES
  {
    UlebLength(value, 5);
  }

  lemma {:induction false} UlebLength(value: nat, n: nat)
    requires n >= 1 && value < Pow128(n)
    ensures |Uleb(value)| <= n
  {
    if value >= 0x80 {
      UlebLength(value / 0x80, n - 1);
    }
  }

  function Pow128(n: nat): (p: nat)
    ensures p >= 1
  {
    if n == 0 then 1 else 0x80 * Pow128(n - 1)
  }

  /** The decoder's accumulator after it takes in byte `b` at place `i`, truncated to 32 bits. */
  function Gather(value: u32, b: byte, i: nat): u32 {
    (value + b % 0x80 * Pow128(i)) % U32_SPAN
  }

  /** One pass of the decoder's loop from byte `i`, with the value gathered so far. */
  function UlebFrom(bs: Bytes, offset: nat, i: nat, value: u32): (r: Result<(u32, nat)>)
    requires i <= MAX_VARINT_BYTES
    decreases MAX_VARINT_BYTES - i
  {
    if i == MAX_VARINT_BYTES then Err(ConnectionError(VarintTooLong))
    else if offset + i >= |bs| then Err(Error(Connection, NeedMoreData, NoAction))
    else
      var b := bs[offset + i];
      var next := Gather(value, b, i);
      if b < 0x80 then
        if (i == 4 && b >= 0x10) || (i > 0 && next < Pow128(i))
        then Err(ConnectionError(VarintNonCanonical))
        else Ok((next, i + 1))
      else UlebFrom(bs, offset, i + 1, next)
  }

  function UlebParse(bs: Bytes, offset: nat): Result<(u32, nat)> {
    UlebFrom(bs, offset, 0, 0)
  }

  method DecodeUleb128(bs: Bytes, offset: nat) returns (r: Result<(u32, nat)>)
    ensures r == UlebParse(bs, offset)
  {
    var value: u32 := 0;
    var scale: nat := 1;
    for i := 0 to MAX_VARINT_BYTES
      invariant scale == Pow128(i)
      invariant UlebParse(bs, offset) == UlebFrom(bs, offset, i, value)
    {
      if offset + i >= |bs| {
        return Err(Error(Connection, NeedMoreData, NoAction));
      }
      var b := bs[offset + i];
      value := (value + b % 0x80 * scale) % U32_SPAN;
      if b < 0x80 {
        if (i == 4 && b >= 0x10) || (i > 0 && value < scale) {
          return Err(ConnectionError(VarintNonCanonical));
        }
        return Ok((value, i + 1));
      }
      scale := scale * 0x80;
    }
    return Err(ConnectionError(VarintTooLong));
  }

  /** The decoder inverts the encoder wherever the encoding sits. */
  lemma UlebRoundTrip(value: u32, pre: Bytes, post: Bytes)
    ensures UlebParse(pre + Uleb(value) + post, |pre|) == Ok((value, |Uleb(value)|))
  {
    UlebDecodesFrom(value, 0, 0, pre + Uleb(value) + post, |pre|);
  }

  /** `low` is what the first `i` bytes gave; the bytes from there on encode `rest`. */
  lemma {:induction false} UlebDecodesFrom(rest: nat, low: nat, i: nat, bs: Bytes, offset: nat)
    requires i < MAX_VARINT_BYTES
    requires low < Pow128(i) && low + rest * Pow128(i) < U32_SPAN
    requires i > 0 ==> rest > 0
    requires offset + i + |Uleb(rest)| <= |bs|
    requires bs[offset + i..offset + i + |Uleb(rest)|] == Uleb(rest)
    ensures UlebFrom(bs, offset, i, low) == Ok((low + rest * Pow128(i), i + |Uleb(rest)|))
    decreases MAX_VARINT_BYTES - i
  {
    hide Gather, Pow128;
    var b := bs[offset + i];
    assert b == Uleb(rest)[0];
    if rest < 0x80 {
      GatherLast(low, b, i);
    } else {
      var tail := Uleb(rest / 0x80);
      assert Uleb(rest) == [b] + tail;
      assert bs[offset + i + 1..offset + i + 1 + |tail|] == Uleb(rest)[1..];
      GatherMore(low, rest, i);
      UlebDecodesFrom(rest / 0x80, Gather(low, b, i), i + 1, bs, offset);
    }
  }

  lemma GatherExact(low: nat, r: nat, i: nat)
    requires r < 0x80 && i < MAX_VARINT_BYTES
    requires low < Pow128(i) && (i == 4 ==> r < 0x10)
    ensures low + r * Pow128(i) < U32_SPAN && low + r * Pow128(i) < Pow128(i + 1)
    ensures Gather(low, r, i) == low + r * Pow128(i)
    ensures r < 0x80 ==> Gather(low, r + 0x80, i) == low + r * Pow128(i)
  {
    Pow128Values();
    Scaled(r, Pow128(i));
    if i == 4 {
      assert r * Pow128(4) <= 0xF * Pow128(4);
    }
    assert (r + 0x80) % 0x80 == r;
  }

  lemma AtLeastOne(b: nat, p: nat)
    requires b > 0
    ensures b * p >= p
  {
  }

  lemma GatherLast(low: nat, b: byte, i: nat)
    requires b < 0x80 && i < MAX_VARINT_BYTES
    requires low < Pow128(i) && low + b * Pow128(i) < U32_SPAN
    ensures i == 4 ==> b < 0x10
    ensures Gather(low, b, i) == low + b * Pow128(i)
    ensures b > 0 ==> Gather(low, b, i) >= Pow128(i)
    ensures b == 0 ==> Gather(low, b, i) < Pow128(i)
  {
    assert b % 0x80 == b;
    if i == 4 {
      Pow128Values();
    }
    hide Pow128;
    if b > 0 {
      AtLeastOne(b, Pow128(i));
    }
  }

  lemma GatherMore(low: nat, rest: nat, i: nat)
    requires rest >= 0x80 && i < MAX_VARINT_BYTES
    requires low < Pow128(i) && low + rest * Pow128(i) < U32_SPAN
    ensures i < 4
    ensures var next := Gather(low, 0x80 + rest % 0x80, i);
            next < Pow128(i + 1) && next + rest / 0x80 * Pow128(i + 1) == low + rest * Pow128(i)
  {
    Pow128Values();
    assert rest * Pow128(i) >= 0x80 * Pow128(i);
    GatherExact(low, rest % 0x80, i);
    SplitProduct(rest, Pow128(i));
  }

  lemma Pow128Values()
    ensures Pow128(0) == 1 && Pow128(1) == 0x80 && Pow128(2) == 0x4000
    ensures Pow128(3) == 0x20_0000 && Pow128(4) == 0x1000_0000 && Pow128(5) == 0x8_0000_0000
  {
    assert Pow128(2) == 0x80 * Pow128(1);
    assert Pow128(3) == 0x80 * Pow128(2);
    assert Pow128(4) == 0x80 * Pow128(3);
  }

  lemma Distribute(r: nat, q: nat, p: nat)
    ensures (r + 0x80 * q) * p == r * p + q * (0x80 * p)
  {
  }

  lemma Scaled(r: nat, p: nat)
    requires r < 0x80
    ensures 0 <= r * p <= 0x7F * p
  {
  }

  lemma SplitProduct(rest: nat, p: nat)
    ensures rest % 0x80 * p + rest / 0x80 * (0x80 * p) == rest * p
    ensures 0 <= rest % 0x80 * p <= 0x7F * p
  {
    var r, q := rest % 0x80, rest / 0x80;
    Distribute(r, q, p);
    Scaled(r, p);
    assert rest == r + 0x80 * q;
  }

  /** Whatever the decoder accepts is exactly the canonical encoding of the value it returns. */
  lemma UlebCanonical(bs: Bytes, offset: nat)
    requires UlebParse(bs, offset).Ok?
    ensures var (value, n) := UlebParse(bs, offset).value;
            offset + n <= |bs| && bs[offset..offset + n] == Uleb(value)
  {
    var rest := UlebRest(bs, offset, 0, 0);
    var n := UlebParse(bs, offset).value.1;
    assert bs[offset + 0..offset + n] == bs[offset..offset + n];
  }

  lemma Regroup(low: nat, r: nat, rest: nat, i: nat)
    ensures (low + r * Pow128(i)) + rest * Pow128(i + 1) == low + (r + 0x80 * rest) * Pow128(i)
  {
    Distribute(r, rest, Pow128(i));
  }

  lemma UlebCons(b: byte, rest: nat)
    requires b >= 0x80 && rest > 0
    ensures Uleb((b - 0x80) + 0x80 * rest) == [b] + Uleb(rest)
  {
  }

  /** From any point of the decoder's loop, the bytes still to come encode the high part of the value. */
  lemma {:induction false} UlebRest(bs: Bytes, offset: nat, i: nat, low: u32) returns (high: nat)
    requires i < MAX_VARINT_BYTES && low < Pow128(i)
    requires UlebFrom(bs, offset, i, low).Ok?
    ensures var (value, n) := UlebFrom(bs, offset, i, low).value;
            && value == low + high * Pow128(i)
            && i < n && offset + n <= |bs|
            && bs[offset + i..offset + n] == Uleb(high)
            && (i > 0 ==> high > 0)
    decreases MAX_VARINT_BYTES - i
  {
    hide Gather, Pow128, Uleb;
    var b := bs[offset + i];
    var n := UlebFrom(bs, offset, i, low).value.1;
    if b < 0x80 {
      GatherExact(low, b, i);
      GatherLast(low, b, i);
      UlebOne(b);
      assert bs[offset + i..offset + n] == [b];
      high := b;
    } else {
      assert i < 4 by { assert UlebFrom(bs, offset, 5, Gather(low, b, i)).Err?; }
      GatherExact(low, b - 0x80, i);
      var rest := UlebRest(bs, offset, i + 1, Gather(low, b, i));
      high := (b - 0x80) + 0x80 * rest;
      Regroup(low, b - 0x80, rest, i);
      UlebCons(b, rest);
      SliceCons(bs, offset + i, offset + n);
    }
  }

  /** The number base-128 bytes stand for: the low seven bits of each, least significant byte first. */
  function UlebValue(bs: Bytes): nat {
    if bs == [] then 0 else bs[0] % 0x80 + 0x80 * UlebValue(bs[1..])
  }

  /** All bytes but the last carry the continuation bit; the last does not, and is zero only alone. */
  predicate UlebForm(bs: Bytes) {
    && bs != [] && bs[|bs| - 1] < 0x80 && (|bs| > 1 ==> bs[|bs| - 1] != 0)
    && forall i :: 0 <= i < |bs| - 1 ==> bs[i] >= 0x80
  }

  /** The form is the one the format describes: it has the value, and is the shortest that does. */
  lemma {:induction false} UlebMeaning(value: nat)
    ensures UlebValue(Uleb(value)) == value && UlebForm(Uleb(value))
  {
    if value < 0x80 {
      assert [value][1..] == [];
    } else {
      UlebMeaning(value / 0x80);
      UlebLonger(0x80 + value % 0x80, Uleb(value / 0x80));
    }
  }

  lemma UlebLonger(b: byte, rest: Bytes)
    requires b >= 0x80 && UlebForm(rest) && UlebValue(rest) > 0
    ensures UlebForm([b] + rest) && UlebValue([b] + rest) == b % 0x80 + 0x80 * UlebValue(rest)
  {
    assert ([b] + rest)[1..] == rest;
    if |rest| == 1 { assert rest[1..] == []; }
  }

  lemma UlebOne(b: byte) requires b < 0x80 ensures Uleb(b) == [b] {}

  lemma SliceCons(bs: Bytes, i: nat, j: nat)
    requires i < j <= |bs|
    ensures bs[i..j] == [bs[i]] + bs[i + 1..j]
  {
  }

  /** A result other than "need more data" does not change when bytes are appended. */
  lemma {:induction false} UlebStable(bs: Bytes, offset: nat, i: nat, value: u32, more: Bytes)
    requires i <= MAX_VARINT_BYTES
    requires UlebFrom(bs, offset, i, value) != Err(Error(Connection, NeedMoreData, NoAction))
    ensures UlebFrom(bs + more, offset, i, value) == UlebFrom(bs, offset, i, value)
    decreases MAX_VARINT_BYTES - i
  {
    if i < MAX_VARINT_BYTES {
      assert (bs + more)[offset + i] == bs[offset + i];
      var b := bs[offset + i];
      if b >= 0x80 {
        UlebStable(bs, offset, i + 1, Gather(value, b, i), more);
      }
    }
  }

  /** The decoder asks for more only while it has seen at most four bytes. */
  lemma {:induction false} UlebPartial(bs: Bytes, offset: nat, i: nat, value: u32)
    requires i <= MAX_VARINT_BYTES
    requires offset + i <= |bs|
    requires UlebFrom(bs, offset, i, value) == Err(Error(Connection, NeedMoreData, NoAction))
    ensures |bs| - offset < MAX_VARINT_BYTES
    decreases MAX_VARINT_BYTES - i
  {
    if offset + i < |bs| {
      var b := bs[offset + i];
      UlebPartial(bs, offset, i + 1, Gather(value, b, i));
    }
  }

  /** Byte `p`, if it is there, carries the continuation bit. */
  predicate GoesOn(bs: Bytes, p: nat) { p < |bs| ==> bs[p] >= 0x80 }

  predicate Continued(bs: Bytes, start: nat, end: nat) { forall p: nat | start <= p < end :: GoesOn(bs, p) }

  lemma {:induction false} UlebErrorsFrom(bs: Bytes, offset: nat, i: nat, value: u32)
    requires i <= MAX_VARINT_BYTES
    ensures var r := UlebFrom(bs, offset, i, value);
            var end := offset + MAX_VARINT_BYTES;
            && (r == Err(Error(Connection, NeedMoreData, NoAction)) <==>
                  |bs| < end && i < MAX_VARINT_BYTES && Continued(bs, offset + i, end))
            && (r == Err(ConnectionError(VarintTooLong)) <==>
                  (i == MAX_VARINT_BYTES || end <= |bs|) && Continued(bs, offset + i, end))
            && (r.Err? ==> r.error == Error(Connection, NeedMoreData, NoAction)
                           || r.error == ConnectionError(VarintTooLong) || r.error == ConnectionError(VarintNonCanonical))
    decreases MAX_VARINT_BYTES - i
  {
    hide Gather, Pow128;
    if i < MAX_VARINT_BYTES && offset + i < |bs| {
      var b := bs[offset + i];
      assert GoesOn(bs, offset + i) <==> b >= 0x80;
      if b >= 0x80 {
        UlebErrorsFrom(bs, offset, i + 1, Gather(value, b, i));
        assert Continued(bs, offset + i, offset + MAX_VARINT_BYTES) <==> Continued(bs, offset + i + 1, offset + MAX_VARINT_BYTES);
      }
    }
  }

  /**
   Which error a length gets: it needs more data exactly when fewer than five bytes are there and all go on, it is
   too long exactly when five are there and all go on, and otherwise it is what the encoder writes or not canonical.
   */
  lemma UlebErrorIff(bs: Bytes, offset: nat)
    ensures var r := UlebParse(bs, offset);
            var end := offset + MAX_VARINT_BYTES;
            && (r == Err(Error(Connection, NeedMoreData, NoAction)) <==> |bs| < end && Continued(bs, offset, end))
            && (r == Err(ConnectionError(VarintTooLong)) <==> end <= |bs| && Continued(bs, offset, end))
            && (r.Ok? ==> offset + r.value.1 <= |bs| && bs[offset..offset + r.value.1] == Uleb(r.value.0))
            && (r.Err? && !Continued(bs, offset, end) ==> r == Err(ConnectionError(VarintNonCanonical)))
  {
    hide Uleb, Continued;
    UlebErrorsFrom(bs, offset, 0, 0);
    if UlebParse(bs, offset).Ok? { UlebCanonical(bs, offset); }
  }
}

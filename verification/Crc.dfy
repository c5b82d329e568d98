/**
 CRC32C (section 12.1 of RFC 3720, Appendix A of RFC 9260).  The reference is the reflected
 polynomial division taken one bit at a time; the implementation is the slicing-by-8 table form.
 */
module Crc {
  import opened Types

  // ---------------------------------------------------------------- one bit at a time

  function Xor(a: bv32, b: bv32): bv32 { a ^ b }
  function Half(c: bv32): bv32 { c >> 1 }
  function Tap(c: bv32): bv32 { if c & 1 == 1 then 0x82F63B78 else 0 }

  function Step(c: bv32): bv32 {
    Xor(Half(c), Tap(c))
  }

  function Step8(c: bv32): bv32 {
    Step(Step(Step(Step(Step(Step(Step(Step(c))))))))
  }

  function Octet(b: byte): bv8 { b as bv8 }
  function Widen(o: bv8): bv32 { o as bv32 }
  function Word(b: byte): bv32 { Widen(Octet(b)) }

  /** The register after the bytes `bs`, starting from `c`. */
  function Feed(c: bv32, bs: Bytes): bv32
    decreases |bs|
  {
    if bs == [] then c else Feed(Step8(Xor(c, Word(bs[0]))), bs[1..])
  }

  function Crc32c(bs: Bytes): u32 {
    Complement(Feed(0xFFFF_FFFF, bs)) as int
  }

  /** `k` zero bytes pushed through the register. */
  function Run(k: nat, c: bv32): bv32 {
    if k == 0 then c else Step8(Run(k - 1, c))
  }

  // ---------------------------------------------------------------- the step is linear

  lemma XorComm(a: bv32, b: bv32) ensures Xor(a, b) == Xor(b, a) {}
  lemma XorAssoc(a: bv32, b: bv32, c: bv32) ensures Xor(Xor(a, b), c) == Xor(a, Xor(b, c)) {}
  lemma XorZero(a: bv32) ensures Xor(a, 0) == a {}
  lemma HalfXor(a: bv32, b: bv32) ensures Half(Xor(a, b)) == Xor(Half(a), Half(b)) {}
  lemma TapXor(a: bv32, b: bv32) ensures Tap(Xor(a, b)) == Xor(Tap(a), Tap(b)) {}

  lemma XorSwap(x: bv32, y: bv32, p: bv32, q: bv32)
    ensures Xor(Xor(x, y), Xor(p, q)) == Xor(Xor(x, p), Xor(y, q))
  {
    hide Xor;
    XorAssoc(x, y, Xor(p, q));
    XorAssoc(y, p, q);
    XorComm(y, p);
    XorAssoc(p, y, q);
    XorAssoc(x, p, Xor(y, q));
  }

  lemma StepLinear(a: bv32, b: bv32)
    ensures Step(Xor(a, b)) == Xor(Step(a), Step(b))
  {
    hide Xor, Half, Tap;
    HalfXor(a, b);
    TapXor(a, b);
    XorSwap(Half(a), Half(b), Tap(a), Tap(b));
  }

  lemma StepLinearEverywhere()
    ensures forall a, b :: Step(Xor(a, b)) == Xor(Step(a), Step(b))
  {
    hide *;
    forall a, b
      ensures Step(Xor(a, b)) == Xor(Step(a), Step(b))
    {
      StepLinear(a, b);
    }
  }

  /** Eight uses of any linear map are linear. */
  lemma EightfoldLinear<T(!new)>(f: T -> T, op: (T, T) -> T, a: T, b: T)
    requires forall x, y :: f(op(x, y)) == op(f(x), f(y))
    ensures f(f(f(f(f(f(f(f(op(a, b)))))))))
         == op(f(f(f(f(f(f(f(f(a)))))))), f(f(f(f(f(f(f(f(b)))))))))
  {
  }

  lemma Step8Linear(a: bv32, b: bv32)
    ensures Step8(Xor(a, b)) == Xor(Step8(a), Step8(b))
  {
    hide Step, Xor;
    StepLinearEverywhere();
    EightfoldLinear(Step, Xor, a, b);
  }

  lemma {:induction false} RunLinear(k: nat, a: bv32, b: bv32)
    ensures Run(k, Xor(a, b)) == Xor(Run(k, a), Run(k, b))
  {
    hide Step8, Xor;
    if k > 0 {
      RunLinear(k - 1, a, b);
      Step8Linear(Run(k - 1, a), Run(k - 1, b));
    }
  }

  lemma {:induction false} RunStep(k: nat, c: bv32)
    ensures Run(k, Step8(c)) == Run(k + 1, c)
  {
    hide Step8;
    if k > 0 {
      RunStep(k - 1, c);
    }
  }

  lemma {:induction false} RunAdd(j: nat, k: nat, c: bv32)
    ensures Run(j, Run(k, c)) == Run(j + k, c)
  {
    hide Step8;
    if j > 0 {
      RunAdd(j - 1, k, c);
    }
  }

  // ---------------------------------------------------------------- eight steps shift an empty low byte

  function Up(w: bv32, k: bv8): bv32
    requires k <= 32
  {
    w << k
  }

  lemma EvenShift(w: bv32, k: bv8)
    requires 1 <= k <= 8 && w < 0x100_0000
    ensures Step(Up(w, k)) == Up(w, k - 1)
  {
  }

  lemma EightfoldChain<T>(f: T -> T, x: seq<T>)
    requires |x| == 9 && forall i :: 0 <= i < 8 ==> f(x[i]) == x[i + 1]
    ensures f(f(f(f(f(f(f(f(x[0])))))))) == x[8]
  {
    assert f(x[0]) == x[1] && f(x[1]) == x[2] && f(x[2]) == x[3] && f(x[3]) == x[4];
    assert f(x[4]) == x[5] && f(x[5]) == x[6] && f(x[6]) == x[7] && f(x[7]) == x[8];
  }

  lemma UpZero(w: bv32) ensures Up(w, 0) == w {}

  lemma ShiftOut(w: bv32)
    requires w < 0x100_0000
    ensures Step8(Up(w, 8)) == w
  {
    hide Step, Up;
    UpZero(w);
    EvenShift(w, 8);
    EvenShift(w, 7);
    EvenShift(w, 6);
    EvenShift(w, 5);
    EvenShift(w, 4);
    EvenShift(w, 3);
    EvenShift(w, 2);
    EvenShift(w, 1);
    EightfoldChain(Step, [Up(w, 8), Up(w, 7), Up(w, 6), Up(w, 5), Up(w, 4), Up(w, 3), Up(w, 2), Up(w, 1), Up(w, 0)]);
  }

  /** A byte that joins after eight steps could have joined eight places higher before them. */
  lemma ShiftIn(c: bv32, w: bv32)
    requires w < 0x100_0000
    ensures Xor(Step8(c), w) == Step8(Xor(c, Up(w, 8)))
  {
    hide Step8, Xor, Up;
    Step8Linear(c, Up(w, 8));
    ShiftOut(w);
  }

  // ---------------------------------------------------------------- up to four bytes at once

  /** Little-endian word of at most four bytes. */
  function Little(bs: Bytes): (w: bv32)
    requires |bs| <= 4
  {
    if bs == [] then 0 else Xor(Word(bs[0]), Up(Little(bs[1..]), 8))
  }

  lemma WordSmall(b: byte) ensures Word(b) < 0x100 {}

  lemma JoinSmall(b: bv32, w: bv32, r: bv32)
    requires b < 0x100 && r == Xor(b, Up(w, 8))
    ensures w < 0x1_0000 ==> r < 0x100_0000
    ensures w < 0x100 ==> r < 0x1_0000
    ensures w == 0 ==> r < 0x100
  {
  }

  /** The little-endian word of `k` bytes fits `8 * k` bits. */
  lemma {:induction false} LittleSmall(bs: Bytes)
    requires |bs| <= 3
    ensures |bs| == 0 ==> Little(bs) == 0
    ensures |bs| == 1 ==> Little(bs) < 0x100
    ensures |bs| == 2 ==> Little(bs) < 0x1_0000
    ensures |bs| == 3 ==> Little(bs) < 0x100_0000
  {
    hide Xor, Word, Up;
    if bs != [] {
      LittleSmall(bs[1..]);
      WordSmall(bs[0]);
      JoinSmall(Word(bs[0]), Little(bs[1..]), Little(bs));
    }
  }

  lemma LittleFits(bs: Bytes)
    requires |bs| <= 3
    ensures Little(bs) < 0x100_0000
  {
    LittleSmall(bs);
  }

  lemma {:induction false} FeedShort(c: bv32, bs: Bytes)
    requires |bs| <= 4
    ensures Feed(c, bs) == Run(|bs|, Xor(c, Little(bs)))
    decreases |bs|
  {
    hide Xor, Word, Step8, Up;
    if bs == [] {
      XorZero(c);
    } else {
      var d := Xor(c, Word(bs[0]));
      FeedShort(Step8(d), bs[1..]);
      LittleFits(bs[1..]);
      FeedShortStep(c, Word(bs[0]), Little(bs[1..]), |bs|);
    }
  }

  lemma FeedShortStep(c: bv32, b: bv32, low: bv32, k: nat)
    requires low < 0x100_0000 && k > 0
    ensures Run(k - 1, Xor(Step8(Xor(c, b)), low)) == Run(k, Xor(c, Xor(b, Up(low, 8))))
  {
    hide Xor, Step8, Up;
    ShiftIn(Xor(c, b), low);
    RunStep(k - 1, Xor(Xor(c, b), Up(low, 8)));
    XorAssoc(c, b, Up(low, 8));
  }

  lemma {:induction false} FeedSplit(c: bv32, a: Bytes, b: Bytes)
    ensures Feed(c, a + b) == Feed(Feed(c, a), b)
    decreases |a|
  {
    hide Step8, Xor, Word;
    if a == [] {
      assert a + b == b;
    } else {
      assert (a + b)[1..] == a[1..] + b;
      FeedSplit(Step8(Xor(c, Word(a[0]))), a[1..], b);
    }
  }

  // ---------------------------------------------------------------- byte lanes

  function Lane(x: bv32, shift: bv8): bv32
    requires shift <= 24
  {
    (x >> shift) & 0xFF
  }

  lemma LaneSmall(x: bv32, shift: bv8)
    requires shift <= 24
    ensures Lane(x, shift) < 0x100 && Lane(x, shift) <= 0xFF
  {
  }

  function Narrow(w: bv32): bv8
    requires w <= 0xFF
  {
    w as bv8
  }

  /** A masked register as a table index. */
  function Index(w: bv32): (i: byte)
    requires w <= 0xFF
  {
    Narrow(w) as int
  }

  lemma OctetBack(o: bv8) ensures Octet(o as int) == o {}
  lemma NarrowWiden(w: bv32) requires w <= 0xFF ensures Widen(Narrow(w)) == w {}

  lemma IndexWord(w: bv32)
    requires w <= 0xFF
    ensures Word(Index(w)) == w
  {
    hide Octet, Widen, Narrow;
    OctetBack(Narrow(w));
    NarrowWiden(w);
  }

  lemma LanesJoin(x: bv32)
    ensures x == Xor(Xor(Xor(Lane(x, 0), Up(Lane(x, 8), 8)), Up(Lane(x, 16), 16)), Up(Lane(x, 24), 24))
  {
  }

  lemma UpTwice(w: bv32)
    requires w < 0x100
    ensures Up(w, 8) < 0x100_0000 && Up(Up(w, 8), 8) == Up(w, 16)
    ensures Up(w, 16) < 0x100_0000 && Up(Up(w, 16), 8) == Up(w, 24)
  {
  }

  lemma RunUp(k: nat, w: bv32)
    requires k >= 1 && w < 0x100_0000
    ensures Run(k, Up(w, 8)) == Run(k - 1, w)
  {
    hide Step8, Up;
    RunStep(k - 1, Up(w, 8));
    ShiftOut(w);
  }

  lemma RunLanes(k: nat, x: bv32)
    requires k >= 4
    ensures Run(k, x) == Xor(Xor(Xor(Run(k, Lane(x, 0)), Run(k - 1, Lane(x, 8))), Run(k - 2, Lane(x, 16))),
                             Run(k - 3, Lane(x, 24)))
  {
    hide Xor, Up, Lane, Run;
    var a, b, c, d := Lane(x, 0), Lane(x, 8), Lane(x, 16), Lane(x, 24);
    LanesJoin(x);
    RunLinear(k, Xor(Xor(a, Up(b, 8)), Up(c, 16)), Up(d, 24));
    RunLinear(k, Xor(a, Up(b, 8)), Up(c, 16));
    RunLinear(k, a, Up(b, 8));
    RunLane1(k, x);
    RunLane2(k, x);
    RunLane3(k, x);
  }

  lemma RunLane1(k: nat, x: bv32)
    requires k >= 1
    ensures Run(k, Up(Lane(x, 8), 8)) == Run(k - 1, Lane(x, 8))
  {
    hide Up, Lane, Run;
    LaneSmall(x, 8);
    RunUp(k, Lane(x, 8));
  }

  lemma RunLane2(k: nat, x: bv32)
    requires k >= 2
    ensures Run(k, Up(Lane(x, 16), 16)) == Run(k - 2, Lane(x, 16))
  {
    hide Up, Lane, Run;
    LaneSmall(x, 16);
    UpTwice(Lane(x, 16));
    RunUp(k, Up(Lane(x, 16), 8));
    RunUp(k - 1, Lane(x, 16));
  }

  lemma RunLane3(k: nat, x: bv32)
    requires k >= 3
    ensures Run(k, Up(Lane(x, 24), 24)) == Run(k - 3, Lane(x, 24))
  {
    hide Up, Lane, Run;
    LaneSmall(x, 24);
    UpTwice(Lane(x, 24));
    RunUp(k, Up(Lane(x, 24), 16));
    RunUp(k - 1, Up(Lane(x, 24), 8));
    RunUp(k - 2, Lane(x, 24));
  }

  /** The table step: one lookup and one shift push a byte through. */
  lemma TableStep(c: bv32)
    ensures Xor(Run(1, Lane(c, 0)), c >> 8) == Step8(c)
  {
    hide Xor, Step8, Up;
    TableParts(c);
    Step8Linear(Lane(c, 0), Up(c >> 8, 8));
    ShiftOut(c >> 8);
    assert Run(0, Lane(c, 0)) == Lane(c, 0);
  }

  lemma TableParts(c: bv32)
    ensures c == Xor(Lane(c, 0), Up(c >> 8, 8)) && c >> 8 < 0x100_0000
  {
  }

  lemma ByteStays(c: bv32, b: byte)
    ensures Xor(c, Word(b)) >> 8 == c >> 8
  {
    WordSmall(b);
    HighStays(c, Word(b));
  }

  lemma HighStays(c: bv32, w: bv32)
    requires w < 0x100
    ensures Xor(c, w) >> 8 == c >> 8
  {
  }

  // ---------------------------------------------------------------- errors never cancel

  lemma StepInjective(a: bv32, b: bv32)
    requires Step(a) == Step(b)
    ensures a == b
  {
  }

  lemma EightfoldInjective<T(!new)>(f: T -> T, a: T, b: T)
    requires forall x, y :: f(x) == f(y) ==> x == y
    requires f(f(f(f(f(f(f(f(a)))))))) == f(f(f(f(f(f(f(f(b))))))))
    ensures a == b
  {
  }

  lemma Step8Injective(a: bv32, b: bv32)
    requires Step8(a) == Step8(b)
    ensures a == b
  {
    hide Step;
    forall x, y | Step(x) == Step(y)
      ensures x == y
    {
      StepInjective(x, y);
    }
    EightfoldInjective(Step, a, b);
  }

  lemma {:induction false} RunInjective(k: nat, a: bv32, b: bv32)
    requires Run(k, a) == Run(k, b)
    ensures a == b
  {
    hide Step8;
    if k > 0 {
      Step8Injective(Run(k - 1, a), Run(k - 1, b));
      RunInjective(k - 1, a, b);
    }
  }

  lemma XorInjective(c: bv32, a: bv32, b: bv32)
    requires Xor(c, a) == Xor(c, b) || Xor(a, c) == Xor(b, c)
    ensures a == b
  {
  }

  lemma {:induction false} FeedInjective(a: bv32, b: bv32, bs: Bytes)
    requires Feed(a, bs) == Feed(b, bs)
    ensures a == b
    decreases |bs|
  {
    hide Step8, Xor, Word;
    if bs != [] {
      var w := Word(bs[0]);
      FeedInjective(Step8(Xor(a, w)), Step8(Xor(b, w)), bs[1..]);
      Step8Injective(Xor(a, w), Xor(b, w));
      XorInjective(w, a, b);
    }
  }

  lemma WordInjective(a: byte, b: byte)
    requires Word(a) == Word(b)
    ensures a == b
  {
    WidenInjective(Octet(a), Octet(b));
    OctetValue(a);
    OctetValue(b);
  }

  lemma OctetNext(w: bv8) requires w < 255 ensures (w + 1) as int == w as int + 1 {}

  lemma {:induction false} ByteBits(a: byte)
    ensures (a as bv8) as int == a
  {
    if a > 0 {
      ByteBits(a - 1);
      var w := (a - 1) as bv8;
      OctetNext(w);
      assert ((w + 1) as int) as bv8 == w + 1;
    }
  }

  lemma OctetValue(a: byte) ensures Octet(a) as int == a { ByteBits(a); }
  lemma WidenInjective(a: bv8, b: bv8) requires Widen(a) == Widen(b) ensures a == b {}

  lemma JoinInjective(a: bv32, x: bv32, b: bv32, y: bv32)
    requires a < 0x100 && b < 0x100 && x < 0x100_0000 && y < 0x100_0000
    requires Xor(a, Up(x, 8)) == Xor(b, Up(y, 8))
    ensures a == b && x == y
  {
  }

  lemma {:induction false} LittleInjective(a: Bytes, b: Bytes)
    requires |a| == |b| <= 4 && Little(a) == Little(b)
    ensures a == b
  {
    hide Xor, Up, Word;
    if a != [] {
      LittleFits(a[1..]);
      LittleFits(b[1..]);
      WordSmall(a[0]);
      WordSmall(b[0]);
      JoinInjective(Word(a[0]), Little(a[1..]), Word(b[0]), Little(b[1..]));
      WordInjective(a[0], b[0]);
      LittleInjective(a[1..], b[1..]);
      assert a == [a[0]] + a[1..] && b == [b[0]] + b[1..];
    }
  }

  lemma ValueInjective(a: bv32, b: bv32)
    requires a as int == b as int
    ensures a == b
  {
    assert (a as int) as bv32 == a && (b as int) as bv32 == b;
  }

  function Complement(c: bv32): bv32 { !c }
  lemma ComplementInjective(a: bv32, b: bv32) requires Complement(a) == Complement(b) ensures a == b {}

  // ---------------------------------------------------------------- an odd number of flipped bits

  predicate Low(w: bv32) { w & 1 == 1 }
  predicate Differ(p: bool, q: bool) { p != q }

  /** Whether an odd number of the low `n` bits is set. */
  predicate OddLow(w: bv32, n: nat)
    decreases n
  {
    n > 0 && Differ(Low(w), OddLow(Half(w), n - 1))
  }

  predicate OddBits(w: bv32) { OddLow(w, 32) }

  lemma LowXor(a: bv32, b: bv32) ensures Low(Xor(a, b)) <==> Differ(Low(a), Low(b)) {}

  lemma {:induction false} OddLowXor(a: bv32, b: bv32, n: nat)
    ensures OddLow(Xor(a, b), n) <==> Differ(OddLow(a, n), OddLow(b, n))
    decreases n
  {
    hide Xor, Half, Low;
    if n > 0 {
      LowXor(a, b);
      HalfXor(a, b);
      OddLowXor(Half(a), Half(b), n - 1);
    }
  }

  lemma OddXor(a: bv32, b: bv32)
    ensures OddBits(Xor(a, b)) <==> Differ(OddBits(a), OddBits(b))
  {
    hide OddLow, Xor;
    OddLowXor(a, b, 32);
  }

  lemma HalfZero() ensures Half(0) == 0 && !Low(0) {}

  lemma {:induction false} OddZero(n: nat)
    ensures !OddLow(0, n)
  {
    hide Half, Low;
    HalfZero();
    if n > 0 { OddZero(n - 1); }
  }

  function HalfTimes(w: bv32, n: nat): bv32
    decreases n
  {
    if n == 0 then w else HalfTimes(Half(w), n - 1)
  }

  /** Bits past those that are there do not count. */
  lemma {:induction false} OddLowMore(w: bv32, n: nat, more: nat)
    requires HalfTimes(w, n) == 0 && n <= more
    ensures OddLow(w, more) <==> OddLow(w, n)
    decreases n
  {
    hide Half, Low;
    if n == 0 { OddZero(more); } else { OddLowMore(Half(w), n - 1, more - 1); }
  }

  function Below(n: bv8): bv32
    requires n < 32
  {
    (1 << n) - 1
  }

  lemma HalfBelow(w: bv32, n: bv8)
    requires 0 < n < 32 && w <= Below(n)
    ensures Half(w) <= Below(n - 1)
  {
    HalfOrdered(w, Below(n));
    HalfOfBelow(n);
  }

  lemma HalfOrdered(a: bv32, b: bv32) requires a <= b ensures Half(a) <= Half(b) {}
  lemma HalfOfBelow(n: bv8) requires 0 < n < 32 ensures Half(Below(n)) == Below(n - 1) {}
  lemma BelowNone(w: bv32) requires w <= Below(0) ensures w == 0 {}
  lemma HalfSmall(w: bv32) ensures Half(w) <= Below(31) {}
  lemma OneLess(n: bv8) requires n > 0 ensures (n - 1) as nat == n as nat - 1 {}

  lemma {:induction false} ShiftedOut(w: bv32, n: bv8)
    requires n < 32 && w <= Below(n)
    ensures HalfTimes(w, n as nat) == 0
    decreases n
  {
    hide Half, Below;
    if n > 0 {
      HalfBelow(w, n);
      OneLess(n);
      ShiftedOut(Half(w), n - 1);
    } else {
      BelowNone(w);
    }
  }

  lemma HalfGone(w: bv32)
    ensures HalfTimes(Half(w), 31) == 0
  {
    HalfSmall(w);
    ShiftedOut(Half(w), 31);
  }

  lemma OddTap(c: bv32)
    ensures OddBits(Tap(c)) <==> Low(c)
  {
    if Low(c) { OddPolynomial(); } else { OddZero(32); }
  }

  function Half4(w: bv32): bv32 { Half(Half(Half(Half(w)))) }

  /** The parity of the low four bits. */
  predicate OddFour(w: bv32) {
    Differ(Differ(Low(w), Low(Half(w))), Differ(Low(Half(Half(w))), Low(Half(Half(Half(w))))))
  }

  lemma FourMore(w: bv32, n: nat)
    requires n >= 4
    ensures OddLow(w, n) <==> Differ(OddFour(w), OddLow(Half4(w), n - 4))
  {
    hide Half, Low;
    var w1 := Half(w);
    var w2 := Half(w1);
    var w3 := Half(w2);
    assert OddLow(w, n) == Differ(Low(w), OddLow(w1, n - 1));
    assert OddLow(w1, n - 1) == Differ(Low(w1), OddLow(w2, n - 2));
    assert OddLow(w2, n - 2) == Differ(Low(w2), OddLow(w3, n - 3));
    assert OddLow(w3, n - 3) == Differ(Low(w3), OddLow(Half(w3), n - 4));
  }

  lemma PolynomialDigits()
    ensures Half4(0x82F6_3B78) == 0x82F_63B7 && Half4(0x82F_63B7) == 0x82_F63B && Half4(0x82_F63B) == 0x8_2F63
    ensures Half4(0x8_2F63) == 0x82F6 && Half4(0x82F6) == 0x82F && Half4(0x82F) == 0x82 && Half4(0x82) == 0x8 && Half4(0x8) == 0
    ensures OddFour(0x82F6_3B78) && OddFour(0x82F_63B7) && OddFour(0x82_F63B) && !OddFour(0x8_2F63)
    ensures !OddFour(0x82F6) && !OddFour(0x82F) && OddFour(0x82) && OddFour(0x8)
  {
  }

  /** The polynomial has seventeen taps. */
  lemma OddPolynomial()
    ensures OddBits(0x82F6_3B78)
  {
    hide Half4, OddFour, OddLow;
    PolynomialDigits();
    FourMore(0x82F6_3B78, 32);
    FourMore(0x82F_63B7, 28);
    FourMore(0x82_F63B, 24);
    FourMore(0x8_2F63, 20);
    FourMore(0x82F6, 16);
    FourMore(0x82F, 12);
    FourMore(0x82, 8);
    FourMore(0x8, 4);
    OddZero(0);
  }

  /** A step neither makes nor loses an odd bit: what it drops the polynomial puts back. */
  lemma OddStep(c: bv32)
    ensures OddBits(Step(c)) <==> OddBits(c)
  {
    hide Half, Tap, Low, Xor;
    OddXor(Half(c), Tap(c));
    OddTap(c);
    HalfGone(c);
    OddLowMore(Half(c), 31, 32);
  }

  lemma OddStep8(c: bv32)
    ensures OddBits(Step8(c)) <==> OddBits(c)
  {
    hide Step, OddBits;
    var c1 := Step(c);
    var c2 := Step(c1);
    var c3 := Step(c2);
    var c4 := Step(c3);
    var c5 := Step(c4);
    var c6 := Step(c5);
    var c7 := Step(c6);
    OddStep(c);
    OddStep(c1);
    OddStep(c2);
    OddStep(c3);
    OddStep(c4);
    OddStep(c5);
    OddStep(c6);
    OddStep(c7);
  }

  predicate BitOf(o: bv8, k: bv8)
    requires k < 8
  {
    (o >> k) & 1 == 1
  }

  function One(bit: bool): nat { if bit then 1 else 0 }

  /** How many bits of one byte are set. */
  function Ones(o: bv8): nat {
    One(BitOf(o, 0)) + One(BitOf(o, 1)) + One(BitOf(o, 2)) + One(BitOf(o, 3))
    + One(BitOf(o, 4)) + One(BitOf(o, 5)) + One(BitOf(o, 6)) + One(BitOf(o, 7))
  }

  function XorOctet(a: bv8, b: bv8): bv8 { a ^ b }

  /** How many bits differ between two strings of one length. */
  function Flips(a: Bytes, b: Bytes): nat
    requires |a| == |b|
  {
    if a == [] then 0 else Ones(XorOctet(Octet(a[0]), Octet(b[0]))) + Flips(a[1..], b[1..])
  }

  /** The parity of a byte as that of its eight bits, one after another. */
  predicate OddOctet(o: bv8) {
    Differ(Differ(Differ(Differ(Differ(Differ(Differ(BitOf(o, 0), BitOf(o, 1)), BitOf(o, 2)), BitOf(o, 3)), BitOf(o, 4)),
           BitOf(o, 5)), BitOf(o, 6)), BitOf(o, 7))
  }

  lemma OddOnes(o: bv8)
    ensures Ones(o) % 2 == 1 <==> OddOctet(o)
  {
    hide BitOf;
  }

  lemma OddWiden(o: bv8)
    ensures OddBits(Widen(o)) <==> OddOctet(o)
  {
    hide Half4, OddFour, OddLow, OddOctet, Widen;
    var w := Widen(o);
    FourMore(w, 32);
    FourMore(Half4(w), 28);
    OctetHalves(o);
    OctetGone(o);
    OddZero(24);
  }

  lemma OctetGone(o: bv8)
    ensures Half4(Half4(Widen(o))) == 0
  {
  }

  lemma OctetHalves(o: bv8)
    ensures Differ(OddFour(Widen(o)), OddFour(Half4(Widen(o)))) <==> OddOctet(o)
  {
  }

  lemma WidenXor(a: bv8, b: bv8)
    ensures Widen(XorOctet(a, b)) == Xor(Widen(a), Widen(b))
  {
  }

  lemma OddByte(c: bv32, d: bv32, p: byte, q: byte)
    ensures Differ(OddBits(Step8(Xor(c, Word(p)))), OddBits(Step8(Xor(d, Word(q)))))
       <==> Differ(Differ(OddBits(c), OddBits(d)), Ones(XorOctet(Octet(p), Octet(q))) % 2 == 1)
  {
    hide OddBits, Step8, Xor, Ones, OddOctet, Widen, Octet, XorOctet;
    var x, y := Octet(p), Octet(q);
    OddStep8(Xor(c, Widen(x)));
    OddStep8(Xor(d, Widen(y)));
    OddXor(c, Widen(x));
    OddXor(d, Widen(y));
    OddXor(Widen(x), Widen(y));
    WidenXor(x, y);
    OddWiden(XorOctet(x, y));
    OddOnes(XorOctet(x, y));
  }

  /** The register's parity differs exactly when an odd number of bits does. */
  lemma {:induction false} OddFeed(c: bv32, d: bv32, a: Bytes, b: Bytes)
    requires |a| == |b|
    ensures Differ(OddBits(Feed(c, a)), OddBits(Feed(d, b))) <==> Differ(Differ(OddBits(c), OddBits(d)), Flips(a, b) % 2 == 1)
    decreases |a|
  {
    hide OddBits, Step8, Xor, Ones, Word, Octet, XorOctet;
    if a != [] {
      OddByte(c, d, a[0], b[0]);
      OddFeed(Step8(Xor(c, Word(a[0]))), Step8(Xor(d, Word(b[0]))), a[1..], b[1..]);
    }
  }

  /** Any odd number of flipped bits, wherever they are, changes the checksum. */
  lemma OddDetected(a: Bytes, b: Bytes)
    requires |a| == |b| && Flips(a, b) % 2 == 1
    ensures Crc32c(a) != Crc32c(b)
  {
    hide Feed, OddBits, Complement;
    var c: bv32 := 0xFFFF_FFFF;
    OddFeed(c, c, a, b);
    if Crc32c(a) == Crc32c(b) {
      ValueInjective(Complement(Feed(c, a)), Complement(Feed(c, b)));
      ComplementInjective(Feed(c, a), Feed(c, b));
    }
  }

  /** A change confined to four consecutive bytes always changes the checksum. */
  lemma BurstDetected(pre: Bytes, a: Bytes, b: Bytes, post: Bytes)
    requires |a| == |b| <= 4 && a != b
    ensures Crc32c(pre + a + post) != Crc32c(pre + b + post)
  {
    hide Feed, Run, Little, Xor, Complement;
    var c: bv32 := 0xFFFF_FFFF;
    var d := Feed(c, pre);
    FeedSplit(c, pre + a, post);
    FeedSplit(c, pre + b, post);
    FeedSplit(c, pre, a);
    FeedSplit(c, pre, b);
    if Crc32c(pre + a + post) == Crc32c(pre + b + post) {
      ValueInjective(Complement(Feed(c, pre + a + post)), Complement(Feed(c, pre + b + post)));
      ComplementInjective(Feed(c, pre + a + post), Feed(c, pre + b + post));
      FeedInjective(Feed(d, a), Feed(d, b), post);
      FeedShort(d, a);
      FeedShort(d, b);
      RunInjective(|a|, Xor(d, Little(a)), Xor(d, Little(b)));
      XorInjective(d, Little(a), Little(b));
      LittleInjective(a, b);
    }
  }

  // ---------------------------------------------------------------- slicing by eight

  /** The source's branch-free step: the polynomial masked by the negated low bit. */
  function MaskedStep(c: bv32): bv32 {
    (c >> 1) ^ (0x82F63B78 & (0 - (c & 1)))
  }

  lemma MaskedStepIsStep(c: bv32)
    ensures MaskedStep(c) == Step(c)
  {
  }

  function Steps(n: nat, c: bv32): bv32 {
    if n == 0 then c else Step(Steps(n - 1, c))
  }

  lemma StepsEight(c: bv32)
    ensures Steps(8, c) == Step8(c)
  {
    hide Step;
    assert Steps(1, c) == Step(Steps(0, c)) && Steps(2, c) == Step(Steps(1, c));
    assert Steps(3, c) == Step(Steps(2, c)) && Steps(4, c) == Step(Steps(3, c));
    assert Steps(5, c) == Step(Steps(4, c)) && Steps(6, c) == Step(Steps(5, c));
    assert Steps(7, c) == Step(Steps(6, c)) && Steps(8, c) == Step(Steps(7, c));
  }

  /** Entry `i` of table `k` is byte `i` pushed through `k + 1` bytes. */
  function Entry(k: nat, i: byte): bv32 {
    Run(k + 1, Word(i))
  }

  ghost predicate RowsDone(table: array2<bv32>, rows: nat)
    reads table
  {
    && table.Length0 == 8 && table.Length1 == 256 && rows <= 8
    && forall k, i :: 0 <= k < rows && 0 <= i < 256 ==> table[k, i] == Entry(k, i)
  }

  method ByteEntry(i: byte) returns (crc: bv32)
    ensures crc == Entry(0, i)
  {
    crc := Word(i);
    for bit := 0 to 8
      invariant crc == Steps(bit, Word(i))
    {
      hide Step, MaskedStep, Word;
      MaskedStepIsStep(crc);
      crc := MaskedStep(crc);
    }
    StepsEight(Word(i));
    assert Run(0, Word(i)) == Word(i);
  }

  method FirstRow(table: array2<bv32>)
    requires RowsDone(table, 0)
    modifies table
    ensures RowsDone(table, 1)
  {
    hide Entry;
    for i := 0 to 256
      invariant forall j :: 0 <= j < i ==> table[0, j] == Entry(0, j)
    {
      var crc := ByteEntry(i);
      table[0, i] := crc;
    }
  }

  method NextRow(table: array2<bv32>, slice: nat)
    requires 1 <= slice < 8 && RowsDone(table, slice)
    modifies table
    ensures RowsDone(table, slice + 1)
  {
    hide Entry, Xor, Lane, Index;
    for i := 0 to 256
      invariant RowsDone(table, slice)
      invariant forall j :: 0 <= j < i ==> table[slice, j] == Entry(slice, j)
    {
      var previous := table[slice - 1, i];
      EntryNext(slice, i);
      table[slice, i] := Xor(table[0, Index(Lane(previous, 0))], previous >> 8);
    }
  }

  lemma EntryNext(slice: nat, i: byte)
    requires slice >= 1
    ensures var previous := Entry(slice - 1, i);
            && Lane(previous, 0) <= 0xFF
            && Xor(Entry(0, Index(Lane(previous, 0))), previous >> 8) == Entry(slice, i)
  {
    hide Step8, Xor, Lane, Index, Word;
    LaneSmall(Entry(slice - 1, i), 0);
    TableLookup(Entry(slice - 1, i));
  }

  method BuildTable() returns (table: array2<bv32>)
    ensures fresh(table) && RowsDone(table, 8)
  {
    table := new bv32[8, 256];
    FirstRow(table);
    for slice := 1 to 8
      invariant RowsDone(table, slice)
    {
      NextRow(table, slice);
    }
  }

  lemma TableLookup(c: bv32)
    ensures Lane(c, 0) <= 0xFF
    ensures Xor(Entry(0, Index(Lane(c, 0))), c >> 8) == Step8(c)
  {
    hide Run, Word, Xor, Lane, Step8, Index;
    LaneSmall(c, 0);
    IndexWord(Lane(c, 0));
    TableStep(c);
  }

  // ---------------------------------------------------------------- the block loop

  /** Eight bytes read into one little-endian 64-bit word. */
  function Block(bs: Bytes): bv64
    requires |bs| == 8
  {
    Glue(Little(bs[..4]), Little(bs[4..]))
  }

  function Glue(low: bv32, high: bv32): bv64 {
    (low as bv64) | ((high as bv64) << 32)
  }

  function LowHalf(block: bv64): bv32 { (block & 0xFFFF_FFFF) as bv32 }
  function HighHalf(block: bv64): bv32 { (block >> 32) as bv32 }

  lemma Halves(low: bv32, high: bv32)
    ensures LowHalf(Glue(low, high)) == low && HighHalf(Glue(low, high)) == high
  {
  }

  lemma FeedEight(c: bv32, bs: Bytes)
    requires |bs| == 8
    ensures Feed(c, bs) == Xor(Run(8, Xor(c, Little(bs[..4]))), Run(4, Little(bs[4..])))
  {
    hide Xor, Run, Little, Feed;
    var x, h := Xor(c, Little(bs[..4])), Little(bs[4..]);
    assert bs == bs[..4] + bs[4..];
    FeedSplit(c, bs[..4], bs[4..]);
    FeedShort(c, bs[..4]);
    FeedShort(Run(4, x), bs[4..]);
    RunLinear(4, Run(4, x), h);
    RunAdd(4, 4, x);
  }

  /** The eight table lookups of one block, as the exclusive or of two words of four lanes. */
  function Lookup(k: nat, x: bv32, shift: bv8): bv32
    requires shift <= 24
  {
    LaneSmall(x, shift);
    Entry(k, Index(Lane(x, shift)))
  }

  lemma LookupRun(k: nat, x: bv32, shift: bv8)
    requires shift <= 24
    ensures Lookup(k, x, shift) == Run(k + 1, Lane(x, shift))
  {
    hide Lane, Index, Word, Run;
    LaneSmall(x, shift);
    IndexWord(Lane(x, shift));
  }

  lemma LookupWord(k: nat, x: bv32)
    requires k >= 3
    ensures Run(k + 1, x)
         == Xor(Xor(Xor(Lookup(k, x, 0), Lookup(k - 1, x, 8)), Lookup(k - 2, x, 16)), Lookup(k - 3, x, 24))
  {
    hide Lookup, Run, Xor, Lane;
    RunLanes(k + 1, x);
    LookupRun(k, x, 0);
    LookupRun(k - 1, x, 8);
    LookupRun(k - 2, x, 16);
    LookupRun(k - 3, x, 24);
  }

  lemma XorFour(w: bv32, a: bv32, b: bv32, c: bv32, d: bv32)
    ensures Xor(Xor(Xor(Xor(w, a), b), c), d) == Xor(w, Xor(Xor(Xor(a, b), c), d))
  {
    hide Xor;
    XorAssoc(w, a, b);
    XorAssoc(w, Xor(a, b), c);
    XorAssoc(w, Xor(Xor(a, b), c), d);
  }

  /** One block of the fast loop advances the register by eight bytes of the bitwise definition. */
  lemma BlockStep(c: bv32, bs: Bytes)
    requires |bs| == 8
    ensures var x := Xor(c, LowHalf(Block(bs)));
            var h := HighHalf(Block(bs));
            Feed(c, bs) ==
            Xor(Xor(Xor(Xor(Xor(Xor(Xor(Lookup(7, x, 0), Lookup(6, x, 8)), Lookup(5, x, 16)), Lookup(4, x, 24)),
                            Lookup(3, h, 0)), Lookup(2, h, 8)), Lookup(1, h, 16)), Lookup(0, h, 24))
  {
    hide Xor, Run, Little, Feed, Lookup, LowHalf, HighHalf, Glue;
    var low, high := Little(bs[..4]), Little(bs[4..]);
    Halves(low, high);
    FeedEight(c, bs);
    var x := Xor(c, low);
    LookupWord(7, x);
    LookupWord(3, high);
    XorFour(Run(8, x), Lookup(3, high, 0), Lookup(2, high, 8), Lookup(1, high, 16), Lookup(0, high, 24));
  }

  method ReadTable(table: array2<bv32>, k: nat, x: bv32, shift: bv8) returns (entry: bv32)
    requires k < 8 && shift <= 24 && RowsDone(table, 8)
    ensures entry == Lookup(k, x, shift)
  {
    hide Entry, Lane, Index;
    LaneSmall(x, shift);
    entry := table[k, Index(Lane(x, shift))];
  }

  method FoldBlock(table: array2<bv32>, crc: bv32, bs: Bytes) returns (next: bv32)
    requires RowsDone(table, 8) && |bs| == 8
    ensures next == Feed(crc, bs)
  {
    hide Xor, Lookup, LowHalf, HighHalf, Block, Feed;
    var block := Block(bs);
    var low := Xor(crc, LowHalf(block));
    var high := HighHalf(block);
    var t7 := ReadTable(table, 7, low, 0);
    var t6 := ReadTable(table, 6, low, 8);
    var t5 := ReadTable(table, 5, low, 16);
    var t4 := ReadTable(table, 4, low, 24);
    var t3 := ReadTable(table, 3, high, 0);
    var t2 := ReadTable(table, 2, high, 8);
    var t1 := ReadTable(table, 1, high, 16);
    var t0 := ReadTable(table, 0, high, 24);
    BlockStep(crc, bs);
    next := Xor(Xor(Xor(Xor(Xor(Xor(Xor(t7, t6), t5), t4), t3), t2), t1), t0);
  }

  method FoldByte(table: array2<bv32>, crc: bv32, b: byte) returns (next: bv32)
    requires RowsDone(table, 8)
    ensures next == Feed(crc, [b])
  {
    hide Xor, Lookup, Word, Step8;
    var entry := ReadTable(table, 0, Xor(crc, Word(b)), 0);
    next := Xor(entry, crc >> 8);
    LookupByte(crc, b);
    assert [b][1..] == [];
  }

  lemma LookupByte(crc: bv32, b: byte)
    ensures Xor(Lookup(0, Xor(crc, Word(b)), 0), crc >> 8) == Step8(Xor(crc, Word(b)))
  {
    hide Xor, Word, Step8, Entry, Lane, Index;
    TableLookup(Xor(crc, Word(b)));
    ByteStays(crc, b);
  }

  /** The slicing-by-8 checksum is the bit-at-a-time one on every byte string. */
  method Crc32cSliced(bytes: Bytes) returns (value: u32)
    ensures value == Crc32c(bytes)
  {
    hide Feed, RowsDone, Complement;
    var table := BuildTable();
    var crc: bv32 := 0xFFFF_FFFF;
    var cursor := 0;
    assert bytes[..0] == [];
    FeedNothing(crc);
    while |bytes| - cursor >= 8
      invariant 0 <= cursor <= |bytes| && RowsDone(table, 8)
      invariant crc == Feed(0xFFFF_FFFF, bytes[..cursor])
    {
      var next := FoldBlock(table, crc, bytes[cursor..cursor + 8]);
      FeedSplit(0xFFFF_FFFF, bytes[..cursor], bytes[cursor..cursor + 8]);
      assert bytes[..cursor] + bytes[cursor..cursor + 8] == bytes[..cursor + 8];
      crc := next;
      cursor := cursor + 8;
    }
    while cursor < |bytes|
      invariant 0 <= cursor <= |bytes| && RowsDone(table, 8)
      invariant crc == Feed(0xFFFF_FFFF, bytes[..cursor])
    {
      var next := FoldByte(table, crc, bytes[cursor]);
      FeedSplit(0xFFFF_FFFF, bytes[..cursor], [bytes[cursor]]);
      assert bytes[..cursor] + [bytes[cursor]] == bytes[..cursor + 1];
      crc := next;
      cursor := cursor + 1;
    }
    assert bytes[..cursor] == bytes;
    value := Complement(crc) as int;
  }

  lemma FeedNothing(c: bv32) ensures Feed(c, []) == c {}
}

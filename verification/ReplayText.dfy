/** The snapshot text of a replay window: decimal numbers, hexadecimal bytes, one entry a line. */
module ReplayText {
  import opened Types
  import opened Replay
  import opened Sorting

  const MALFORMED: Error := Error(Connection, ResourceLimit, NoAction)
  const REJECTED: Error := ConnectionError(ResumeRejected)

  // ---------------------------------------------------------------- decimal numbers

  function Digit(d: nat): (c: char)
    requires d < 10
    ensures '0' <= c <= '9' && c as int - '0' as int == d
  {
    "0123456789"[d]
  }

  function Digits(n: nat): (s: string)
    ensures |s| >= 1
  {
    if n < 10 then [Digit(n)] else Digits(n / 10) + [Digit(n % 10)]
  }

  predicate IsDigit(c: char) { '0' <= c <= '9' }

  predicate AllDigits(s: string) { forall i :: 0 <= i < |s| ==> IsDigit(s[i]) }

  function Value(c: char): nat
    requires IsDigit(c)
  {
    c as int - '0' as int
  }

  /** The number a string of digits denotes after a prefix worth `value`, without a bound. */
  function Decimal(s: string, value: nat): nat
    requires AllDigits(s)
  {
    if s == [] then value else Decimal(s[1..], value * 10 + Value(s[0]))
  }

  function ParseDigits(s: string, value: u64): Result<u64> {
    if s == [] then Ok(value)
    else if !IsDigit(s[0]) then Err(MALFORMED)
    else
      var digit := s[0] as int - '0' as int;
      if value > (U64_SPAN - 1 - digit) / 10 then Err(MALFORMED) else ParseDigits(s[1..], value * 10 + digit)
  }

  function ParseU64Spec(s: string): Result<u64> {
    if s == [] then Err(MALFORMED) else ParseDigits(s, 0)
  }

  method ParseU64(text: string) returns (r: Result<u64>)
    ensures r == ParseU64Spec(text)
  {
    if text == [] {
      return Err(MALFORMED);
    }
    var value: u64 := 0;
    ghost var rest := text;
    for i := 0 to |text|
      invariant rest == text[i..]
      invariant ParseDigits(rest, value) == ParseU64Spec(text)
    {
      var ch := text[i];
      if ch < '0' || ch > '9' {
        return Err(MALFORMED);
      }
      var digit := ch as int - '0' as int;
      if value > (U64_SPAN - 1 - digit) / 10 {
        return Err(MALFORMED);
      }
      value := value * 10 + digit;
      rest := rest[1..];
    }
    return Ok(value);
  }

  lemma {:induction false} DecimalGrows(s: string, value: nat)
    requires AllDigits(s)
    ensures Decimal(s, value) >= value
  {
    if s != [] {
      DecimalGrows(s[1..], value * 10 + Value(s[0]));
    }
  }

  lemma {:induction false} ParseDigitsIff(s: string, value: u64)
    ensures ParseDigits(s, value).Ok? <==> AllDigits(s) && Decimal(s, value) < U64_SPAN
    ensures ParseDigits(s, value).Ok? ==> ParseDigits(s, value).value == Decimal(s, value)
    ensures ParseDigits(s, value).Err? ==> ParseDigits(s, value).error == MALFORMED
  {
    if s != [] {
      assert s == [s[0]] + s[1..];
      assert AllDigits(s) <==> IsDigit(s[0]) && AllDigits(s[1..]);
      if IsDigit(s[0]) {
        var next := value * 10 + Value(s[0]);
        if next < U64_SPAN {
          ParseDigitsIff(s[1..], next);
        } else if AllDigits(s) {
          DecimalGrows(s[1..], next);
        }
      }
    }
  }

  /** The digit-by-digit overflow guard accepts exactly the digit strings whose value fits 64 bits. */
  lemma ParseU64Iff(s: string)
    ensures ParseU64Spec(s).Ok? <==> s != [] && AllDigits(s) && Decimal(s, 0) < U64_SPAN
    ensures ParseU64Spec(s).Ok? ==> ParseU64Spec(s).value == Decimal(s, 0)
  {
    ParseDigitsIff(s, 0);
  }

  lemma {:induction false} DecimalAppend(s: string, c: char, value: nat)
    requires AllDigits(s) && IsDigit(c)
    ensures AllDigits(s + [c]) && Decimal(s + [c], value) == Decimal(s, value) * 10 + Value(c)
  {
    if s == [] {
      assert s + [c] == [c] && [c][1..] == [];
    } else {
      assert (s + [c])[1..] == s[1..] + [c];
      DecimalAppend(s[1..], c, value * 10 + Value(s[0]));
    }
  }

  lemma {:induction false} DigitsDecimal(n: nat)
    ensures AllDigits(Digits(n)) && Decimal(Digits(n), 0) == n
  {
    if n < 10 {
      assert [Digit(n)][1..] == [];
    } else {
      DigitsDecimal(n / 10);
      DecimalAppend(Digits(n / 10), Digit(n % 10), 0);
    }
  }

  lemma ParsePrinted(n: nat)
    ensures ParseU64Spec(Digits(n)) == if n < U64_SPAN then Ok(n) else Err(MALFORMED)
  {
    DigitsDecimal(n);
    ParseDigitsIff(Digits(n), 0);
  }

  // ---------------------------------------------------------------- hexadecimal bytes

  function HexDigit(d: nat): (c: char)
    requires d < 16
    ensures IsDigit(c) || 'a' <= c <= 'f'
  {
    "0123456789abcdef"[d]
  }

  function HexByte(b: byte): (s: string)
    ensures |s| == 2
  {
    [HexDigit(b / 16), HexDigit(b % 16)]
  }

  function Hex(bs: Bytes): (s: string)
    ensures |s| == 2 * |bs|
  {
    if bs == [] then "" else HexByte(bs[0]) + Hex(bs[1..])
  }

  /** -1 for a character that is no hexadecimal digit. */
  function Nibble(c: char): (n: int)
    ensures -1 <= n < 16
  {
    if '0' <= c <= '9' then c as int - '0' as int
    else if 'a' <= c <= 'f' then 10 + (c as int - 'a' as int)
    else if 'A' <= c <= 'F' then 10 + (c as int - 'A' as int)
    else -1
  }

  function ParsePairs(s: string): Result<Bytes>
    requires |s| % 2 == 0
  {
    if s == [] then Ok([])
    else if Nibble(s[0]) < 0 || Nibble(s[1]) < 0 then Err(MALFORMED)
    else match ParsePairs(s[2..])
      case Err(e) => Err(e)
      case Ok(rest) => Ok([Nibble(s[0]) * 16 + Nibble(s[1])] + rest)
  }

  function ParseHexSpec(s: string): Result<Bytes> {
    if |s| % 2 != 0 then Err(MALFORMED) else ParsePairs(s)
  }

  method PrintHex(bs: Bytes) returns (s: string)
    ensures s == Hex(bs)
  {
    s := "";
    ghost var rest := bs;
    for i := 0 to |bs|
      invariant rest == bs[i..]
      invariant s + Hex(rest) == Hex(bs)
    {
      Assoc(s, HexByte(rest[0]), Hex(rest[1..]));
      s := s + HexByte(bs[i]);
      rest := rest[1..];
    }
    assert s + "" == s;
  }

  /** What remains of a parse after `done` bytes. */
  function After(done: Bytes, r: Result<Bytes>): Result<Bytes> {
    match r
    case Err(e) => Err(e)
    case Ok(rest) => Ok(done + rest)
  }

  lemma AfterOne(done: Bytes, s: string)
    requires |s| % 2 == 0 && s != [] && Nibble(s[0]) >= 0 && Nibble(s[1]) >= 0
    ensures After(done, ParsePairs(s)) == After(done + [Nibble(s[0]) * 16 + Nibble(s[1])], ParsePairs(s[2..]))
  {
    hide Nibble;
    if ParsePairs(s[2..]).Ok? {
      Assoc(done, [Nibble(s[0]) * 16 + Nibble(s[1])], ParsePairs(s[2..]).value);
    }
  }

  method ParseHex(text: string) returns (r: Result<Bytes>)
    ensures r == ParseHexSpec(text)
  {
    if |text| % 2 != 0 {
      return Err(MALFORMED);
    }
    var out: Bytes := [];
    ghost var rest := text;
    var i := 0;
    assert After([], ParsePairs(text)) == ParsePairs(text) by {
      if ParsePairs(text).Ok? { assert [] + ParsePairs(text).value == ParsePairs(text).value; }
    }
    while i < |text|
      invariant i <= |text| && i % 2 == 0 && rest == text[i..]
      invariant After(out, ParsePairs(rest)) == ParsePairs(text)
    {
      hide Nibble;
      var high := Nibble(text[i]);
      var low := Nibble(text[i + 1]);
      if high < 0 || low < 0 {
        return Err(MALFORMED);
      }
      AfterOne(out, rest);
      assert rest[2..] == text[i + 2..];
      out := out + [high * 16 + low];
      rest := rest[2..];
      i := i + 2;
    }
    assert rest == [] && out + [] == out;
    return Ok(out);
  }

  lemma NibbleOfDigit(d: nat)
    requires d < 16
    ensures Nibble(HexDigit(d)) == d
  {
  }

  lemma {:induction false} ParsePrintedHex(bs: Bytes)
    ensures ParseHexSpec(Hex(bs)) == Ok(bs)
  {
    hide Nibble, HexDigit;
    if bs != [] {
      var s := Hex(bs);
      NibbleOfDigit(bs[0] / 16);
      NibbleOfDigit(bs[0] % 16);
      assert s[2..] == Hex(bs[1..]);
      ParsePrintedHex(bs[1..]);
      assert bs == [bs[0]] + bs[1..];
    }
  }

  function Lower(c: char): char {
    if 'A' <= c <= 'F' then (c as int + 32) as char else c
  }

  function LowerAll(s: string): string {
    if s == [] then [] else [Lower(s[0])] + LowerAll(s[1..])
  }

  lemma DigitOfNibble(c: char)
    requires Nibble(c) >= 0
    ensures HexDigit(Nibble(c)) == Lower(c)
  {
  }

  lemma LowerPair(s: string)
    requires |s| >= 2
    ensures LowerAll(s) == [Lower(s[0]), Lower(s[1])] + LowerAll(s[2..])
  {
    assert s[1..][1..] == s[2..];
  }

  /** Accepted exactly when the length is even and every character is a hexadecimal digit of either case. */
  lemma {:induction false} ParseHexIff(s: string)
    ensures ParseHexSpec(s).Ok? <==> |s| % 2 == 0 && forall c <- s :: Nibble(c) >= 0
    ensures ParseHexSpec(s).Ok? ==> Hex(ParseHexSpec(s).value) == LowerAll(s)
    decreases |s|
  {
    hide Nibble, HexDigit, Lower;
    if |s| >= 2 {
      ParseHexIff(s[2..]);
      LowerPair(s);
      assert s == [s[0], s[1]] + s[2..];
      if Nibble(s[0]) >= 0 && Nibble(s[1]) >= 0 {
        DigitOfNibble(s[0]);
        DigitOfNibble(s[1]);
        if ParseHexSpec(s).Ok? {
          HexPrefixed(Nibble(s[0]) * 16 + Nibble(s[1]), ParseHexSpec(s[2..]).value);
          HalvesOf(Nibble(s[0]), Nibble(s[1]));
        }
      }
    }
  }

  lemma HexPrefixed(b: byte, bs: Bytes)
    ensures Hex([b] + bs) == HexByte(b) + Hex(bs)
  {
    assert ([b] + bs)[1..] == bs;
  }

  lemma HalvesOf(high: nat, low: nat)
    requires high < 16 && low < 16
    ensures (high * 16 + low) / 16 == high && (high * 16 + low) % 16 == low
  {
  }

  // ---------------------------------------------------------------- lines and fields

  /** The first position of `c` at or after `from`, or the length. */
  function Find(s: string, c: char, from: nat): (i: nat)
    requires from <= |s|
    ensures from <= i <= |s|
    ensures forall j :: from <= j < i ==> s[j] != c
    ensures i < |s| ==> s[i] == c
    decreases |s| - from
  {
    if from == |s| || s[from] == c then from else Find(s, c, from + 1)
  }

  /** One `getline`: the text up to a line feed or the end, and what follows; none at the end of input. */
  function GetLine(text: string): (r: Option<(string, string)>)
    ensures r.Some? ==> |r.value.1| < |text|
  {
    if text == [] then None
    else
      var end := Find(text, '\n', 0);
      Some((text[..end], if end == |text| then [] else text[end + 1..]))
  }

  lemma GetPrinted(line: string, rest: string)
    requires '\n' !in line
    ensures GetLine(line + "\n" + rest) == Some((line, rest))
  {
    var text := line + "\n" + rest;
    assert text[|line|] == '\n';
    var end := Find(text, '\n', 0);
    assert forall j :: 0 <= j < |line| ==> text[j] == line[j] != '\n';
    assert text[..end] == line && text[end + 1..] == rest;
  }

  predicate StartsWith(s: string, prefix: string) { |prefix| <= |s| && s[..|prefix|] == prefix }

  const CAPACITY: string := "capacity|"
  const EPOCH: string := "epoch|"
  const HEADER: string := "LTXREPLAY/1"

  /** One entry line: sequence, retries and bytes. */
  function ParseEntry(line: string): Option<(u32, u8, Bytes)> {
    var first := Find(line, '|', 0);
    if first == |line| then None
    else
      var second := Find(line, '|', first + 1);
      if second == |line| then None
      else
        var third := Find(line, '|', second + 1);
        if third == |line| || line[..first] != "entry" then None
        else
          var n := ParseU64Spec(line[first + 1..second]);
          var retries := ParseU64Spec(line[second + 1..third]);
          var encoded := ParseHexSpec(line[third + 1..]);
          if n.Err? || retries.Err? || encoded.Err? || n.value > 0xFFFF_FFFF || retries.value > 0xFF || encoded.value == []
          then None
          else Some((n.value, retries.value, encoded.value))
  }

  function RestoreEntries(text: string, w: Window, previous: Option<u32>): Result<Window>
    decreases |text|
  {
    match GetLine(text)
    case None => Ok(w)
    case Some((line, rest)) =>
      if line == [] then RestoreEntries(rest, w, previous)
      else match ParseEntry(line)
        case None => Err(REJECTED)
        case Some((n, retries, encoded)) =>
          if (previous.Some? && previous.value >= n) || |w.entries| >= w.capacity then Err(REJECTED)
          else RestoreEntries(rest, w.(entries := w.entries + [Entry(w.epoch, n, encoded, retries)]), Some(n))
  }

  function ParseField(line: string, name: string): Result<u64> {
    if StartsWith(line, name) then ParseU64Spec(line[|name|..]) else Err(REJECTED)
  }

  function RestoreSpec(text: string): Result<Window> {
    var header := GetLine(text);
    if header.None? || header.value.0 != HEADER then Err(REJECTED)
    else
      var second := GetLine(header.value.1);
      if second.None? then Err(REJECTED)
      else
        var capacity := ParseField(second.value.0, CAPACITY);
        if capacity.Err? || capacity.value == 0 then Err(REJECTED)
        else
          var third := GetLine(second.value.1);
          if third.None? then Err(REJECTED)
          else
            var epoch := ParseField(third.value.0, EPOCH);
            if epoch.Err? || epoch.value == 0 || epoch.value > 0xFFFF then Err(REJECTED)
            else RestoreEntries(third.value.1, Window(capacity.value, epoch.value, []), None)
  }

  function EntryLine(e: Entry): string {
    "entry|" + Digits(e.sequence) + "|" + Digits(e.retries) + "|" + Hex(e.encoded)
  }

  function EntryLines(es: seq<Entry>): string {
    if es == [] then "" else EntryLine(es[0]) + "\n" + EntryLines(es[1..])
  }

  function SerializeSpec(w: Window): string {
    HEADER + "\n" + (CAPACITY + Digits(w.capacity) + "\n" + (EPOCH + Digits(w.epoch) + "\n" + EntryLines(w.entries)))
  }

  method Serialize(w: Window) returns (out: string)
    ensures out == SerializeSpec(w)
  {
    out := HEADER + "\n";
    out := out + (CAPACITY + Digits(w.capacity) + "\n");
    out := out + (EPOCH + Digits(w.epoch) + "\n");
    ghost var rest := w.entries;
    HeadRegroups(w);
    for i := 0 to |w.entries|
      invariant rest == w.entries[i..]
      invariant out + EntryLines(rest) == SerializeSpec(w)
    {
      hide Digits, SerializeSpec;
      var e := w.entries[i];
      var hex := PrintHex(e.encoded);
      var line := "entry|" + Digits(e.sequence) + "|" + Digits(e.retries) + "|" + hex;
      Assoc(out, line + "\n", EntryLines(rest[1..]));
      out := out + (line + "\n");
      rest := rest[1..];
    }
    assert out + "" == out;
  }

  lemma HeadRegroups(w: Window)
    ensures HEADER + "\n" + (CAPACITY + Digits(w.capacity) + "\n") + (EPOCH + Digits(w.epoch) + "\n") + EntryLines(w.entries)
         == SerializeSpec(w)
  {
    hide Digits, EntryLines;
    var a, b, c, d := HEADER + "\n", CAPACITY + Digits(w.capacity) + "\n", EPOCH + Digits(w.epoch) + "\n", EntryLines(w.entries);
    Assoc(a + b, c, d);
    Assoc(a, b, c + d);
  }

  method Restore(text: string) returns (r: Result<Window>)
    ensures r == RestoreSpec(text)
  {
    hide ParseU64Spec, ParseEntry, RestoreEntries;
    var line := GetLine(text);
    if line.None? || line.value.0 != HEADER {
      return Err(REJECTED);
    }
    line := GetLine(line.value.1);
    if line.None? || !StartsWith(line.value.0, CAPACITY) {
      return Err(REJECTED);
    }
    var capacity := ParseU64(line.value.0[9..]);
    if capacity.Err? || capacity.value == 0 {
      return Err(REJECTED);
    }
    line := GetLine(line.value.1);
    if line.None? || !StartsWith(line.value.0, EPOCH) {
      return Err(REJECTED);
    }
    var epoch := ParseU64(line.value.0[6..]);
    if epoch.Err? || epoch.value == 0 || epoch.value > 0xFFFF {
      return Err(REJECTED);
    }
    r := ReadEntries(line.value.1, Window(capacity.value, epoch.value, []));
  }

  method ReadEntries(text: string, empty: Window) returns (r: Result<Window>)
    ensures r == RestoreEntries(text, empty, None)
  {
    var restored, previous, rest := empty, None, text;
    var line := GetLine(rest);
    while line.Some?
      invariant line == GetLine(rest)
      invariant RestoreEntries(rest, restored, previous) == RestoreEntries(text, empty, None)
      decreases |rest|
    {
      hide GetLine, ParseEntry;
      rest := line.value.1;
      if line.value.0 != [] {
        var e := ReadEntry(line.value.0);
        if e.None? {
          return Err(REJECTED);
        }
        var (n, retries, encoded) := e.value;
        if previous.Some? && previous.value >= n {
          return Err(REJECTED);
        }
        if |restored.entries| >= restored.capacity {
          return Err(REJECTED);
        }
        previous := Some(n);
        restored := restored.(entries := restored.entries + [Entry(restored.epoch, n, encoded, retries)]);
      }
      line := GetLine(rest);
    }
    return Ok(restored);
  }

  method ReadEntry(line: string) returns (r: Option<(u32, u8, Bytes)>)
    ensures r == ParseEntry(line)
  {
    var first := Find(line, '|', 0);
    if first == |line| {
      return None;
    }
    var second := Find(line, '|', first + 1);
    if second == |line| {
      return None;
    }
    var third := Find(line, '|', second + 1);
    if third == |line| || line[..first] != "entry" {
      return None;
    }
    var n := ParseU64(line[first + 1..second]);
    var retries := ParseU64(line[second + 1..third]);
    var encoded := ParseHex(line[third + 1..]);
    if n.Err? || retries.Err? || encoded.Err? || n.value > 0xFFFF_FFFF || retries.value > 0xFF || encoded.value == [] {
      return None;
    }
    return Some((n.value, retries.value, encoded.value));
  }

  // ---------------------------------------------------------------- the round trip

  /** The windows a snapshot can carry. */
  predicate Portable(w: Window) {
    && 1 <= w.capacity && 1 <= w.epoch && |w.entries| <= w.capacity && Ascending(w.entries)
    && forall e <- w.entries :: e.encoded != [] && e.epoch == w.epoch
  }

  predicate Plain(s: string) { forall i :: 0 <= i < |s| ==> s[i] != '\n' && s[i] != '|' }

  lemma {:induction false} DigitsPlain(n: nat)
    ensures Plain(Digits(n))
  {
    if n >= 10 { DigitsPlain(n / 10); }
  }

  lemma {:induction false} HexPlain(bs: Bytes)
    ensures Plain(Hex(bs))
  {
    if bs != [] { HexPlain(bs[1..]); }
  }

  lemma Sliced(pre: string, a: string, b: string, s: string)
    requires s == pre + a + "|" + b
    ensures |s| == |pre| + |a| + 1 + |b| && s[|pre| + |a|] == '|'
    ensures s[|pre|..|pre| + |a|] == a && s[|pre| + |a| + 1..] == b
  {
  }

  lemma FindBar(pre: string, a: string, b: string, s: string)
    requires Plain(a) && s == pre + a + "|" + b
    ensures Find(s, '|', |pre|) == |pre| + |a| < |s|
    ensures s[|pre|..|pre| + |a|] == a && s[|pre| + |a| + 1..] == b
  {
    Sliced(pre, a, b, s);
    forall j | |pre| <= j < |pre| + |a|
      ensures s[j] != '|'
    {
      assert s[|pre|..|pre| + |a|][j - |pre|] == a[j - |pre|];
    }
    var i := Find(s, '|', |pre|);
  }

  /** The three bars of a line whose fields hold none. */
  lemma Fields(a: string, b: string, c: string)
    requires Plain(a) && Plain(b)
    ensures var line := "entry|" + a + "|" + b + "|" + c;
            var third := 7 + |a| + |b|;
            && Find(line, '|', 0) == 5
            && Find(line, '|', 6) == 6 + |a|
            && Find(line, '|', 7 + |a|) == third < |line|
            && line[..5] == "entry" && line[6..6 + |a|] == a && line[7 + |a|..third] == b && line[third + 1..] == c
  {
    hide Find;
    var line := "entry|" + a + "|" + b + "|" + c;
    assert line == "" + "entry" + "|" + (a + "|" + b + "|" + c);
    assert Plain("entry");
    FindBar("", "entry", a + "|" + b + "|" + c, line);
    assert line == "entry|" + a + "|" + (b + "|" + c);
    FindBar("entry|", a, b + "|" + c, line);
    FindBar("entry|" + a + "|", b, c, line);
  }

  lemma EntryParses(e: Entry)
    requires e.encoded != []
    ensures ParseEntry(EntryLine(e)) == Some((e.sequence, e.retries, e.encoded))
    ensures '\n' !in EntryLine(e) && EntryLine(e) != []
  {
    hide ParseU64Spec, ParseHexSpec, Digits, Hex, Find;
    DigitsPlain(e.sequence);
    DigitsPlain(e.retries);
    HexPlain(e.encoded);
    Fields(Digits(e.sequence), Digits(e.retries), Hex(e.encoded));
    ParsePrinted(e.sequence);
    ParsePrinted(e.retries);
    ParsePrintedHex(e.encoded);
  }

  lemma {:induction false} EntriesRestore(es: seq<Entry>, w: Window)
    requires Ascending(w.entries + es) && |w.entries + es| <= w.capacity
    requires forall e <- es :: e.encoded != [] && e.epoch == w.epoch
    ensures RestoreEntries(EntryLines(es), w, Latest(w)) == Ok(w.(entries := w.entries + es))
    decreases |es|
  {
    hide ParseEntry, EntryLine, GetLine;
    if es == [] {
      assert w.entries + es == w.entries;
      assert GetLine("") == None by { NoLine(); }
    } else {
      var e, next := es[0], w.(entries := w.entries + [es[0]]);
      assert next.entries + es[1..] == w.entries + es;
      assert e in es;
      forall x | x in es[1..]
        ensures x.encoded != [] && x.epoch == next.epoch
      {
        assert x in es;
      }
      EntryParses(e);
      GetPrinted(EntryLine(e), EntryLines(es[1..]));
      EntriesRestore(es[1..], next);
      if w.entries != [] { NextAbove(w.entries, es); }
    }
  }

  lemma NoLine()
    ensures GetLine("") == None
  {
  }

  lemma NextAbove(a: seq<Entry>, b: seq<Entry>)
    requires Ascending(a + b) && a != [] && b != []
    ensures a[|a| - 1].sequence < b[0].sequence
  {
    assert (a + b)[|a| - 1] == a[|a| - 1] && (a + b)[|a|] == b[0];
  }

  lemma FieldParses(name: string, n: u64)
    ensures ParseField(name + Digits(n), name) == Ok(n)
  {
    hide Digits, ParseU64Spec;
    ParsePrinted(n);
    assert (name + Digits(n))[..|name|] == name && (name + Digits(n))[|name|..] == Digits(n);
  }

  lemma PortableRestores(w: Window)
    requires Portable(w)
    ensures RestoreSpec(SerializeSpec(w)) == Ok(w)
  {
    hide Digits, EntryLines, GetLine, RestoreEntries, ParseField;
    DigitsPlain(w.capacity);
    DigitsPlain(w.epoch);
    var capacity, epoch, lines := CAPACITY + Digits(w.capacity), EPOCH + Digits(w.epoch), EntryLines(w.entries);
    assert '\n' !in HEADER && '\n' !in capacity && '\n' !in epoch;
    GetPrinted(HEADER, capacity + "\n" + (epoch + "\n" + lines));
    GetPrinted(capacity, epoch + "\n" + lines);
    GetPrinted(epoch, lines);
    FieldParses(CAPACITY, w.capacity);
    FieldParses(EPOCH, w.epoch);
    var empty := Window(w.capacity, w.epoch, []);
    assert [] + w.entries == w.entries;
    EntriesRestore(w.entries, empty);
  }

  lemma {:induction false} RestoredPortable(text: string, w: Window)
    requires Portable(w) && RestoreEntries(text, w, Latest(w)).Ok?
    ensures Portable(RestoreEntries(text, w, Latest(w)).value)
    decreases |text|
  {
    hide ParseEntry, GetLine, Portable;
    if GetLine(text).Some? {
      var (line, rest) := GetLine(text).value;
      if line == [] {
        RestoredPortable(rest, w);
      } else {
        var (n, retries, encoded) := ParseEntry(line).value;
        EntryHasBytes(line);
        var e := Entry(w.epoch, n, encoded, retries);
        OneMorePortable(w, e);
        RestoredPortable(rest, w.(entries := w.entries + [e]));
      }
    }
  }

  lemma EntryHasBytes(line: string)
    requires ParseEntry(line).Some?
    ensures ParseEntry(line).value.2 != []
  {
  }

  lemma OneMorePortable(w: Window, e: Entry)
    requires Portable(w) && e.epoch == w.epoch && e.encoded != [] && |w.entries| < w.capacity
    requires Latest(w).Some? ==> Latest(w).value < e.sequence
    ensures Portable(w.(entries := w.entries + [e])) && Latest(w.(entries := w.entries + [e])) == Some(e.sequence)
  {
    var es := w.entries + [e];
    forall i, j | 0 <= i < j < |es|
      ensures es[i].sequence < es[j].sequence
    {
      if j == |es| - 1 && i < j - 1 { assert w.entries[i].sequence < w.entries[j - 1].sequence; }
    }
  }

  /** Whatever text is accepted, the window it gives is one a snapshot can carry. */
  lemma AcceptedIsPortable(text: string)
    requires RestoreSpec(text).Ok?
    ensures Portable(RestoreSpec(text).value)
  {
    hide RestoreEntries, GetLine, ParseField;
    var second := GetLine(GetLine(text).value.1).value;
    var third := GetLine(second.1).value;
    var empty := Window(ParseField(second.0, CAPACITY).value, ParseField(third.0, EPOCH).value, []);
    RestoredPortable(third.1, empty);
  }

  /** A window survives its own snapshot exactly when it is portable. */
  lemma RoundTripIff(w: Window)
    ensures RestoreSpec(SerializeSpec(w)) == Ok(w) <==> Portable(w)
  {
    hide RestoreSpec, SerializeSpec, Portable;
    if Portable(w) {
      PortableRestores(w);
    }
    if RestoreSpec(SerializeSpec(w)) == Ok(w) {
      AcceptedIsPortable(SerializeSpec(w));
    }
  }

  /** Saving an accepted snapshot again reaches a text that restores and saves to itself. */
  lemma SnapshotFixedPoint(text: string)
    requires RestoreSpec(text).Ok?
    ensures var saved := SerializeSpec(RestoreSpec(text).value);
            RestoreSpec(saved) == RestoreSpec(text) && SerializeSpec(RestoreSpec(saved).value) == saved
  {
    hide RestoreSpec, SerializeSpec, Portable;
    AcceptedIsPortable(text);
    PortableRestores(RestoreSpec(text).value);
  }

  /** A snapshot may hold any retry counts: restored from this one, a retry that fails has counted the front up. */
  lemma RetryCanBePartial(encoded: Bytes)
    requires encoded != []
    ensures var w := Window(2, 1, [Entry(1, 1, encoded, 0), Entry(1, 2, encoded, 1)]);
            && Portable(w) && RestoreSpec(SerializeSpec(w)) == Ok(w)
            && RetrySpec(w, 1).1.Err? && RetrySpec(w, 1).0.entries[0].retries == 1
  {
    hide RestoreSpec, SerializeSpec;
    var es := [Entry(1, 1, encoded, 0), Entry(1, 2, encoded, 1)];
    assert es[1..] == [Entry(1, 2, encoded, 1)];
    assert Retried(es[1..], 1) == (es[1..], false);
    PortableRestores(Window(2, 1, es));
  }

  // ---------------------------------------------------------------- a snapshot as its lines

  /** The lines of a text, the last one with or without its line feed. */
  function Lines(text: string): seq<string>
    decreases |text|
  {
    match GetLine(text)
    case None => []
    case Some((line, rest)) => [line] + Lines(rest)
  }

  function NonBlank(lines: seq<string>): seq<string> {
    if lines == [] then [] else (if lines[0] == [] then [] else [lines[0]]) + NonBlank(lines[1..])
  }

  /** The entries of lines none of which is blank: each well-formed, in rising order, and no more than fit. */
  function EntriesOf(lines: seq<string>, w: Window, previous: Option<u32>): Result<Window>
    decreases |lines|
  {
    if lines == [] then Ok(w)
    else
      match ParseEntry(lines[0])
      case None => Err(REJECTED)
      case Some((n, retries, encoded)) =>
        if (previous.Some? && previous.value >= n) || |w.entries| >= w.capacity then Err(REJECTED)
        else EntriesOf(lines[1..], w.(entries := w.entries + [Entry(w.epoch, n, encoded, retries)]), Some(n))
  }

  /** Blank lines among the entries mean nothing. */
  lemma {:induction false} EntriesByLines(text: string, w: Window, previous: Option<u32>)
    ensures RestoreEntries(text, w, previous) == EntriesOf(NonBlank(Lines(text)), w, previous)
    decreases |text|
  {
    hide ParseEntry;
    if GetLine(text).Some? {
      var (line, rest) := GetLine(text).value;
      assert ([line] + Lines(rest))[1..] == Lines(rest);
      if line == [] {
        EntriesByLines(rest, w, previous);
        assert [] + NonBlank(Lines(rest)) == NonBlank(Lines(rest));
      } else {
        assert ([line] + NonBlank(Lines(rest)))[1..] == NonBlank(Lines(rest));
        if ParseEntry(line).Some? {
          var (n, retries, encoded) := ParseEntry(line).value;
          EntriesByLines(rest, w.(entries := w.entries + [Entry(w.epoch, n, encoded, retries)]), Some(n));
        }
      }
    }
  }

  /**
   A snapshot is its header, a capacity from 1, an epoch from 1 to 65535, and lines of which the blank ones mean
   nothing and each other one is an entry; a missing or wrong line among the first three is refused.
   */
  lemma RestoreByLines(text: string)
    ensures var lines := Lines(text);
            RestoreSpec(text)
            == if |lines| < 3 || lines[0] != HEADER then Err(REJECTED)
               else
                 var capacity, epoch := ParseField(lines[1], CAPACITY), ParseField(lines[2], EPOCH);
                 if capacity.Err? || capacity.value == 0 || epoch.Err? || epoch.value == 0 || epoch.value > 0xFFFF then Err(REJECTED)
                 else EntriesOf(NonBlank(lines[3..]), Window(capacity.value, epoch.value, []), None)
  {
    hide ParseField, GetLine, RestoreEntries, EntriesOf, NonBlank, Lines;
    LinesCons(text);
    if GetLine(text).Some? {
      var (first, rest1) := GetLine(text).value;
      LinesCons(rest1);
      if GetLine(rest1).Some? {
        var (second, rest2) := GetLine(rest1).value;
        LinesCons(rest2);
        if GetLine(rest2).Some? {
          var (third, rest3) := GetLine(rest2).value;
          assert Lines(text) == [first, second, third] + Lines(rest3);
          assert Lines(text)[3..] == Lines(rest3);
          if ParseField(second, CAPACITY).Ok? && ParseField(third, EPOCH).Ok? && ParseField(third, EPOCH).value <= 0xFFFF {
            EntriesByLines(rest3, Window(ParseField(second, CAPACITY).value, ParseField(third, EPOCH).value, []), None);
          }
        }
      }
    }
  }

  lemma LinesCons(text: string)
    ensures GetLine(text).None? ==> Lines(text) == []
    ensures GetLine(text).Some? ==> Lines(text) == [GetLine(text).value.0] + Lines(GetLine(text).value.1)
  {
  }

  /** A snapshot as it reads: three lines of head, and a line an entry, with its number, its retries and its bytes. */
  lemma SnapshotReads()
    ensures SerializeSpec(Window(2, 1, [Entry(1, 7, [0xAB, 0x0C], 3)]))
         == "LTXREPLAY/1\ncapacity|2\nepoch|1\nentry|7|3|ab0c\n"
  {
  }
}

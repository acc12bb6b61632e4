/** JavaScript strings as the front end uses them: decimal printing, hexadecimal parsing,
    and the metadata text that travels through the chain as bytes. */
module Text {
  import opened Storage
  import opened Calls
  import opened Runs
  import opened Counters
  import opened Provenance

  /** UTF-16 code units. */
  type CodeUnit = u: nat | u < 0x10000
  type JsString = seq<CodeUnit>

  // ---------- Numbers ----------

  /** `n.toString()` */
  function Decimal(n: nat): JsString {
    if n < 10 then [48 + n] else Decimal(n / 10) + [48 + n % 10]
  }

  /** `Number(s)` of a string of digits. */
  function NumberOf(s: JsString): Option<nat> {
    if s == [] then Some(0)
    else if !(48 <= s[|s| - 1] <= 57) then None
    else match NumberOf(s[..|s| - 1])
      case None => None
      case Some(v) => Some(10 * v + (s[|s| - 1] - 48))
  }

  lemma NumberOfPush(s: JsString, d: nat)
    requires d < 10 && NumberOf(s).Some?
    ensures NumberOf(s + [48 + d]) == Some(10 * NumberOf(s).value + d)
  {
    var longer: JsString := s + [48 + d];
    assert longer[..|s|] == s && longer[|s|] == 48 + d;
  }

  /** Printing and reading a number are inverse. */
  lemma {:induction false} NumberOfDecimal(n: nat)
    ensures NumberOf(Decimal(n)) == Some(n)
  {
    if n < 10 {
      NumberOfPush([], n);
      assert [] + [48 + n] == Decimal(n);
    } else {
      NumberOfDecimal(n / 10);
      NumberOfPush(Decimal(n / 10), n % 10);
    }
  }

  /** `Number(n.toString() + 1)` appends the digit 1 instead of adding one. */
  lemma AppendedOne(n: nat)
    ensures NumberOf(Decimal(n) + [49]) == Some(10 * n + 1)
  {
    NumberOfDecimal(n);
    NumberOfPush(Decimal(n), 1);
  }

  // ---------- Encoding ----------

  predicate HighSurrogate(u: CodeUnit) { 0xD800 <= u < 0xDC00 }
  predicate LowSurrogate(u: CodeUnit) { 0xDC00 <= u < 0xE000 }

  /** `Array.from(s).map(c => c.charCodeAt(0))`: the first unit of every code point. */
  function FirstUnits(s: JsString): JsString {
    if s == [] then []
    else if |s| >= 2 && HighSurrogate(s[0]) && LowSurrogate(s[1]) then [s[0]] + FirstUnits(s[2..])
    else [s[0]] + FirstUnits(s[1..])
  }

  /** Code points, lone surrogates included. */
  type CodePoint = p: nat | p < 0x110000

  /** UTF-16: one unit below 0x10000, and otherwise a unit for the ten high bits and one for the ten low. */
  function UnitsOf(p: CodePoint): JsString {
    if p < 0x10000 then [p]
    else [0xD800 + (p - 0x10000) / 1024, 0xDC00 + (p - 0x10000) % 1024]
  }

  function Utf16(points: seq<CodePoint>): JsString {
    if points == [] then [] else UnitsOf(points[0]) + Utf16(points[1..])
  }

  /** No two neighbours would be read as one code point. */
  predicate Apart(points: seq<CodePoint>) {
    forall x | 0 <= x < |points| - 1 ::
      !(0xD800 <= points[x] <= 0xDBFF && 0xDC00 <= points[x + 1] <= 0xDFFF)
  }

  lemma FirstUnitsOfOne(p: CodePoint, rest: JsString)
    requires 0xD800 <= p <= 0xDBFF && rest != [] ==> !(0xDC00 <= rest[0] <= 0xDFFF)
    ensures FirstUnits(UnitsOf(p) + rest) == [UnitsOf(p)[0]] + FirstUnits(rest)
  {
    var s := UnitsOf(p) + rest;
    if p < 0x10000 {
      assert s[1..] == rest;
    } else {
      assert s[2..] == rest;
    }
  }

  /** The text of a list of code points is sent as one code for each: its first unit. */
  lemma {:induction false} OneCodePerCodePoint(points: seq<CodePoint>)
    requires Apart(points)
    ensures |FirstUnits(Utf16(points))| == |points|
    ensures forall x | 0 <= x < |points| :: FirstUnits(Utf16(points))[x] == UnitsOf(points[x])[0]
  {
    if points != [] {
      var p, rest := points[0], points[1..];
      assert Apart(rest) by {
        forall x | 0 <= x < |rest| - 1 ensures !(0xD800 <= rest[x] <= 0xDBFF && 0xDC00 <= rest[x + 1] <= 0xDFFF) {
          assert rest[x] == points[x + 1] && rest[x + 1] == points[x + 2];
        }
      }
      if rest != [] {
        assert Utf16(rest)[0] == UnitsOf(rest[0])[0] && rest[0] == points[0 + 1];
      }
      FirstUnitsOfOne(p, Utf16(rest));
      OneCodePerCodePoint(rest);
      forall x | 0 <= x < |points| ensures FirstUnits(Utf16(points))[x] == UnitsOf(points[x])[0] {
        if x > 0 {
          assert points[x] == rest[x - 1];
        }
      }
    }
  }

  lemma PutBefore(p: CodePoint, rest: seq<CodePoint>)
    requires Apart(rest)
    requires 0xD800 <= p <= 0xDBFF && rest != [] ==> !(0xDC00 <= rest[0] <= 0xDFFF)
    ensures Apart([p] + rest) && Utf16([p] + rest) == UnitsOf(p) + Utf16(rest)
  {
    var points := [p] + rest;
    assert points[1..] == rest;
    forall x | 0 <= x < |points| - 1
      ensures !(0xD800 <= points[x] <= 0xDBFF && 0xDC00 <= points[x + 1] <= 0xDFFF)
    {
      if x > 0 {
        assert points[x] == rest[x - 1] && points[x + 1] == rest[x - 1 + 1];
      }
    }
  }

  lemma FirstPoint(s: JsString) returns (p: CodePoint, tail: JsString)
    requires s != []
    ensures |tail| < |s| && UnitsOf(p) + tail == s
    ensures 0xD800 <= p <= 0xDBFF && tail != [] ==> !(0xDC00 <= tail[0] <= 0xDFFF)
  {
    var hi: int, lo: int := s[0], if |s| >= 2 then s[1] else 0;
    if 0xD800 <= hi <= 0xDBFF && 0xDC00 <= lo <= 0xDFFF {
      p, tail := 0x10000 + (hi - 0xD800) * 1024 + (lo - 0xDC00), s[2..];
    } else {
      p, tail := hi, s[1..];
    }
  }

  /** Every string is the text of such a list, so the previous result speaks of every string. */
  lemma {:induction false} EveryTextHasCodePoints(s: JsString) returns (points: seq<CodePoint>)
    ensures Apart(points) && Utf16(points) == s
    decreases |s|
  {
    if s == [] {
      points := [];
    } else {
      var p, tail := FirstPoint(s);
      var rest := EveryTextHasCodePoints(tail);
      if rest != [] {
        assert tail[0] == UnitsOf(rest[0])[0];
      }
      hide Apart;
      PutBefore(p, rest);
      points := [p] + rest;
    }
  }

  /** `createType("Vec<u8>", codes)`: refuses a code that does not fit a byte. */
  function Encode(s: JsString): Option<seq<Byte>> {
    var codes := FirstUnits(s);
    if forall u | u in codes :: u < 256 then
      assert forall p | 0 <= p < |codes| :: codes[p] in codes;
      var bytes: seq<Byte> := codes;
      Some(bytes)
    else None
  }

  lemma {:induction false} FirstUnitsOfNarrowText(s: JsString)
    ensures (forall u | u in s :: u < 256) ==> FirstUnits(s) == s
    ensures (forall u | u in FirstUnits(s) :: u < 256) ==> forall u | u in s :: u < 256
  {
    if s != [] {
      if |s| >= 2 && HighSurrogate(s[0]) && LowSurrogate(s[1]) {
        assert s[0] in s && s[0] in FirstUnits(s);
      } else {
        FirstUnitsOfNarrowText(s[1..]);
        assert s == [s[0]] + s[1..];
        assert forall u | u in s[1..] :: u in s;
        assert forall u | u in FirstUnits(s[1..]) :: u in FirstUnits(s);
      }
    }
  }

  /** Exactly the texts whose units all fit a byte are encoded, and as themselves. */
  lemma EncodeIsNarrow(s: JsString)
    ensures Encode(s).Some? <==> forall u | u in s :: u < 256
    ensures Encode(s).Some? ==> Encode(s).value == s
  {
    FirstUnitsOfNarrowText(s);
  }

  // ---------- Rendering and decoding ----------

  function HexDigit(d: nat): CodeUnit
    requires d < 16
  {
    if d < 10 then 48 + d else 87 + d
  }

  function HexPairs(bytes: seq<Byte>): JsString {
    if bytes == [] then []
    else [HexDigit(bytes[0] / 16), HexDigit(bytes[0] % 16)] + HexPairs(bytes[1..])
  }

  /** How polkadot.js prints stored bytes: `0x` and two digits a byte. */
  function Render(bytes: seq<Byte>): JsString {
    [48, 120] + HexPairs(bytes)
  }

  predicate LineTerminator(u: CodeUnit) {
    u == 10 || u == 13 || u == 0x2028 || u == 0x2029
  }

  predicate WhiteSpace(u: CodeUnit) {
    || 9 <= u <= 13 || u == 32 || u == 0xA0 || u == 0x1680 || 0x2000 <= u <= 0x200A
    || u == 0x2028 || u == 0x2029 || u == 0x202F || u == 0x205F || u == 0x3000 || u == 0xFEFF
  }

  /** `s.replace(/^0x/, "")` */
  function StripPrefix(s: JsString): JsString {
    if |s| >= 2 && s[0] == 48 && s[1] == 120 then s[2..] else s
  }

  /** `s.match(/.{1,2}/g)`, with no match read as the empty list. */
  function Chunks(s: JsString): seq<JsString> {
    if s == [] then []
    else if LineTerminator(s[0]) then Chunks(s[1..])
    else if |s| >= 2 && !LineTerminator(s[1]) then [s[..2]] + Chunks(s[2..])
    else [s[..1]] + Chunks(s[1..])
  }

  function HexValue(u: CodeUnit): Option<nat> {
    if 48 <= u <= 57 then Some(u - 48)
    else if 97 <= u <= 102 then Some(u - 87)
    else if 65 <= u <= 70 then Some(u - 55)
    else None
  }

  function TrimStart(s: JsString): JsString {
    if s != [] && WhiteSpace(s[0]) then TrimStart(s[1..]) else s
  }

  /** The value of the longest prefix of hexadecimal digits after `acc`. */
  function HexPrefix(s: JsString, acc: nat): nat {
    if s == [] || HexValue(s[0]).None? then acc
    else HexPrefix(s[1..], 16 * acc + HexValue(s[0]).value)
  }

  /** `parseInt(s, 16)`; `None` is `NaN`. */
  function ParseInt16(s: JsString): Option<int> {
    var t := TrimStart(s);
    var negative := t != [] && t[0] == 45;
    var unsigned := if t != [] && (t[0] == 45 || t[0] == 43) then t[1..] else t;
    var digits := if |unsigned| >= 2 && unsigned[0] == 48 && (unsigned[1] == 120 || unsigned[1] == 88)
                  then unsigned[2..] else unsigned;
    if digits == [] || HexValue(digits[0]).None? then None
    else
      var value: int := HexPrefix(digits, 0);
      Some(if negative then -value else value)
  }

  /** `String.fromCharCode` of one number. */
  function FromCharCode(v: Option<int>): CodeUnit {
    if v.None? then 0 else v.value % 0x10000
  }

  /** `.map(parseInt).filter(byte => byte !== 0)` and the string built from what is left. */
  function DecodeChunks(chunks: seq<JsString>): JsString {
    if chunks == [] then []
    else
      var v := ParseInt16(chunks[0]);
      (if v == Some(0) then [] else [FromCharCode(v)]) + DecodeChunks(chunks[1..])
  }

  function DecodeMetadata(s: JsString): JsString {
    DecodeChunks(Chunks(StripPrefix(s)))
  }

  function WithoutZeros(bytes: seq<Byte>): seq<Byte> {
    if bytes == [] then []
    else (if bytes[0] == 0 then [] else [bytes[0]]) + WithoutZeros(bytes[1..])
  }

  lemma ParseRenderedByte(b: Byte)
    ensures ParseInt16([HexDigit(b / 16), HexDigit(b % 16)]) == Some(b)
  {
    var hi, lo := HexDigit(b / 16), HexDigit(b % 16);
    var s: JsString := [hi, lo];
    assert HexValue(hi) == Some(b / 16) && HexValue(lo) == Some(b % 16);
    assert TrimStart(s) == s;
    assert s[1..] == [lo] && s[1..][1..] == [];
    assert HexPrefix([lo], b / 16) == HexPrefix([lo][1..], 16 * (b / 16) + b % 16);
  }

  lemma ChunksOfPair(hi: CodeUnit, lo: CodeUnit, rest: JsString)
    requires !LineTerminator(hi) && !LineTerminator(lo)
    ensures Chunks([hi, lo] + rest) == [[hi, lo]] + Chunks(rest)
  {
    var pair: JsString := [hi, lo];
    assert (pair + rest)[..2] == pair && (pair + rest)[2..] == rest;
  }

  lemma DecodeFirstChunk(chunk: JsString, rest: seq<JsString>)
    ensures DecodeChunks([chunk] + rest)
         == (if ParseInt16(chunk) == Some(0) then [] else [FromCharCode(ParseInt16(chunk))]) + DecodeChunks(rest)
  {
    assert ([chunk] + rest)[1..] == rest;
  }

  lemma {:induction false} ChunksOfHexPairs(bytes: seq<Byte>)
    ensures DecodeChunks(Chunks(HexPairs(bytes))) == WithoutZeros(bytes)
  {
    if bytes != [] {
      var hi, lo := HexDigit(bytes[0] / 16), HexDigit(bytes[0] % 16);
      ChunksOfPair(hi, lo, HexPairs(bytes[1..]));
      ParseRenderedByte(bytes[0]);
      ChunksOfHexPairs(bytes[1..]);
      DecodeFirstChunk([hi, lo], Chunks(HexPairs(bytes[1..])));
      hide Chunks;
      hide DecodeChunks;
      hide ParseInt16;
      assert HexPairs(bytes) == [hi, lo] + HexPairs(bytes[1..]);
    }
  }

  /** Whatever bytes are stored, decoding their rendering gives the bytes with the zeros removed. */
  lemma DecodeDropsZeros(bytes: seq<Byte>)
    ensures DecodeMetadata(Render(bytes)) == WithoutZeros(bytes)
  {
    assert Render(bytes)[2..] == HexPairs(bytes);
    ChunksOfHexPairs(bytes);
  }

  // ---------- Decoding any other string ----------

  type Nibble = d: nat | d < 16

  /** `u` is a hexadecimal digit of value `d`, in either case. */
  predicate Digit(u: CodeUnit, d: Nibble) {
    if d < 10 then u == 48 + d else u == 87 + d || u == 55 + d
  }

  predicate Reads(s: JsString, digits: seq<Nibble>) {
    |s| == |digits| && forall p | 0 <= p < |s| :: Digit(s[p], digits[p])
  }

  predicate NoDigit(u: CodeUnit) {
    !(48 <= u <= 57) && !(65 <= u <= 70) && !(97 <= u <= 102)
  }

  predicate OneLine(s: JsString) {
    forall p | 0 <= p < |s| :: s[p] != 10 && s[p] != 13 && s[p] != 0x2028 && s[p] != 0x2029
  }

  lemma ChunksOfOne(u: CodeUnit, rest: JsString)
    requires !LineTerminator(u) && (rest == [] || LineTerminator(rest[0]))
    ensures Chunks([u] + rest) == [[u]] + Chunks(rest)
  {
    assert ([u] + rest)[..1] == [u] && ([u] + rest)[1..] == rest;
  }

  lemma FirstPair(s: JsString)
    requires OneLine(s) && |s| >= 2
    ensures OneLine(s[2..]) && Chunks(s) == [s[..2]] + Chunks(s[2..])
  {
  }

  /** A line is cut into pairs, with a single unit at the end when its length is odd. */
  lemma {:induction false} ChunksOfALine(s: JsString, p: nat)
    requires OneLine(s)
    ensures |Chunks(s)| == (|s| + 1) / 2
    ensures 2 * p + 2 <= |s| ==> Chunks(s)[p] == s[2 * p..2 * p + 2]
    ensures 2 * p + 1 == |s| ==> Chunks(s)[p] == s[2 * p..]
  {
    if |s| == 1 {
      ChunksOfOne(s[0], []);
      assert s == [s[0]] + [];
    } else if |s| >= 2 {
      var rest := s[2..];
      FirstPair(s);
      ChunksOfALine(rest, if p > 0 then p - 1 else 0);
      hide Chunks;
      hide OneLine;
      if 0 < p && 2 * p + 2 <= |s| {
        assert s[2 * p..2 * p + 2] == rest[2 * p - 2..2 * p];
      } else if 0 < p && 2 * p + 1 == |s| {
        assert s[2 * p..] == rest[2 * p - 2..];
      }
    }
  }

  /** Line terminators are dropped, and each line is cut by itself. */
  lemma ChunksOfLines(line: JsString, t: CodeUnit, rest: JsString)
    requires OneLine(line) && (t == 10 || t == 13 || t == 0x2028 || t == 0x2029)
    ensures Chunks(line + ([t] + rest)) == Chunks(line) + Chunks(rest)
  {
    LineEnds(line, [t] + rest);
    TerminatorDropped(t, rest);
  }

  lemma {:induction false} LineEnds(line: JsString, tail: JsString)
    requires OneLine(line) && tail != [] && LineTerminator(tail[0])
    ensures Chunks(line + tail) == Chunks(line) + Chunks(tail)
  {
    if line == [] {
      assert line + tail == tail;
    } else if |line| == 1 {
      LastUnit(line, tail);
    } else {
      FirstPair(line);
      LineEnds(line[2..], tail);
      FirstPairThenTheRest(line, tail);
    }
  }

  lemma FirstPairThenTheRest(line: JsString, tail: JsString)
    requires OneLine(line) && |line| >= 2
    requires Chunks(line[2..] + tail) == Chunks(line[2..]) + Chunks(tail)
    ensures Chunks(line + tail) == Chunks(line) + Chunks(tail)
  {
    FirstPair(line);
    FirstPairBefore(line, tail);
    Associative([line[..2]], Chunks(line[2..]), Chunks(tail));
    hide *;
  }

  lemma Associative<T>(a: seq<T>, b: seq<T>, c: seq<T>)
    ensures a + (b + c) == (a + b) + c
  {
  }

  lemma LastUnit(line: JsString, tail: JsString)
    requires |line| == 1 && OneLine(line) && tail != [] && LineTerminator(tail[0])
    ensures Chunks(line + tail) == Chunks(line) + Chunks(tail)
  {
    ChunksOfOne(line[0], []);
    ChunksOfOne(line[0], tail);
    assert line == [line[0]];
    assert [line[0]] + [] == line;
  }

  lemma FirstPairBefore(line: JsString, tail: JsString)
    requires OneLine(line) && |line| >= 2
    ensures Chunks(line + tail) == [line[..2]] + Chunks(line[2..] + tail)
  {
    var s := line + tail;
    assert s[0] == line[0] && s[1] == line[1];
    assert s[..2] == line[..2] && s[2..] == line[2..] + tail;
  }

  lemma TerminatorDropped(t: CodeUnit, rest: JsString)
    requires LineTerminator(t)
    ensures Chunks([t] + rest) == Chunks(rest)
  {
    assert ([t] + rest)[1..] == rest;
  }

  /** Two digits give their number, and one digit alone its own; other units after it do not matter,
      except that `0x` is a prefix with nothing behind it. */
  lemma ParseDigits(u: CodeUnit, a: Nibble, v: CodeUnit)
    requires Digit(u, a)
    ensures ParseInt16([u]) == Some(a)
    ensures forall b | Digit(v, b) :: ParseInt16([u, v]) == Some(16 * a + b)
    ensures NoDigit(v) ==> ParseInt16([u, v]) == if u == 48 && v in {88, 120} then None else Some(a)
  {
    var s: JsString := [u, v];
    assert s[1..] == [v] && s[2..] == [] && [u][1..] == [] && [v][1..] == [];
    assert HexValue(u) == Some(a);
    assert TrimStart(s) == s && TrimStart([u]) == [u];
    assert HexPrefix([u], 0) == HexPrefix([u][1..], a);
    assert HexPrefix(s, 0) == HexPrefix([v], a);
    assert HexValue(v).Some? ==> HexPrefix([v], a) == HexPrefix([v][1..], 16 * a + HexValue(v).value);
  }

  /** White space and a sign before a digit are read as such. */
  lemma ParseAfterSign(u: CodeUnit, v: CodeUnit, b: Nibble)
    requires Digit(v, b)
    ensures WhiteSpace(u) || u == 43 ==> ParseInt16([u, v]) == Some(b)
    ensures u == 45 ==> ParseInt16([u, v]).Some? && ParseInt16([u, v]).value + b == 0
  {
    var s: JsString := [u, v];
    assert s[1..] == [v] && [v][1..] == [];
    assert HexValue(v) == Some(b);
    assert TrimStart([v]) == [v];
    assert TrimStart(s) == if WhiteSpace(u) then [v] else s;
    assert HexPrefix([v], 0) == HexPrefix([v][1..], b);
  }

  /** Nothing else is a number. */
  lemma ParseNothing(u: CodeUnit, v: CodeUnit)
    requires NoDigit(u)
    ensures ParseInt16([u]) == None
    ensures NoDigit(v) || !(WhiteSpace(u) || u == 43 || u == 45) ==> ParseInt16([u, v]) == None
  {
    var s: JsString := [u, v];
    assert s[1..] == [v] && [v][1..] == [] && [u][1..] == [];
    assert TrimStart([u]) == if WhiteSpace(u) then [] else [u];
    assert TrimStart([v]) == if WhiteSpace(v) then [] else [v];
    assert TrimStart(s) == if WhiteSpace(u) then TrimStart([v]) else s;
  }

  function Pair(a: Nibble, b: Nibble): Byte {
    16 * a as int + b
  }

  /** The bytes written by digits two by two; a last digit alone is one of its own. */
  function Packed(digits: seq<Nibble>): seq<Byte> {
    if digits == [] then []
    else if |digits| == 1 then [digits[0]]
    else [Pair(digits[0], digits[1])] + Packed(digits[2..])
  }

  /** A string of digits of either case, of even or odd length, with or without `0x`, decodes to the
      packed values without the zeros. */
  lemma DecodeReadsDigits(s: JsString, digits: seq<Nibble>)
    requires Reads(s, digits)
    ensures DecodeMetadata(s) == WithoutZeros(Packed(digits))
    ensures DecodeMetadata([48, 120] + s) == WithoutZeros(Packed(digits))
  {
    assert ([48, 120] + s)[2..] == s;
    assert StripPrefix(s) == s;
    DecodeDigitChunks(s, digits);
  }

  function Kept(b: Byte): seq<Byte> {
    if b == 0 then [] else [b]
  }

  lemma WithoutZerosFirst(b: Byte, rest: seq<Byte>)
    ensures WithoutZeros([b] + rest) == Kept(b) + WithoutZeros(rest)
  {
    assert ([b] + rest)[1..] == rest;
  }

  lemma DecodePair(hi: CodeUnit, lo: CodeUnit, a: Nibble, b: Nibble, rest: JsString)
    requires Digit(hi, a) && Digit(lo, b)
    ensures DecodeChunks(Chunks([hi, lo] + rest)) == Kept(Pair(a, b)) + DecodeChunks(Chunks(rest))
  {
    ParseDigits(hi, a, lo);
    ChunksOfPair(hi, lo, rest);
    DecodeFirstChunk([hi, lo], Chunks(rest));
    hide Chunks;
    hide DecodeChunks;
    hide ParseInt16;
  }

  lemma ReadsPair(s: JsString, digits: seq<Nibble>)
    requires Reads(s, digits) && |s| >= 2
    ensures Reads(s[2..], digits[2..]) && Digit(s[0], digits[0]) && Digit(s[1], digits[1])
  {
  }

  lemma DecodeFirstTwo(s: JsString, digits: seq<Nibble>)
    requires Reads(s, digits) && |s| >= 2
    requires DecodeChunks(Chunks(s[2..])) == WithoutZeros(Packed(digits[2..]))
    ensures DecodeChunks(Chunks(s)) == WithoutZeros(Packed(digits))
  {
    ReadsPair(s, digits);
    assert |digits| >= 2 by { assert |digits| == |s|; }
    hide *;
    var hi, lo, rest := s[0], s[1], s[2..];
    assert s == [hi, lo] + rest;
    DecodePair(hi, lo, digits[0], digits[1], rest);
    PackedPair(digits);
  }

  lemma {:induction false} DecodeDigitChunks(s: JsString, digits: seq<Nibble>)
    requires Reads(s, digits)
    ensures DecodeChunks(Chunks(s)) == WithoutZeros(Packed(digits))
  {
    if |s| == 1 {
      assert Digit(s[0], digits[0]);
      assert s == [s[0]] && digits == [digits[0]];
      DecodeLastDigit(s[0], digits[0]);
    } else if |s| >= 2 {
      ReadsPair(s, digits);
      DecodeDigitChunks(s[2..], digits[2..]);
      DecodeFirstTwo(s, digits);
    }
  }

  lemma DecodeLastDigit(u: CodeUnit, d: Nibble)
    requires Digit(u, d)
    ensures DecodeChunks(Chunks([u])) == WithoutZeros(Packed([d]))
  {
    ParseDigits(u, d, 0);
    ChunksOfOne(u, []);
    assert [u] + [] == [u] && [d][1..] == [];
    DecodeFirstChunk([u], []);
    assert [[u]] + [] == [[u]];
    hide ParseInt16;
  }

  lemma PackedPair(digits: seq<Nibble>)
    requires |digits| >= 2
    ensures WithoutZeros(Packed(digits)) == Kept(Pair(digits[0], digits[1])) + WithoutZeros(Packed(digits[2..]))
  {
    WithoutZerosFirst(Packed(digits)[0], Packed(digits[2..]));
  }

  /** A chunk that is no number becomes the zero character, which the filter does not see, and a
      negative number wraps. */
  lemma DecodeOddChunk(chunk: JsString, rest: seq<JsString>)
    ensures ParseInt16(chunk) == None ==> DecodeChunks([chunk] + rest) == [0] + DecodeChunks(rest)
    ensures ParseInt16(chunk).Some? && -16 < ParseInt16(chunk).value < 0 ==>
      DecodeChunks([chunk] + rest) == [0x10000 + ParseInt16(chunk).value] + DecodeChunks(rest)
  {
    DecodeFirstChunk(chunk, rest);
  }

  lemma {:induction false} WithoutZerosIsIdentity(bytes: seq<Byte>)
    ensures |WithoutZeros(bytes)| <= |bytes|
    ensures WithoutZeros(bytes) == bytes <==> 0 !in bytes
  {
    if bytes != [] {
      WithoutZerosIsIdentity(bytes[1..]);
      assert bytes == [bytes[0]] + bytes[1..];
    }
  }

  /** The round trip of a text that could be encoded is exact: it comes back unchanged if and only
      if it holds no zero unit. */
  lemma TextRoundTrip(text: JsString)
    requires Encode(text).Some?
    ensures DecodeMetadata(Render(Encode(text).value)) == text <==> 0 !in text
  {
    EncodeIsNarrow(text);
    DecodeDropsZeros(Encode(text).value);
    WithoutZerosIsIdentity(Encode(text).value);
  }

  /** The other thing a library could do with codes that do not fit: keep the low byte. */
  function EncodeWrapping(s: JsString): seq<Byte> {
    var codes := FirstUnits(s);
    seq(|codes|, p requires 0 <= p < |codes| => codes[p] % 256)
  }

  /** Such a library stores one byte for each code point: what is left of its code after removing
      multiples of 256. */
  lemma OneBytePerCodePoint(points: seq<CodePoint>)
    requires Apart(points)
    ensures |EncodeWrapping(Utf16(points))| == |points|
    ensures forall x | 0 <= x < |points| ::
      exists m: nat :: UnitsOf(points[x])[0] == 256 * m + EncodeWrapping(Utf16(points))[x]
  {
    OneCodePerCodePoint(points);
    forall x | 0 <= x < |points|
      ensures exists m: nat :: UnitsOf(points[x])[0] == 256 * m + EncodeWrapping(Utf16(points))[x]
    {
      var code: nat := UnitsOf(points[x])[0];
      assert code == 256 * (code / 256) + EncodeWrapping(Utf16(points))[x];
    }
  }

  lemma {:induction false} WithoutZerosInside(bytes: seq<Byte>)
    ensures forall b | b in WithoutZeros(bytes) :: b in bytes && b != 0
  {
    if bytes != [] {
      WithoutZerosInside(bytes[1..]);
      assert bytes == [bytes[0]] + bytes[1..];
    }
  }

  lemma NarrowTextIsNotWrapped(text: JsString)
    requires forall u | u in text :: u < 256
    ensures EncodeWrapping(text) == text
  {
    FirstUnitsOfNarrowText(text);
    assert forall p | 0 <= p < |text| :: text[p] in text;
  }

  /** Whether wide codes are refused or wrapped, the texts that come back unchanged are the same:
      exactly those whose units are all from 1 to 255. */
  lemma WrappedTextRoundTrip(text: JsString)
    ensures DecodeMetadata(Render(EncodeWrapping(text))) == text <==> forall u | u in text :: 0 < u < 256
  {
    hide EncodeWrapping;
    var bytes := EncodeWrapping(text);
    DecodeDropsZeros(bytes);
    WithoutZerosIsIdentity(bytes);
    WithoutZerosInside(bytes);
    hide DecodeMetadata;
    hide WithoutZeros;
    if forall u | u in text :: 0 < u < 256 {
      NarrowTextIsNotWrapped(text);
    }
  }

  /** A library that refuses wide codes sends, when it sends, what one that wraps them would. */
  lemma EncodeAgreesWithWrapping(text: JsString)
    requires Encode(text).Some?
    ensures Encode(text).value == EncodeWrapping(text)
  {
    EncodeIsNarrow(text);
    NarrowTextIsNotWrapped(text);
  }

  /** Across the layers: a text sent with `create_nft` in request `j` is what decoding shows after any
      further calls, while the NFT exists and is not created again, if and only if all its units are from
      1 to 255. Below the last id the NFT is never created again. */
  lemma TextSurvivesTheChain(r: Run, j: nat, n: nat, k: Key, text: JsString)
    requires r.Valid() && j < n <= |r.requests| && r.Creates(j, k)
    requires r.CallAt(j).metadata == EncodeWrapping(text)
    requires k in r.At(n).nfts
    requires k.i < U32_MAX || forall l | j < l < n :: !r.Creates(l, k)
    ensures DecodeMetadata(Render(r.At(n).nfts[k].metadata)) == text <==> forall u | u in text :: 0 < u < 256
    ensures (forall u | u in text :: u < 256) ==> |text| <= 256
  {
    hide Step;
    hide Succeeds;
    hide DecodeMetadata;
    hide Render;
    hide EncodeWrapping;
    forall l | j < l < n ensures !r.Creates(l, k) {
      if k.i < U32_MAX {
        StepCounters(r.cfg, r.At(j), r.requests[j]);
        IssuedItemNotCreated(r, j + 1, l, k);
      }
    }
    CreatorStays(r, j + 1, n, k);
    EveryRowHasACreator(r, n, k);
    RunWellFormed(r, n);
    WrappedTextRoundTrip(text);
    if forall u | u in text :: u < 256 {
      NarrowTextIsNotWrapped(text);
    }
  }
}

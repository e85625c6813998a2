/** The chunked transfer coding in which the synthetic upstream writes a response body, read
    back as section 7.1 of RFC 9112 prescribes. */
module ChunkedCoding {
  import opened Common

  type Byte = b: int | 0 <= b < 256

  const CRLF: seq<Byte> := [13, 10]

  const ChunkSize := 16384

  const TextPartSize := 4096

  // ---------------------------------------------------------------- cutting into parts

  function Flatten<T>(parts: seq<seq<T>>): seq<T> {
    if parts == [] then [] else parts[0] + Flatten(parts[1..])
  }

  function Parts<T>(s: seq<T>, size: nat): seq<seq<T>>
    requires size > 0
  {
    if s == [] then []
    else if |s| <= size then [s]
    else [s[..size]] + Parts(s[size..], size)
  }

  lemma {:induction false} PartsCount<T>(s: seq<T>, size: nat)
    requires size > 0 && s != []
    ensures (|Parts(s, size)| - 1) * size < |s| <= |Parts(s, size)| * size
    decreases |s|
  {
    if |s| > size {
      PartsCount(s[size..], size);
      OneMore(|Parts(s[size..], size)|, size);
    }
  }

  lemma OneMore(n: nat, size: nat)
    ensures (n + 1) * size == n * size + size && n * size == (n - 1) * size + size
  {
  }

  /** The parts put together are the whole, none is empty, and only the last may be short. */
  lemma {:induction false} PartsAreTheWhole<T>(s: seq<T>, size: nat)
    requires size > 0
    ensures var p := Parts(s, size);
      && Flatten(p) == s
      && (forall i | 0 <= i < |p| :: 0 < |p[i]| <= size && (i < |p| - 1 ==> |p[i]| == size))
      && (s != [] ==> (|p| - 1) * size < |s| <= |p| * size)
    decreases |s|
  {
    if s != [] {
      PartsCount(s, size);
    }
    if |s| > size {
      PartsAreTheWhole(s[size..], size);
    } else if s != [] {
      assert Flatten([s]) == s + Flatten([]);
    }
  }

  lemma PartsStep<T>(s: seq<T>, size: nat, offset: nat)
    requires size > 0 && offset < |s|
    ensures var end := if offset + size < |s| then offset + size else |s|;
      Parts(s[offset..], size) == [s[offset..end]] + Parts(s[end..], size)
  {
    var t := s[offset..];
    if offset + size < |s| {
      assert t[..size] == s[offset..offset + size] && t[size..] == s[offset + size..];
    } else {
      assert t == s[offset..|s|] && Parts(s[|s|..], size) == [];
    }
  }

  /** A step of zero is an error to `range`, and a negative one yields nothing. */
  method TextParts(text: string, size: int := TextPartSize) returns (r: Result<seq<string>, string>)
    ensures r.Failure? <==> size == 0
    ensures size < 0 ==> r == Success([])
    ensures size > 0 ==> r == Success(Parts(text, size)) && Flatten(r.value) == text
  {
    if size == 0 {
      return Failure("range() arg 3 must not be zero");
    }
    var parts: seq<string> := [];
    if size > 0 {
      var offset := 0;
      while offset < |text|
        invariant 0 <= offset <= |text|
        invariant Parts(text, size) == parts + Parts(text[offset..], size)
        decreases |text| - offset
      {
        PartsStep(text, size, offset);
        var end := if offset + size < |text| then offset + size else |text|;
        assert parts + Parts(text[offset..], size) == parts + [text[offset..end]] + Parts(text[end..], size);
        parts := parts + [text[offset..end]];
        offset := end;
      }
      assert text[offset..] == [] && parts == Parts(text, size);
      PartsAreTheWhole(text, size);
    }
    return Success(parts);
  }

  // ---------------------------------------------------------------- sizes

  function HexDigit(d: nat): Byte
    requires d < 16
  {
    if d < 10 then 48 + d else 87 + d
  }

  /** Lower-case hexadecimal without leading zeros. */
  function Hex(n: nat): seq<Byte> {
    if n < 16 then [HexDigit(n)] else Hex(n / 16) + [HexDigit(n % 16)]
  }

  /** HEXDIG in either case. */
  function DigitValue(b: Byte): (v: int)
    ensures -1 <= v < 16
  {
    if 48 <= b <= 57 then b - 48
    else if 97 <= b <= 102 then b - 87
    else if 65 <= b <= 70 then b - 55
    else -1
  }

  predicate IsHex(s: seq<Byte>) {
    forall b | b in s :: DigitValue(b) >= 0
  }

  function HexValue(s: seq<Byte>): nat
    requires IsHex(s)
  {
    if s == [] then 0 else 16 * HexValue(s[..|s| - 1]) + DigitValue(s[|s| - 1])
  }

  lemma {:induction false} HexRoundTrip(n: nat)
    ensures Hex(n) != [] && IsHex(Hex(n)) && HexValue(Hex(n)) == n
  {
    var s := Hex(n);
    if n >= 16 {
      HexRoundTrip(n / 16);
      assert s[..|s| - 1] == Hex(n / 16);
    } else {
      assert HexValue(s) == 16 * HexValue(s[..0]) + DigitValue(s[0]);
    }
  }

  // ---------------------------------------------------------------- writing

  function Chunk(data: seq<Byte>): seq<Byte> {
    Hex(|data|) + CRLF + data + CRLF
  }

  function WriteAll(chunks: seq<seq<Byte>>): seq<Byte> {
    if chunks == [] then [48] + CRLF + CRLF else Chunk(chunks[0]) + WriteAll(chunks[1..])
  }

  function Encode(body: seq<Byte>): seq<Byte> {
    WriteAll(Parts(body, ChunkSize))
  }

  lemma Associative(a: seq<Byte>, b: seq<Byte>, c: seq<Byte>)
    ensures (a + b) + c == a + (b + c)
  {
  }

  lemma WriteStep(body: seq<Byte>, offset: nat)
    requires offset < |body|
    ensures var end := if offset + ChunkSize < |body| then offset + ChunkSize else |body|;
      WriteAll(Parts(body[offset..], ChunkSize)) == Chunk(body[offset..end]) + WriteAll(Parts(body[end..], ChunkSize))
  {
    PartsStep(body, ChunkSize, offset);
    var end := if offset + ChunkSize < |body| then offset + ChunkSize else |body|;
    assert Parts(body[offset..], ChunkSize)[1..] == Parts(body[end..], ChunkSize);
  }

  /** Writes chunk by chunk and closes with the empty one. */
  method WriteBody(body: seq<Byte>) returns (wire: seq<Byte>)
    ensures wire == Encode(body)
  {
    wire := [];
    var offset := 0;
    while offset < |body|
      invariant 0 <= offset <= |body|
      invariant wire + WriteAll(Parts(body[offset..], ChunkSize)) == Encode(body)
      decreases |body| - offset
    {
      WriteStep(body, offset);
      var end := if offset + ChunkSize < |body| then offset + ChunkSize else |body|;
      var chunk := body[offset..end];
      ghost var written := wire;
      wire := wire + (Hex(|chunk|) + CRLF);
      wire := wire + chunk;
      wire := wire + CRLF;
      assert wire == written + Chunk(chunk);
      Associative(written, Chunk(chunk), WriteAll(Parts(body[end..], ChunkSize)));
      offset := end;
    }
    wire := wire + ([48] + CRLF + CRLF);
  }

  // ---------------------------------------------------------------- reading

  /** Where the first CRLF stands. */
  function LineEnd(s: seq<Byte>): (r: Option<nat>)
    ensures r.Some? ==> r.value + 2 <= |s| && s[r.value..r.value + 2] == CRLF
    decreases |s|
  {
    if |s| < 2 then None
    else if s[..2] == CRLF then Some(0)
    else match LineEnd(s[1..])
      case None => None
      case Some(e) =>
        assert s[e + 1..e + 3] == s[1..][e..e + 2];
        Some(e + 1)
  }

  /** The number of leading hexadecimal digits. */
  function Digits(line: seq<Byte>): (n: nat)
    ensures n <= |line| && IsHex(line[..n]) && (n < |line| ==> DigitValue(line[n]) < 0)
  {
    if line == [] || DigitValue(line[0]) < 0 then 0
    else
      var n := Digits(line[1..]);
      assert line[..n + 1] == [line[0]] + line[1..][..n];
      n + 1
  }

  /** Extensions start with a semicolon, possibly after blanks. */
  predicate Extension(s: seq<Byte>) {
    s != [] && (s[0] == 59 || ((s[0] == 32 || s[0] == 9) && Extension(s[1..])))
  }

  /** A size of at least one digit; extensions are ignored. */
  function SizeOf(line: seq<Byte>): Option<nat> {
    var n := Digits(line);
    if n > 0 && (n == |line| || Extension(line[n..])) then Some(HexValue(line[..n])) else None
  }

  /** What follows the trailer section: field lines, and an empty line. */
  function AfterTrailers(s: seq<Byte>): Option<seq<Byte>>
    decreases |s|
  {
    match LineEnd(s)
    case None => None
    case Some(e) =>
      if e == 0 then Some(s[2..])
      else if 58 in s[..e] then AfterTrailers(s[e + 2..])
      else None
  }

  /** The size on the first line, and what follows the line. */
  function Head(s: seq<Byte>): (r: Option<(nat, seq<Byte>)>)
    ensures r.Some? ==> |r.value.1| < |s|
  {
    match LineEnd(s)
    case None => None
    case Some(e) =>
      match SizeOf(s[..e])
      case None => None
      case Some(n) => Some((n, s[e + 2..]))
  }

  /** The first `n` bytes, which a CRLF must follow, and what follows that. */
  function Data(t: seq<Byte>, n: nat): (r: Option<(seq<Byte>, seq<Byte>)>)
    ensures r.Some? ==> |r.value.1| < |t|
  {
    if |t| >= n + 2 && t[n..n + 2] == CRLF then Some((t[..n], t[n + 2..])) else None
  }

  /** The body at the front of `s` and what follows it; nothing for a malformed or
      incomplete message. */
  function Decode(s: seq<Byte>): Option<(seq<Byte>, seq<Byte>)>
    decreases |s|
  {
    match Head(s)
    case None => None
    case Some((n, t)) =>
      if n == 0 then
        match AfterTrailers(t)
        case None => None
        case Some(rest) => Some(([], rest))
      else
        match Data(t, n)
        case None => None
        case Some((data, more)) =>
          match Decode(more)
          case None => None
          case Some((body, rest)) => Some((data + body, rest))
  }

  // ---------------------------------------------------------------- the grammar that is read

  /** Ten decimal digits, and six letters in both cases. */
  lemma DigitsExactly(b: Byte, v: nat)
    ensures DigitValue(b) == v <==>
      (v < 10 && b == 48 + v) || (10 <= v < 16 && (b == 65 + (v - 10) || b == 97 + (v - 10)))
  {
  }

  ghost predicate Blanks(s: seq<Byte>) {
    forall i | 0 <= i < |s| :: s[i] == 32 || s[i] == 9
  }

  /** Blanks, a semicolon, and anything. */
  ghost predicate IsExtension(s: seq<Byte>) {
    exists blanks: seq<Byte>, tail: seq<Byte> :: s == blanks + [59] + tail && Blanks(blanks)
  }

  lemma ExtensionStarts(s: seq<Byte>)
    requires IsExtension(s)
    ensures s != [] && s[0] in [59, 32, 9]
  {
    var blanks: seq<Byte>, tail: seq<Byte> :| s == blanks + [59] + tail && Blanks(blanks);
    if blanks == [] {
      assert s[0] == 59;
    } else {
      assert s[0] == blanks[0];
    }
  }

  lemma {:induction false} ExtensionHas(s: seq<Byte>)
    requires Extension(s)
    ensures IsExtension(s)
  {
    if s[0] == 59 {
      assert s == [] + [59] + s[1..];
    } else {
      ExtensionHas(s[1..]);
      var blanks: seq<Byte>, tail: seq<Byte> :| s[1..] == blanks + [59] + tail && Blanks(blanks);
      assert s == ([s[0]] + blanks) + [59] + tail && Blanks([s[0]] + blanks);
    }
  }

  lemma {:induction false} ExtensionOf(blanks: seq<Byte>, tail: seq<Byte>)
    requires Blanks(blanks)
    ensures Extension(blanks + [59] + tail)
  {
    if blanks != [] {
      ExtensionOf(blanks[1..], tail);
      assert (blanks + [59] + tail)[1..] == blanks[1..] + [59] + tail;
    }
  }

  lemma ExtensionExactly(s: seq<Byte>)
    ensures Extension(s) <==> IsExtension(s)
  {
    if Extension(s) {
      ExtensionHas(s);
    }
    if blanks: seq<Byte>, tail: seq<Byte> :| s == blanks + [59] + tail && Blanks(blanks) {
      ExtensionOf(blanks, tail);
    }
  }

  /** A size line of RFC 9112, section 7.1: the digits of the size, and an extension or nothing. */
  ghost predicate IsSizeLine(line: seq<Byte>, n: nat) {
    exists digits: seq<Byte>, ext: seq<Byte> ::
      && line == digits + ext && digits != [] && IsHex(digits) && HexValue(digits) == n
      && (ext == [] || IsExtension(ext))
  }

  lemma {:induction false} DigitsThen(digits: seq<Byte>, ext: seq<Byte>)
    requires IsHex(digits) && (ext == [] || DigitValue(ext[0]) < 0)
    ensures Digits(digits + ext) == |digits|
  {
    if digits == [] {
      assert digits + ext == ext;
    } else {
      assert (digits + ext)[1..] == digits[1..] + ext;
      DigitsThen(digits[1..], ext);
    }
  }

  lemma SizeExactly(line: seq<Byte>, n: nat)
    ensures SizeOf(line) == Some(n) <==> IsSizeLine(line, n)
  {
    var k := Digits(line);
    assert line == line[..k] + line[k..];
    ExtensionExactly(line[k..]);
    if digits: seq<Byte>, ext: seq<Byte> :|
      && line == digits + ext && digits != [] && IsHex(digits) && HexValue(digits) == n
      && (ext == [] || IsExtension(ext))
    {
      if ext != [] {
        ExtensionStarts(ext);
      }
      DigitsThen(digits, ext);
      assert line[..|digits|] == digits && line[|digits|..] == ext;
    }
  }

  /** Field lines, each with its CRLF. */
  function FieldLines(lines: seq<seq<Byte>>): seq<Byte> {
    if lines == [] then [] else lines[0] + CRLF + FieldLines(lines[1..])
  }

  /** A trailer section of field lines with a colon each is skipped to the byte after its empty
      line. */
  lemma {:induction false} TrailersAreSkipped(lines: seq<seq<Byte>>, rest: seq<Byte>)
    requires forall line | line in lines :: 13 !in line && 58 in line
    ensures AfterTrailers(FieldLines(lines) + CRLF + rest) == Some(rest)
  {
    var s := FieldLines(lines) + CRLF + rest;
    if lines == [] {
      assert s == [] + CRLF + rest;
      LineEndAfter([], rest);
    } else {
      var more := FieldLines(lines[1..]) + CRLF + rest;
      assert s == lines[0] + CRLF + more;
      LineEndAfter(lines[0], more);
      TrailersAreSkipped(lines[1..], rest);
    }
  }

  /** Nothing else is accepted as a trailer section. */
  lemma {:induction false} OnlyTrailersAreSkipped(s: seq<Byte>) returns (lines: seq<seq<Byte>>)
    requires AfterTrailers(s).Some?
    ensures s == FieldLines(lines) + CRLF + AfterTrailers(s).value
    ensures forall line | line in lines :: 58 in line
    decreases |s|
  {
    var e := LineEnd(s).value;
    var line, after := s[..e], s[e + 2..];
    assert s == line + CRLF + after;
    if e == 0 {
      lines := [];
      assert s == CRLF + after;
    } else {
      var others := OnlyTrailersAreSkipped(after);
      lines := [line] + others;
      OneMoreLine(line, others);
      Rejoin(line, FieldLines(others), AfterTrailers(after).value);
    }
  }

  lemma OneMoreLine(line: seq<Byte>, others: seq<seq<Byte>>)
    ensures FieldLines([line] + others) == line + CRLF + FieldLines(others)
  {
    assert ([line] + others)[1..] == others;
  }

  lemma Rejoin(line: seq<Byte>, fields: seq<Byte>, rest: seq<Byte>)
    ensures line + CRLF + (fields + CRLF + rest) == (line + CRLF + fields) + CRLF + rest
  {
  }

  // ---------------------------------------------------------------- round trips

  lemma {:induction false} LineEndAfter(line: seq<Byte>, rest: seq<Byte>)
    requires 13 !in line
    ensures LineEnd(line + CRLF + rest) == Some(|line|)
  {
    var s := line + CRLF + rest;
    if line != [] {
      LineEndAfter(line[1..], rest);
      assert s[1..] == line[1..] + CRLF + rest;
      assert s[0] == line[0] && s[..2][0] == line[0];
    } else {
      assert s[..2] == CRLF;
    }
  }

  lemma {:induction false} AllDigits(line: seq<Byte>)
    requires IsHex(line)
    ensures Digits(line) == |line|
  {
    if line != [] {
      AllDigits(line[1..]);
    }
  }

  lemma SizeLine(n: nat, rest: seq<Byte>)
    ensures LineEnd(Hex(n) + CRLF + rest) == Some(|Hex(n)|) && SizeOf(Hex(n)) == Some(n)
  {
    HexRoundTrip(n);
    AllDigits(Hex(n));
    assert Hex(n)[..|Hex(n)|] == Hex(n);
    LineEndAfter(Hex(n), rest);
  }

  lemma HeadReads(n: nat, t: seq<Byte>)
    ensures Head(Hex(n) + CRLF + t) == Some((n, t))
  {
    var s, e := Hex(n) + CRLF + t, |Hex(n)|;
    SizeLine(n, t);
    assert s[..e] == Hex(n) && s[e + 2..] == t;
  }

  lemma DataReads(data: seq<Byte>, rest: seq<Byte>)
    ensures Data(data + CRLF + rest, |data|) == Some((data, rest))
  {
    var t := data + CRLF + rest;
    assert t[..|data|] == data && t[|data|..|data| + 2] == CRLF && t[|data| + 2..] == rest;
  }

  /** One chunk of data is read back whole, whatever bytes it holds. */
  lemma ChunkReadsBack(data: seq<Byte>, rest: seq<Byte>)
    requires data != []
    ensures Decode(Chunk(data) + rest) ==
              (match Decode(rest) case None => None case Some((body, after)) => Some((data + body, after)))
  {
    var t := data + CRLF + rest;
    assert Chunk(data) + rest == Hex(|data|) + CRLF + t;
    HeadReads(|data|, t);
    DataReads(data, rest);
  }

  lemma LastChunkReads(rest: seq<Byte>)
    ensures Decode([48] + CRLF + CRLF + rest) == Some(([], rest))
  {
    var t := CRLF + rest;
    assert [48] + CRLF + CRLF + rest == Hex(0) + CRLF + t;
    HeadReads(0, t);
    assert t == [] + CRLF + rest;
    LineEndAfter([], rest);
    assert t[2..] == rest;
  }

  /** Any sequence of non-empty chunks is read back as their concatenation, and the bytes
      behind the message are left alone. */
  lemma {:induction false} ChunksReadBack(chunks: seq<seq<Byte>>, rest: seq<Byte>)
    requires [] !in chunks
    ensures Decode(WriteAll(chunks) + rest) == Some((Flatten(chunks), rest))
  {
    if chunks == [] {
      LastChunkReads(rest);
    } else {
      ChunksReadBack(chunks[1..], rest);
      Associative(Chunk(chunks[0]), WriteAll(chunks[1..]), rest);
      ChunkReadsBack(chunks[0], WriteAll(chunks[1..]) + rest);
    }
  }

  /** Every body comes back from the wire, and so does what follows it on the connection. */
  lemma BodyReadsBack(body: seq<Byte>, rest: seq<Byte>)
    ensures Decode(Encode(body) + rest) == Some((body, rest))
  {
    PartsAreTheWhole(body, ChunkSize);
    ChunksReadBack(Parts(body, ChunkSize), rest);
  }

  // ---------------------------------------------------------------- truncation

  lemma {:induction false} LineEndExtends(s: seq<Byte>, more: seq<Byte>)
    requires LineEnd(s).Some?
    ensures LineEnd(s + more) == LineEnd(s)
    decreases |s|
  {
    assert (s + more)[..2] == s[..2];
    if s[..2] != CRLF {
      LineEndExtends(s[1..], more);
      assert (s + more)[1..] == s[1..] + more;
    }
  }

  lemma {:induction false} TrailersExtend(s: seq<Byte>, more: seq<Byte>)
    requires AfterTrailers(s).Some?
    ensures AfterTrailers(s + more) == Some(AfterTrailers(s).value + more)
    decreases |s|
  {
    LineEndExtends(s, more);
    var e := LineEnd(s).value;
    assert (s + more)[..e] == s[..e] && (s + more)[e + 2..] == s[e + 2..] + more;
    if e > 0 {
      TrailersExtend(s[e + 2..], more);
    }
  }

  lemma HeadExtends(s: seq<Byte>, more: seq<Byte>)
    requires Head(s).Some?
    ensures Head(s + more) == Some((Head(s).value.0, Head(s).value.1 + more))
  {
    LineEndExtends(s, more);
    var e := LineEnd(s).value;
    assert (s + more)[..e] == s[..e] && (s + more)[e + 2..] == s[e + 2..] + more;
  }

  lemma DataExtends(t: seq<Byte>, n: nat, more: seq<Byte>)
    requires Data(t, n).Some?
    ensures Data(t + more, n) == Some((Data(t, n).value.0, Data(t, n).value.1 + more))
  {
    assert (t + more)[..n] == t[..n] && (t + more)[n..n + 2] == t[n..n + 2] && (t + more)[n + 2..] == t[n + 2..] + more;
  }

  /** A complete message stays what it is when more bytes arrive. */
  lemma {:induction false} DecodeExtends(s: seq<Byte>, more: seq<Byte>)
    requires Decode(s).Some?
    ensures Decode(s + more) == Some((Decode(s).value.0, Decode(s).value.1 + more))
    decreases |s|
  {
    HeadExtends(s, more);
    var (n, t) := Head(s).value;
    if n == 0 {
      TrailersExtend(t, more);
    } else {
      DataExtends(t, n, more);
      DecodeExtends(Data(t, n).value.1, more);
    }
  }

  lemma NothingFollows(front: seq<Byte>, rest: seq<Byte>)
    requires rest != [] && Decode(front + rest).Some? && Decode(front + rest).value.1 == []
    ensures Decode(front) == None
  {
    if Decode(front).Some? {
      DecodeExtends(front, rest);
    }
  }

  lemma NoShorterMessage(s: seq<Byte>, k: nat)
    requires k < |s| && Decode(s).Some? && Decode(s).value.1 == []
    ensures Decode(s[..k]) == None
  {
    var front, rest := s[..k], s[k..];
    assert front + rest == s;
    NothingFollows(front, rest);
  }

  /** A connection that breaks off early is noticed: no part of an encoded body that stops
      short decodes to anything. */
  lemma TruncationIsNoticed(body: seq<Byte>, k: nat)
    requires k < |Encode(body)|
    ensures Decode(Encode(body)[..k]) == None
  {
    BodyReadsBack(body, []);
    assert Encode(body) + [] == Encode(body);
    NoShorterMessage(Encode(body), k);
  }

  /** Different bodies differ on the wire, and none is the beginning of another. */
  lemma PrefixFree(a: seq<Byte>, b: seq<Byte>)
    requires Encode(a) <= Encode(b)
    ensures a == b
  {
    var more := Encode(b)[|Encode(a)|..];
    assert Encode(b) == Encode(a) + more == Encode(b) + [];
    BodyReadsBack(a, more);
    BodyReadsBack(b, []);
  }
}

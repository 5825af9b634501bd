/**
 An encoder for the chunked coding, and what the scanner and the decoder of
 ChunkedBody make of its output: whole, cut short, or followed by anything.
 */
module ChunkedRoundTrip {
  import opened Bytes
  import opened ChunkedBody

  /** A size in hexadecimal digits of any case, then perhaps a chunk extension. */
  datatype SizeLine = SizeLine(digits: seq<byte>, extension: seq<byte>) {
    function Text(): seq<byte> { digits + extension }

    predicate Means(size: nat) {
      && digits != []
      && HexDigits(digits) == Some(size)
      && size < 0x1_0000_0000_0000_0000
      && (extension != [] ==> extension[0] == SEMICOLON)
      && CR !in extension && LF !in extension
    }
  }

  datatype Chunk = Chunk(line: SizeLine, data: seq<byte>) {
    function Wire(): seq<byte> { line.Text() + CRLF + data + CRLF }

    predicate Valid() { data != [] && line.Means(|data|) }
  }

  /** What follows the last size line: a blank line, or trailer fields and then the blank line that ends them. */
  datatype Trailer = NoFields | Fields(text: seq<byte>) {
    function Wire(): seq<byte> { if NoFields? then CRLF else text + CRLF_CRLF }

    /** Fields do not start with a blank line, and hold none before the last. */
    predicate Valid() {
      Fields? ==>
        && !At(Wire(), 0, CRLF) && !At(Wire(), 0, [LF])
        && (forall j :: 0 <= j < |text| ==> !At(Wire(), j, CRLF_CRLF))
        && (forall j :: 0 <= j < |Wire()| ==> !At(Wire(), j, LF_LF))
    }
  }

  /** A body: its chunks, the line of size zero that ends them, and the trailer. */
  datatype Body = Body(chunks: seq<Chunk>, last: SizeLine, trailer: Trailer) {
    predicate Valid() {
      last.Means(0) && trailer.Valid() && forall c :: c in chunks ==> c.Valid()
    }

    function Rest(): Body
      requires chunks != []
    {
      Body(chunks[1..], last, trailer)
    }
  }

  function Encode(b: Body): seq<byte>
    decreases |b.chunks|
  {
    if b.chunks == [] then b.last.Text() + CRLF + b.trailer.Wire()
    else b.chunks[0].Wire() + Encode(b.Rest())
  }

  function Payload(chunks: seq<Chunk>): seq<byte> {
    if chunks == [] then [] else chunks[0].data + Payload(chunks[1..])
  }

  // ---------------------------------------------------------------------
  // Printing a size and reading it back

  function HexDigit(d: nat): byte
    requires d < 16
  {
    if d < 10 then 48 + d else 87 + d
  }

  function HexOf(n: nat): (digits: seq<byte>)
    ensures digits != []
  {
    if n < 16 then [HexDigit(n)] else HexOf(n / 16) + [HexDigit(n % 16)]
  }

  lemma {:induction false} HexRoundTrip(n: nat)
    ensures HexDigits(HexOf(n)) == Some(n)
  {
    var digits := HexOf(n);
    if n < 16 {
      assert digits[..0] == [];
    } else {
      HexRoundTrip(n / 16);
      assert digits[..|digits| - 1] == HexOf(n / 16);
    }
  }

  /** The encoder every size has: its digits, and no extension. */
  lemma EverySizeHasALine(size: nat)
    requires size < 0x1_0000_0000_0000_0000
    ensures SizeLine(HexOf(size), []).Means(size)
  {
    HexRoundTrip(size);
  }

  /** Digits are read up to 64 bits and with at most one plus before them, and larger sizes are refused. */
  lemma SizeIsRead(digits: seq<byte>, size: nat)
    requires digits != [] && HexDigits(digits) == Some(size)
    ensures ParseHex(digits) == ParseHex(['+' as byte] + digits)
            == if size < 0x1_0000_0000_0000_0000 then Some(size) else None
    ensures ParseHex(['+' as byte, '+' as byte] + digits) == None
  {
    DigitsAreHex(digits, 0);
    assert (['+' as byte] + digits)[1..] == digits;
    var twice := ['+' as byte, '+' as byte] + digits;
    assert twice[1..] == ['+' as byte] + digits;
    if HexDigits(twice[1..]).Some? {
      DigitsAreHex(twice[1..], 0);
    }
  }

  // ---------------------------------------------------------------------
  // Size lines

  lemma {:induction false} DigitsAreHex(s: seq<byte>, i: nat)
    requires HexDigits(s).Some? && i < |s|
    ensures HexValue(s[i]).Some?
  {
    if i < |s| - 1 {
      DigitsAreHex(s[..|s| - 1], i);
    }
  }

  lemma {:induction false} DigitsHaveNoWhitespace(s: seq<byte>)
    requires forall i :: 0 <= i < |s| ==> !IsAsciiWhitespace(s[i])
    ensures WithoutWhitespace(s) == s
  {
    if s != [] {
      DigitsHaveNoWhitespace(s[1..]);
    }
  }

  /** No byte of a size line ends a line, and its digits are what comes before a `;`. */
  lemma SizeLineShape(line: SizeLine, size: nat)
    requires line.Means(size)
    ensures forall i :: 0 <= i < |line.Text()| ==> line.Text()[i] != CR && line.Text()[i] != LF
    ensures forall i :: 0 <= i < |line.digits| ==> HexValue(line.digits[i]).Some?
    ensures BeforeSemicolon(line.Text()) == line.digits
    ensures ParseHex(line.digits) == Some(size)
  {
    var text := line.Text();
    forall i | 0 <= i < |line.digits|
      ensures HexValue(line.digits[i]).Some?
    {
      DigitsAreHex(line.digits, i);
    }
    forall i | 0 <= i < |line.extension|
      ensures line.extension[i] != CR && line.extension[i] != LF
    {
      assert line.extension[i] in line.extension;
    }
    assert forall j :: 0 <= j < |line.digits| ==> text[j] == line.digits[j];
    AbsentBetween(text, 0, |line.digits|, [SEMICOLON]);
    if line.extension == [] {
      assert text == line.digits;
      FindNone(text, [SEMICOLON], 0);
    } else {
      assert At(text, |line.digits|, [SEMICOLON]);
      FindIs(text, [SEMICOLON], 0, |line.digits|);
      assert text[..|line.digits|] == line.digits;
    }
  }

  lemma ScannerReadsSize(line: SizeLine, size: nat)
    requires line.Means(size)
    ensures ScannedSize(line.Text()) == Some(size)
  {
    SizeLineShape(line, size);
    DigitsHaveNoWhitespace(line.digits);
  }

  /** Trimming a size line keeps its digits and, when it has one, the `;` after them. */
  lemma {:induction false} TrimEndKeeps(s: seq<byte>, keep: nat)
    requires 0 < keep <= |s| && !IsAsciiWhitespace(s[keep - 1])
    ensures keep <= |TrimEnd(s)| <= |s| && TrimEnd(s) == s[..|TrimEnd(s)|]
  {
    if IsAsciiWhitespace(s[|s| - 1]) {
      TrimEndKeeps(s[..|s| - 1], keep);
    }
  }

  lemma DecoderReadsSize(line: SizeLine, size: nat)
    requires line.Means(size)
    ensures TrimAscii(line.Text()) != []
    ensures ParseChunkSize(TrimAscii(line.Text())) == Some(size)
  {
    SizeLineShape(line, size);
    var text := line.Text();
    assert text[0] == line.digits[0];
    var keep := if line.extension == [] then |text| else |line.digits| + 1;
    assert text[keep - 1] == if line.extension == [] then line.digits[|line.digits| - 1] else SEMICOLON;
    TrimEndKeeps(text, keep);
    var kept := TrimEnd(text);
    var trimmed := SizeLine(line.digits, line.extension[..|kept| - |line.digits|]);
    assert kept == trimmed.Text();
    assert trimmed.Means(size);
    SizeLineShape(trimmed, size);
    TrimIsDigits(line.digits);
  }

  lemma TrimIsDigits(digits: seq<byte>)
    requires digits != [] && forall i :: 0 <= i < |digits| ==> HexValue(digits[i]).Some?
    ensures TrimAscii(digits) == digits
  {
    assert !IsAsciiWhitespace(digits[0]) && !IsAsciiWhitespace(digits[|digits| - 1]);
  }

  // ---------------------------------------------------------------------
  // Trailer fields

  predicate IsField(line: seq<byte>) { line != [] && CR !in line && LF !in line }

  /** Field lines with a line break between them. */
  function Joined(lines: seq<seq<byte>>): seq<byte>
    requires lines != []
  {
    if |lines| == 1 then lines[0] else lines[0] + CRLF + Joined(lines[1..])
  }

  /** No line breaks at the start, no bare LF, and a blank line only at the end. */
  predicate Unbroken(wire: seq<byte>) {
    && |wire| > 4 && wire[0] != CR && wire[0] != LF
    && (forall j :: 0 <= j < |wire| && wire[j] == LF ==> j > 0 && wire[j - 1] == CR)
    && (forall j :: 0 <= j < |wire| - 4 && wire[j] == CR ==> wire[j + 2] != CR)
  }

  lemma {:induction false} FieldsAreUnbroken(lines: seq<seq<byte>>)
    requires lines != [] && forall l :: l in lines ==> IsField(l)
    ensures Unbroken(Joined(lines) + CRLF_CRLF)
  {
    var line := lines[0];
    var wire := Joined(lines) + CRLF_CRLF;
    assert IsField(line);
    assert forall j :: 0 <= j < |line| ==> line[j] in line;
    if |lines| > 1 {
      FieldsAreUnbroken(lines[1..]);
      var rest := Joined(lines[1..]) + CRLF_CRLF;
      assert wire == line + CRLF + rest;
      forall j | 0 <= j < |wire| && wire[j] == LF
        ensures j > 0 && wire[j - 1] == CR
      {
        assert j >= |line| + 2 ==> wire[j] == rest[j - |line| - 2];
      }
      forall j | 0 <= j < |wire| - 4 && wire[j] == CR
        ensures wire[j + 2] != CR
      {
        assert j >= |line| + 2 ==> wire[j] == rest[j - |line| - 2];
      }
    } else {
      assert wire == line + CRLF_CRLF;
    }
  }

  /** Any field lines make a trailer. */
  lemma FieldsAreATrailer(lines: seq<seq<byte>>)
    requires lines != [] && forall l :: l in lines ==> IsField(l)
    ensures Fields(Joined(lines)).Valid()
  {
    hide Joined, At;
    FieldsAreUnbroken(lines);
    var t := Fields(Joined(lines));
    AtBytes(t.Wire(), 0, CRLF);
    AtBytes(t.Wire(), 0, [LF]);
    forall j | 0 <= j < |t.text|
      ensures !At(t.Wire(), j, CRLF_CRLF)
    {
      AtBytes(t.Wire(), j, CRLF_CRLF);
      assert t.Wire()[j + 2] == CRLF_CRLF[2] ==> t.Wire()[j] != CRLF_CRLF[0];
    }
    forall j | 0 <= j < |t.Wire()|
      ensures !At(t.Wire(), j, LF_LF)
    {
      AtBytes(t.Wire(), j, LF_LF);
      assert j + 1 < |t.Wire()| && t.Wire()[j + 1] == LF_LF[1] ==> t.Wire()[j] != LF_LF[0];
    }
  }

  // ---------------------------------------------------------------------
  // The scanner on an encoded body

  lemma LineBytes(s: seq<byte>, position: nat, line: SizeLine, size: nat)
    requires line.Means(size) && position <= |s|
    requires line.Text() + CRLF <= s[position..]
    ensures var end := position + |line.Text()|;
            && end + 2 <= |s| && s[end] == CR && s[end + 1] == LF
            && s[position..end] == line.Text()
            && forall j :: position <= j < end ==> s[j] != CR && s[j] != LF
  {
    SizeLineShape(line, size);
    var text := line.Text();
    var whole := text + CRLF;
    assert forall j :: 0 <= j < |whole| ==> s[position + j] == s[position..][j] == whole[j];
    assert forall j :: position <= j < position + |text| ==> s[j] == text[j - position];
  }

  /** Where a chunk starts, the scanner and the decoder both find the end of its size line. */
  lemma LineFound(s: seq<byte>, position: nat, line: SizeLine, size: nat)
    requires line.Means(size) && position <= |s|
    requires line.Text() + CRLF <= s[position..]
    ensures position + |line.Text()| + 2 <= |s|
    ensures LineEnd(s, position) == Some(Cut(position + |line.Text()|, position + |line.Text()| + 2))
    ensures NextLine(s, position) == LineEnd(s, position)
    ensures s[position..position + |line.Text()|] == line.Text()
  {
    hide HexDigits, HexValue, Find, At;
    LineBytes(s, position, line, size);
    var end := position + |line.Text()|;
    AtBytes(s, end, CRLF);
    AbsentBetween(s, position, end, CRLF);
    FindIs(s, CRLF, position, end);
    AtBytes(s, end + 1, [LF]);
    AbsentBetween(s, position, end + 1, [LF]);
    FindIs(s, [LF], position, end + 1);
  }

  /** A size line of which the break has not wholly arrived is no line yet. */
  lemma LineNotFound(s: seq<byte>, position: nat, line: SizeLine, size: nat)
    requires line.Means(size) && position <= |s|
    requires s[position..] < line.Text() + CRLF
    ensures LineEnd(s, position) == None && NextLine(s, position) == None
  {
    SizeLineShape(line, size);
    var text := line.Text();
    var whole := text + CRLF;
    assert forall j :: position <= j < |s| ==> s[j] == s[position..][j - position] == whole[j - position];
    assert forall j :: position <= j < |s| ==> s[j] != LF;
    AbsentBetween(s, position, |s|, [LF]);
    AbsentPastEnd(s, [LF]);
    FindNone(s, [LF], position);
    forall j: nat | position <= j
      ensures !At(s, j, CRLF)
    {
      AtBytes(s, j, CRLF);
      assert CRLF[1] == LF;
    }
    FindNone(s, CRLF, position);
  }

  lemma NewlineIsCrlf(s: seq<byte>, position: nat)
    requires position <= |s| && CRLF <= s[position..]
    ensures Newline(s, position) == 2
  {
    assert s[position..position + 2] == s[position..][..2];
  }

  /** Where the parts of a chunk stand. */
  lemma ChunkBytes(s: seq<byte>, position: nat, c: Chunk)
    requires c.Valid() && position <= |s| && c.Wire() <= s[position..]
    ensures c.data != [] && c.line.Means(|c.data|) && c.line.Text() + CRLF <= s[position..]
    ensures var start := position + |c.line.Text()| + 2;
            var after := start + |c.data|;
            && after + 2 == position + |c.Wire()| <= |s|
            && s[start..after] == c.data && CRLF <= s[after..]
  {
    hide SizeLine.Means, SizeLine.Text;
    var wire, text, size := c.Wire(), c.line.Text(), |c.data|;
    var after := position + |text| + 2 + size;
    FourParts(text, CRLF, c.data, CRLF);
    assert text + CRLF <= wire;
    SliceOfPart(s, position, wire, |text| + 2, |text| + 2 + size);
    SliceOfPart(s, position, wire, |text| + 2 + size, |wire|);
    assert s[after..][..2] == s[after..after + 2];
  }

  /** The scanner's step over one whole chunk. */
  lemma ScanStep(s: seq<byte>, position: nat, c: Chunk, decoded: nat, count: nat)
    requires c.Valid() && position <= |s| && c.Wire() <= s[position..]
    ensures position + |c.Wire()| <= |s|
    ensures ScanFrom(s, position, decoded, count)
            == ScanFrom(s, position + |c.Wire()|, decoded + |c.data|, count + 1)
  {
    hide *;
    ChunkBytes(s, position, c);
    LineFound(s, position, c.line, |c.data|);
    ScannerReadsSize(c.line, |c.data|);
    var after := position + |c.line.Text()| + 2 + |c.data|;
    NewlineIsCrlf(s, after);
    ScanFromLine(s, position, Cut(position + |c.line.Text()|, position + |c.line.Text()| + 2), |c.data|, decoded, count);
  }

  lemma ScanFromLine(s: seq<byte>, position: nat, line: Cut, size: nat, decoded: nat, count: nat)
    requires position <= line.len <= |s| && LineEnd(s, position) == Some(line)
    requires ScannedSize(s[position..line.len]) == Some(size) && size > 0
    requires line.total + size + 1 <= |s| && Newline(s, line.total + size) > 0
    ensures var next := line.total + size + Newline(s, line.total + size);
            next <= |s| && ScanFrom(s, position, decoded, count) == ScanFrom(s, next, decoded + size, count + 1)
  {
    hide LineEnd, ScannedSize, Newline;
  }

  /** The scanner at a whole trailer, followed by anything. */
  lemma ScanWholeTrailer(s: seq<byte>, position: nat, t: Trailer, decoded: nat, count: nat)
    requires t.Valid() && position <= |s| && t.Wire() <= s[position..]
    ensures ScanTrailer(s, position, decoded, count)
            == Complete(ChunkedBodyInfo(position + |t.Wire()|, decoded, count, |t.Wire()|))
  {
    hide Find, At;
    if t.NoFields? {
      NewlineIsCrlf(s, position);
    } else {
      var wire := t.Wire();
      SameAt(s, position, wire, 0, CRLF);
      SameAt(s, position, wire, 0, [LF]);
      forall j | position <= j < position + |t.text|
        ensures !At(s, j, CRLF_CRLF)
      {
        SameAt(s, position, wire, j - position, CRLF_CRLF);
      }
      AtBytes(wire, |t.text|, CRLF_CRLF);
      SameAt(s, position, wire, |t.text|, CRLF_CRLF);
      FindIs(s, CRLF_CRLF, position, position + |t.text|);
    }
  }

  /** Where a word lies within a part of `s` that stands at `offset`, it is in one as in the other. */
  lemma SameAt(s: seq<byte>, offset: nat, part: seq<byte>, i: nat, word: seq<byte>)
    requires offset <= |s| && part <= s[offset..] && i + |word| <= |part|
    ensures At(s, offset + i, word) <==> At(part, i, word)
  {
    SliceOfPart(s, offset, part, i, i + |word|);
  }

  /** The scanner at a trailer of which not every byte has arrived. */
  lemma ScanCutTrailer(s: seq<byte>, position: nat, t: Trailer, decoded: nat, count: nat)
    requires t.Valid() && position <= |s| && s[position..] < t.Wire()
    ensures ScanTrailer(s, position, decoded, count) == Incomplete
  {
    hide Find, At;
    var wire, part := t.Wire(), s[position..];
    forall j: nat, word | position <= j && word in [CRLF, [LF], CRLF_CRLF, LF_LF] && At(s, j, word)
      ensures At(wire, j - position, word) && j + |word| <= |s|
    {
      AtBytes(s, j, word);
      AtBytes(wire, j - position, word);
      assert forall k :: 0 <= k < |part| ==> s[position + k] == part[k] == wire[k];
    }
    if t.NoFields? {
      AtBytes(wire, 0, [LF]);
    }
    FindNone(s, CRLF_CRLF, position);
    FindNone(s, LF_LF, position);
  }

  lemma ScanLast(
    s: seq<byte>, position: nat, last: SizeLine, trailer: Trailer, tail: seq<byte>, decoded: nat, count: nat)
    requires last.Means(0) && trailer.Valid() && position <= |s|
    requires s[position..] == last.Text() + CRLF + trailer.Wire() + tail
    ensures ScanFrom(s, position, decoded, count) == Complete(ChunkedBodyInfo(
      position + |last.Text()| + 2 + |trailer.Wire()|, decoded, count, |trailer.Wire()|))
  {
    hide Find, LineEnd, NextLine, ScannedSize, Newline, HexDigits, ScanTrailer, At, Trailer.Wire, Trailer.Valid;
    var text := last.Text();
    assert s[position..] == (text + CRLF) + (trailer.Wire() + tail);
    LineFound(s, position, last, 0);
    ScannerReadsSize(last, 0);
    var after := position + |text| + 2;
    assert s[after..] == s[position..][|text| + 2..] == trailer.Wire() + tail;
    ScanWholeTrailer(s, after, trailer, decoded, count);
  }

  lemma EncodeStep(b: Body, s: seq<byte>, position: nat, tail: seq<byte>)
    requires b.Valid() && b.chunks != [] && position <= |s| && s[position..] == Encode(b) + tail
    ensures b.chunks[0].Valid() && b.Rest().Valid()
    ensures var next := position + |b.chunks[0].Wire()|;
            b.chunks[0].Wire() <= s[position..] && next <= |s| && s[next..] == Encode(b.Rest()) + tail
  {
    hide Chunk.Wire, Chunk.Valid, SizeLine.Means, Trailer.Wire, Trailer.Valid;
    var wire, rest := b.chunks[0].Wire(), Encode(b.Rest()) + tail;
    assert Encode(b) == wire + Encode(b.Rest());
    Associates(wire, Encode(b.Rest()), tail);
    assert s[position + |wire|..] == s[position..][|wire|..] == rest;
  }

  /**
   On a whole encoded body followed by anything the scanner reports the exact
   wire length, the number of chunks and the number of decoded bytes.
   */
  lemma {:induction false} ScanEncoded(
    s: seq<byte>, position: nat, b: Body, tail: seq<byte>, decoded: nat, count: nat)
    requires b.Valid() && position <= |s| && s[position..] == Encode(b) + tail
    ensures ScanFrom(s, position, decoded, count) == Complete(ChunkedBodyInfo(
      position + |Encode(b)|, decoded + |Payload(b.chunks)|, count + |b.chunks|, |b.trailer.Wire()|))
    decreases |b.chunks|
  {
    hide Find, LineEnd, NextLine, ScannedSize, Newline, HexDigits, ScanTrailer, At, Trailer.Wire, Trailer.Valid, ScanFrom;
    if b.chunks == [] {
      ScanLast(s, position, b.last, b.trailer, tail, decoded, count);
    } else {
      EncodeStep(b, s, position, tail);
      var c := b.chunks[0];
      ScanStep(s, position, c, decoded, count);
      ScanEncoded(s, position + |c.Wire()|, b.Rest(), tail, decoded + |c.data|, count + 1);
    }
  }

  /** The first `k` bytes of the encoding end between the CR and the LF after some chunk's data. */
  predicate SplitsNewline(b: Body, k: nat)
    decreases |b.chunks|
  {
    b.chunks != [] &&
    var wire := |b.chunks[0].Wire()|;
    (k + 1 == wire || (wire <= k && SplitsNewline(b.Rest(), k - wire)))
  }

  /** One chunk of which not every byte has arrived. */
  lemma ScanCutChunk(s: seq<byte>, position: nat, c: Chunk, decoded: nat, count: nat)
    requires c.Valid() && position <= |s| && s[position..] < c.Wire()
    ensures ScanFrom(s, position, decoded, count)
            == if |s| - position + 1 == |c.Wire()| then Invalid(MissingChunkNewline) else Incomplete
  {
    hide Find, LineEnd, NextLine, ScannedSize, HexDigits, At;
    var text := c.line.Text();
    var k := |s| - position;
    assert s[position..] == c.Wire()[..k];
    if k < |text| + 2 {
      assert s[position..] == (text + CRLF)[..k];
      LineNotFound(s, position, c.line, |c.data|);
    } else {
      assert s[position..][..|text| + 2] == text + CRLF;
      LineFound(s, position, c.line, |c.data|);
      ScannerReadsSize(c.line, |c.data|);
      var after := position + |text| + 2 + |c.data|;
      if |s| == after + 1 {
        assert s[after] == s[position..][after - position] == c.Wire()[after - position] == CR;
        AtBytes(s, after, [LF]);
        AtBytes(s, after, CRLF);
      }
    }
  }

  /** The last line and the trailer, of which not every byte has arrived. */
  lemma ScanCutLast(s: seq<byte>, position: nat, last: SizeLine, trailer: Trailer, decoded: nat, count: nat)
    requires last.Means(0) && trailer.Valid() && position <= |s| && s[position..] < last.Text() + CRLF + trailer.Wire()
    ensures ScanFrom(s, position, decoded, count) == Incomplete
  {
    hide Find, LineEnd, NextLine, ScannedSize, HexDigits, At, ScanTrailer, Trailer.Wire, Trailer.Valid;
    var text := last.Text();
    var whole := text + CRLF + trailer.Wire();
    var k := |s| - position;
    if k < |text| + 2 {
      assert s[position..] == whole[..k] == (text + CRLF)[..k];
      LineNotFound(s, position, last, 0);
    } else {
      assert s[position..][..|text| + 2] == whole[..|text| + 2] == text + CRLF;
      LineFound(s, position, last, 0);
      ScannerReadsSize(last, 0);
      var after := position + |text| + 2;
      assert s[after..] == s[position..][|text| + 2..] == whole[..k][|text| + 2..] == trailer.Wire()[..k - |text| - 2];
      ScanCutTrailer(s, after, trailer, decoded, count);
    }
  }

  /**
   On the first bytes of an encoded body the scanner asks for more, except when
   they end between the CR and the LF after a chunk's data: there it gives up.
   */
  lemma {:induction false} ScanCut(s: seq<byte>, position: nat, b: Body, decoded: nat, count: nat)
    requires b.Valid() && position <= |s| && s[position..] < Encode(b)
    ensures ScanFrom(s, position, decoded, count)
            == if SplitsNewline(b, |s| - position) then Invalid(MissingChunkNewline) else Incomplete
    decreases |b.chunks|
  {
    hide ScanFrom, HexDigits;
    var k := |s| - position;
    if b.chunks == [] {
      ScanCutLast(s, position, b.last, b.trailer, decoded, count);
    } else {
      var c := b.chunks[0];
      var wire := c.Wire();
      CutStep(s, position, b);
      if k < |wire| {
        ScanCutChunk(s, position, c, decoded, count);
      } else {
        ScanStep(s, position, c, decoded, count);
        ScanCut(s, position + |wire|, b.Rest(), decoded + |c.data|, count + 1);
      }
    }
  }

  /** The start of a body is the start of its first chunk, or all of that and the start of the others. */
  lemma CutStep(s: seq<byte>, position: nat, b: Body)
    requires b.Valid() && b.chunks != [] && position <= |s| && s[position..] < Encode(b)
    ensures b.chunks[0].Valid() && b.Rest().Valid()
    ensures var k, wire := |s| - position, b.chunks[0].Wire();
            if k < |wire| then s[position..] < wire
            else wire <= s[position..] && s[position + |wire|..] < Encode(b.Rest())
  {
    hide Chunk.Wire, Chunk.Valid, SizeLine.Means, Trailer.Wire, Trailer.Valid;
    var k, wire := |s| - position, b.chunks[0].Wire();
    assert Encode(b) == wire + Encode(b.Rest());
    assert s[position..] == Encode(b)[..k];
    if k >= |wire| {
      assert s[position + |wire|..] == s[position..][|wire|..] == Encode(b)[..k][|wire|..];
      assert Encode(b)[..k][|wire|..] == Encode(b.Rest())[..k - |wire|];
    }
  }

  // ---------------------------------------------------------------------
  // The decoder on an encoded body

  lemma DecodeStep(input: seq<byte>, offset: nat, c: Chunk, limit: nat, done: ChunkedDecode)
    requires c.Valid() && offset <= |input| && c.Wire() <= input[offset..] && |done.bytes| <= limit
    ensures offset + |c.Wire()| <= |input|
    ensures var bytes := AppendLimited(done.bytes, c.data, limit);
            var next := done.(bytes := bytes, chunks := done.chunks + 1,
                              truncatedByLimit := done.truncatedByLimit || |bytes| - |done.bytes| < |c.data|);
            DecodeFrom(input, limit, offset, done)
            == if |bytes| >= limit then Decoded(next.(truncatedByLimit := offset + |c.Wire()| < |input|))
               else DecodeFrom(input, limit, offset + |c.Wire()|, next)
  {
    hide Find, At, LineEnd, NextLine, ParseChunkSize, TrimAscii, Newline, AppendLimited, Chunk.Wire, Chunk.Valid,
         SizeLine.Means, SizeLine.Text;
    ChunkBytes(input, offset, c);
    LineFound(input, offset, c.line, |c.data|);
    DecoderReadsSize(c.line, |c.data|);
    NewlineIsCrlf(input, offset + |c.line.Text()| + 2 + |c.data|);
  }

  lemma DecodeLast(input: seq<byte>, offset: nat, last: SizeLine, tail: seq<byte>, limit: nat, done: ChunkedDecode)
    requires last.Means(0) && offset <= |input| && input[offset..] == last.Text() + CRLF + tail
    ensures DecodeFrom(input, limit, offset, done)
            == Decoded(done.(reachedLastChunk := true, trailingBytes := |tail|))
  {
    hide Find, LineEnd, NextLine, ParseChunkSize, TrimAscii, Newline, HexDigits;
    assert input[offset..] == (last.Text() + CRLF) + tail;
    LineFound(input, offset, last, 0);
    DecoderReadsSize(last, 0);
  }

  /** How many chunks there are up to the one with which so many bytes are reached. */
  function ChunksUntil(chunks: seq<Chunk>, room: int): nat {
    if chunks == [] then 0
    else if |chunks[0].data| >= room then 1
    else 1 + ChunksUntil(chunks[1..], room - |chunks[0].data|)
  }

  /**
   On a whole encoded body followed by anything the decoder returns the first
   `limit` bytes of the concatenated chunks, and says whether the limit stopped it;
   unless it did, it also reports every chunk, the last chunk, and how many bytes
   follow it.
   */
  lemma {:induction false} DecodeEncoded(
    input: seq<byte>, offset: nat, b: Body, tail: seq<byte>, limit: nat, done: ChunkedDecode)
    requires b.Valid() && offset <= |input| && input[offset..] == Encode(b) + tail
    requires |done.bytes| <= limit && !done.partial
    ensures var r := DecodeFrom(input, limit, offset, done);
            var all := done.bytes + Payload(b.chunks);
            && r.Decoded? && !r.decode.partial
            && r.decode.bytes == all[..Min(limit, |all|)]
            && r.decode.chunks == done.chunks + ChunksUntil(b.chunks, limit - |done.bytes|)
            && (|all| >= limit && b.chunks != [] ==>
                  && r.decode.truncatedByLimit
                  && r.decode.reachedLastChunk == done.reachedLastChunk && r.decode.trailingBytes == done.trailingBytes)
            && (|all| < limit || b.chunks == [] ==>
                  && r.decode.truncatedByLimit == done.truncatedByLimit
                  && r.decode.chunks == done.chunks + |b.chunks|
                  && r.decode.reachedLastChunk && r.decode.trailingBytes == |b.trailer.Wire()| + |tail|)
    decreases |b.chunks|
  {
    hide *;
    EncodeFirst(b);
    if b.chunks == [] {
      assert input[offset..] == b.last.Text() + CRLF + (b.trailer.Wire() + tail);
      DecodeLast(input, offset, b.last, b.trailer.Wire() + tail, limit, done);
      NothingMore(done.bytes, limit);
      NoChunksUntil(limit - |done.bytes|);
    } else {
      EncodeStep(b, input, offset, tail);
      var c := b.chunks[0];
      var bytes := AppendLimited(done.bytes, c.data, limit);
      var next := done.(bytes := bytes, chunks := done.chunks + 1,
                        truncatedByLimit := done.truncatedByLimit || |bytes| - |done.bytes| < |c.data|);
      DecodeStep(input, offset, c, limit, done);
      AppendedFirst(done.bytes, c.data, Payload(b.Rest().chunks), limit);
      AppendedLength(done.bytes, c.data, limit);
      ChunksUntilFirst(b, limit - |done.bytes|);
      LastIsThere(b.Rest(), input, offset + |c.Wire()|, tail);
      EncodeFirst(b.Rest());
      if |bytes| < limit {
        DecodeEncoded(input, offset + |c.Wire()|, b.Rest(), tail, limit, next);
      }
    }
  }

  lemma ChunksUntilFirst(b: Body, room: int)
    requires b.chunks != []
    ensures ChunksUntil(b.chunks, room)
            == 1 + if |b.chunks[0].data| >= room then 0 else ChunksUntil(b.Rest().chunks, room - |b.chunks[0].data|)
  {
  }

  lemma NoChunksUntil(room: int)
    ensures ChunksUntil([], room) == 0
  {
  }

  lemma AppendedLength(done: seq<byte>, data: seq<byte>, limit: nat)
    requires |done| <= limit
    ensures |AppendLimited(done, data, limit)| == if |done| + |data| < limit then |done| + |data| else limit
  {
  }

  lemma EncodeFirst(b: Body)
    requires b.Valid()
    ensures b.last.Means(0)
    ensures if b.chunks == [] then Encode(b) == b.last.Text() + CRLF + b.trailer.Wire() && Payload(b.chunks) == []
            else && Encode(b) == b.chunks[0].Wire() + Encode(b.Rest())
                 && Payload(b.chunks) == b.chunks[0].data + Payload(b.Rest().chunks)
                 && |b.Rest().chunks| == |b.chunks| - 1 && b.Rest().trailer == b.trailer
  {
    hide Chunk.Wire, Chunk.Valid, SizeLine.Means, SizeLine.Text, Trailer.Wire, Trailer.Valid;
  }

  lemma NothingMore(bytes: seq<byte>, limit: nat)
    requires |bytes| <= limit
    ensures Min(limit, |bytes + []|) == |bytes| && (bytes + [])[..|bytes|] == bytes
  {
    assert bytes + [] == bytes;
  }

  /** What appending the next bytes does to the first `limit` bytes of all there are. */
  lemma AppendedFirst(done: seq<byte>, data: seq<byte>, rest: seq<byte>, limit: nat)
    requires |done| <= limit
    ensures var bytes, all := AppendLimited(done, data, limit), done + (data + rest);
            && |bytes| <= limit
            && if |bytes| < limit then all == bytes + rest
               else |all| >= limit && Min(limit, |all|) == limit && bytes == all[..limit]
  {
    var bytes, joined := AppendLimited(done, data, limit), done + data;
    assert done + (data + rest) == joined + rest;
    if |bytes| < limit {
      assert bytes == joined[..|joined|] == joined;
    } else {
      assert bytes == joined[..limit] == (joined + rest)[..limit];
    }
  }

  lemma LastIsThere(b: Body, input: seq<byte>, offset: nat, tail: seq<byte>)
    requires offset <= |input| && input[offset..] == Encode(b) + tail
    ensures offset < |input|
  {
  }

  // ---------------------------------------------------------------------
  // The decoder on the start of an encoded body

  /** The data among the first `k` bytes of an encoded body. */
  function Received(b: Body, k: nat): seq<byte>
    decreases |b.chunks|
  {
    if b.chunks == [] then []
    else
      var c := b.chunks[0];
      if k < |c.Wire()| then DataIn(c, k) else c.data + Received(b.Rest(), k - |c.Wire()|)
  }

  /** The data among the first `k` bytes of a chunk. */
  function DataIn(c: Chunk, k: nat): seq<byte> {
    c.data[..Min(|c.data|, Max(0, k - |c.line.Text()| - 2))]
  }

  /** The first `k` bytes end before a chunk, before the last line, or after that. */
  predicate AtBoundary(b: Body, k: nat)
    decreases |b.chunks|
  {
    k == 0 || (if b.chunks == [] then k >= |b.last.Text()| + 2
               else k >= |b.chunks[0].Wire()| && AtBoundary(b.Rest(), k - |b.chunks[0].Wire()|))
  }

  /** The last line is among the first `k` bytes. */
  predicate HasLast(b: Body, k: nat)
    decreases |b.chunks|
  {
    if b.chunks == [] then k >= |b.last.Text()| + 2
    else k >= |b.chunks[0].Wire()| && HasLast(b.Rest(), k - |b.chunks[0].Wire()|)
  }

  /** `SplitsNewline`, in a chunk before which fewer than so many bytes of data are collected, or in the first. */
  predicate SplitsWithin(b: Body, k: nat, room: int)
    decreases |b.chunks|
  {
    b.chunks != [] &&
    var c := b.chunks[0];
    (k + 1 == |c.Wire()|
     || (|c.Wire()| <= k && |c.data| < room && SplitsWithin(b.Rest(), k - |c.Wire()|, room - |c.data|)))
  }

  /** The decoder behind a size line whose data has not wholly arrived, or not the break after it. */
  lemma DecodeFromLine(input: seq<byte>, offset: nat, line: Cut, size: nat, limit: nat, done: ChunkedDecode)
    requires offset <= line.len <= line.total <= |input| <= line.total + size + 1 && NextLine(input, offset) == Some(line)
    requires TrimAscii(input[offset..line.len]) != []
    requires ParseChunkSize(TrimAscii(input[offset..line.len])) == Some(size) && size > 0
    requires Newline(input, |input|) == 0
    requires |input| == line.total + size + 1 ==> Newline(input, line.total + size) == 0
    ensures var r := DecodeFrom(input, limit, offset, done);
            if |input| == line.total + size + 1 then r == Failed(MissingNewline)
            else && r.Decoded? && r.decode.bytes == AppendLimited(done.bytes, input[line.total..], limit)
                 && r.decode.partial && r.decode.reachedLastChunk == done.reachedLastChunk
  {
    hide NextLine, ParseChunkSize, TrimAscii, AppendLimited, Newline;
    if |input| <= line.total + size {
      assert input[line.total..|input|] == input[line.total..];
    }
  }

  /** The decoder at a chunk of which not every byte has arrived. */
  lemma DecodeCutChunk(input: seq<byte>, offset: nat, c: Chunk, limit: nat, done: ChunkedDecode)
    requires c.Valid() && offset <= |input| && input[offset..] < c.Wire() && !done.partial && !done.reachedLastChunk
    ensures var k := |input| - offset;
            var r := DecodeFrom(input, limit, offset, done);
            if k + 1 == |c.Wire()| then r == Failed(MissingNewline)
            else && r.Decoded? && r.decode.bytes == AppendLimited(done.bytes, DataIn(c, k), limit)
                 && (r.decode.partial <==> k > 0) && !r.decode.reachedLastChunk
  {
    hide Find, LineEnd, NextLine, ParseChunkSize, TrimAscii, HexDigits, At, AppendLimited, Newline;
    var text := c.line.Text();
    var k := |input| - offset;
    assert input[offset..] == c.Wire()[..k];
    if k < |text| + 2 {
      assert input[offset..] == (text + CRLF)[..k];
      LineNotFound(input, offset, c.line, |c.data|);
      NothingAppended(done.bytes, limit);
      assert DataIn(c, k) == [];
    } else {
      hide DecodeFrom;
      assert input[offset..][..|text| + 2] == text + CRLF;
      LineFound(input, offset, c.line, |c.data|);
      DecoderReadsSize(c.line, |c.data|);
      var start := offset + |text| + 2;
      assert input[start..] == input[offset..][|text| + 2..] == c.Wire()[..k][|text| + 2..];
      assert |input| <= start + |c.data| ==> input[start..] == DataIn(c, k);
      NoNewline(input, |input|);
      if |input| == start + |c.data| + 1 {
        assert input[|input| - 1] == input[offset..][k - 1] == c.Wire()[k - 1] == CR;
        NoNewline(input, |input| - 1);
      }
      DecodeFromLine(input, offset, Cut(offset + |text|, start), |c.data|, limit, done);
    }
  }

  /** No line break at the end, nor at a lone CR there. */
  lemma NoNewline(input: seq<byte>, at: nat)
    requires at == |input| || (at + 1 == |input| && input[at] == CR)
    ensures Newline(input, at) == 0
  {
    AtBytes(input, at, [LF]);
  }

  lemma NothingAppended(bytes: seq<byte>, limit: nat)
    ensures AppendLimited(bytes, [], limit) == bytes
  {
  }

  /** The decoder at the last line and the trailer, of which not every byte has arrived. */
  lemma DecodeCutLast(
    input: seq<byte>, offset: nat, last: SizeLine, trailer: Trailer, limit: nat, done: ChunkedDecode)
    requires last.Means(0) && offset <= |input| && input[offset..] < last.Text() + CRLF + trailer.Wire()
    ensures var k := |input| - offset;
            var line := |last.Text()| + 2;
            DecodeFrom(input, limit, offset, done)
            == Decoded(if k < line then done.(partial := k > 0)
                       else done.(reachedLastChunk := true, trailingBytes := k - line))
  {
    hide Find, LineEnd, NextLine, ParseChunkSize, TrimAscii, HexDigits, At, Trailer.Wire;
    var text := last.Text();
    var whole := text + CRLF + trailer.Wire();
    var k := |input| - offset;
    if k < |text| + 2 {
      assert input[offset..] == whole[..k] == (text + CRLF)[..k];
      LineNotFound(input, offset, last, 0);
    } else {
      assert input[offset..][..|text| + 2] == whole[..|text| + 2] == text + CRLF;
      assert input[offset..] == (text + CRLF) + input[offset + |text| + 2..];
      DecodeLast(input, offset, last, input[offset + |text| + 2..], limit, done);
    }
  }

  /**
   On the first bytes of an encoded body the decoder returns the data among them, up
   to the limit, and calls it partial unless they end where a chunk or the last line
   could start; where they end between the CR and the LF after a chunk's data it
   fails, as the scanner does, if the limit has not stopped it before.
   */
  lemma {:induction false} DecodeCut(input: seq<byte>, offset: nat, b: Body, limit: nat, done: ChunkedDecode)
    requires b.Valid() && offset <= |input| && input[offset..] < Encode(b)
    requires |done.bytes| <= limit && !done.partial && !done.reachedLastChunk
    ensures var k := |input| - offset;
            var r := DecodeFrom(input, limit, offset, done);
            var all := done.bytes + Received(b, k);
            if SplitsWithin(b, k, limit - |done.bytes|) then r == Failed(MissingNewline)
            else && r.Decoded? && r.decode.bytes == all[..Min(limit, |all|)]
                 && (|all| < limit ==> (r.decode.partial <==> !AtBoundary(b, k))
                                       && (r.decode.reachedLastChunk <==> HasLast(b, k)))
    decreases |b.chunks|
  {
    hide DecodeFrom, Encode, DataIn, HexDigits, AppendLimited, Chunk.Wire, Chunk.Valid, Trailer.Wire, Trailer.Valid,
      SizeLine.Text, SizeLine.Means;
    var k := |input| - offset;
    EncodeFirst(b);
    if b.chunks == [] {
      DecodeCutLast(input, offset, b.last, b.trailer, limit, done);
      NothingMore(done.bytes, limit);
    } else {
      var c := b.chunks[0];
      var wire := c.Wire();
      CutStep(input, offset, b);
      if k < |wire| {
        DecodeCutChunk(input, offset, c, limit, done);
        AppendedIs(done.bytes, DataIn(c, k), limit);
      } else {
        DecodeStep(input, offset, c, limit, done);
        AppendedFirst(done.bytes, c.data, Received(b.Rest(), k - |wire|), limit);
        AppendedLength(done.bytes, c.data, limit);
        var bytes := AppendLimited(done.bytes, c.data, limit);
        if |bytes| < limit {
          var next := done.(bytes := bytes, chunks := done.chunks + 1,
                            truncatedByLimit := done.truncatedByLimit || |bytes| - |done.bytes| < |c.data|);
          DecodeCut(input, offset + |wire|, b.Rest(), limit, next);
        }
      }
    }
  }

  lemma AppendedIs(done: seq<byte>, data: seq<byte>, limit: nat)
    requires |done| <= limit
    ensures AppendLimited(done, data, limit) == (done + data)[..Min(limit, |done + data|)]
  {
  }

  /** Both decoders invert the encoder, and so agree with each other, whatever follows the body. */
  lemma DecodersInvertEncoder(b: Body, tail: seq<byte>, limit: nat)
    requires b.Valid()
    ensures Scan(Encode(b) + tail)
            == Complete(ChunkedBodyInfo(|Encode(b)|, |Payload(b.chunks)|, |b.chunks|, |b.trailer.Wire()|))
    ensures var r := Decode(Encode(b) + tail, limit);
            var all := Payload(b.chunks);
            r == Decoded(if |all| < limit || b.chunks == []
                         then ChunkedDecode(all[..Min(limit, |all|)], |b.chunks|, false, false, true,
                                            |b.trailer.Wire()| + |tail|)
                         else ChunkedDecode(all[..limit], ChunksUntil(b.chunks, limit), true, false, false, 0))
  {
    hide Find, LineEnd, NextLine, ParseChunkSize, ScannedSize, TrimAscii, Newline, HexDigits, AppendLimited, Encode,
      DecodeFrom, ScanFrom;
    var s := Encode(b) + tail;
    assert s[0..] == s;
    ScanEncoded(s, 0, b, tail, 0, 0);
    DecodeEncoded(s, 0, b, tail, limit, NOTHING_DECODED);
    assert [] + Payload(b.chunks) == Payload(b.chunks);
  }

  // ---------------------------------------------------------------------
  // Bare line feeds

  /** A chunk written with line breaks that may lack the CR. */
  function LooseWire(c: Chunk, lineBreak: seq<byte>, dataBreak: seq<byte>): seq<byte> {
    c.line.Text() + lineBreak + c.data + dataBreak
  }

  lemma LooseParts(s: seq<byte>, offset: nat, c: Chunk, lineBreak: seq<byte>, dataBreak: seq<byte>)
    requires c.Valid() && offset <= |s| && LooseWire(c, lineBreak, dataBreak) <= s[offset..]
    ensures var end := offset + |c.line.Text()|;
            var start := end + |lineBreak|;
            var after := start + |c.data|;
            && after + |dataBreak| == offset + |LooseWire(c, lineBreak, dataBreak)| <= |s|
            && s[offset..end] == c.line.Text() && s[end..start] == lineBreak
            && s[start..after] == c.data && s[after..after + |dataBreak|] == dataBreak
  {
    hide Chunk.Valid, SizeLine.Text;
    var text := c.line.Text();
    var wire := LooseWire(c, lineBreak, dataBreak);
    FourParts(text, lineBreak, c.data, dataBreak);
    SliceOfPart(s, offset, wire, 0, |text|);
    SliceOfPart(s, offset, wire, |text|, |text| + |lineBreak|);
    SliceOfPart(s, offset, wire, |text| + |lineBreak|, |text| + |lineBreak| + |c.data|);
    SliceOfPart(s, offset, wire, |text| + |lineBreak| + |c.data|, |wire|);
  }

  lemma BreakBytes(s: seq<byte>, at: nat, lineBreak: seq<byte>)
    requires lineBreak in [CRLF, [LF]] && at + |lineBreak| <= |s| && s[at..at + |lineBreak|] == lineBreak
    ensures s[at + |lineBreak| - 1] == LF && (lineBreak == CRLF ==> s[at] == CR)
  {
    var part := s[at..at + |lineBreak|];
    assert part[|lineBreak| - 1] == s[at + |lineBreak| - 1] && part[0] == s[at];
    assert CRLF[1] == LF && CRLF[0] == CR;
  }

  /** The decoder ends a size line at either kind of break. */
  lemma LooseLineFound(s: seq<byte>, offset: nat, line: SizeLine, size: nat, lineBreak: seq<byte>)
    requires line.Means(size) && lineBreak in [CRLF, [LF]]
    requires var end := offset + |line.Text()|;
             end + |lineBreak| <= |s| && s[offset..end] == line.Text() && s[end..end + |lineBreak|] == lineBreak
    ensures var end := offset + |line.Text()|; NextLine(s, offset) == Some(Cut(end, end + |lineBreak|))
  {
    hide Find, At, HexDigits;
    SizeLineShape(line, size);
    var end := offset + |line.Text()|;
    forall j | offset <= j < end
      ensures s[j] != CR && s[j] != LF
    {
      assert s[j] == s[offset..end][j - offset];
    }
    var newline := end + |lineBreak| - 1;
    BreakBytes(s, end, lineBreak);
    AtBytes(s, newline, [LF]);
    AbsentBetween(s, offset, newline, [LF]);
    FindIs(s, [LF], offset, newline);
  }

  /** After the data either break counts as one. */
  lemma BreakLength(s: seq<byte>, at: nat, dataBreak: seq<byte>)
    requires dataBreak in [CRLF, [LF]] && at + |dataBreak| <= |s| && s[at..at + |dataBreak|] == dataBreak
    ensures Newline(s, at) == |dataBreak|
  {
    hide At;
    assert s[at] == s[at..at + |dataBreak|][0];
    AtBytes(s, at, CRLF);
    AtBytes(s, at, [LF]);
  }

  /** The decoder behind a size line whose data and the break after it are there. */
  lemma DecodeFromWhole(input: seq<byte>, offset: nat, line: Cut, size: nat, limit: nat, done: ChunkedDecode)
    requires offset <= line.len <= line.total <= |input| && NextLine(input, offset) == Some(line)
    requires TrimAscii(input[offset..line.len]) != []
    requires ParseChunkSize(TrimAscii(input[offset..line.len])) == Some(size) && size > 0
    requires line.total + size <= |input| && Newline(input, line.total + size) > 0
    ensures var next := line.total + size + Newline(input, line.total + size);
            var bytes := AppendLimited(done.bytes, input[line.total..line.total + size], limit);
            var after := done.(bytes := bytes, chunks := done.chunks + 1,
                               truncatedByLimit := done.truncatedByLimit || |bytes| - |done.bytes| < size);
            && next <= |input|
            && DecodeFrom(input, limit, offset, done)
               == if |bytes| >= limit then Decoded(after.(truncatedByLimit := next < |input|))
                  else DecodeFrom(input, limit, next, after)
  {
    hide NextLine, ParseChunkSize, TrimAscii, AppendLimited, Newline;
  }

  /** The decoder's step over a whole chunk, whatever its line breaks. */
  lemma DecodeLooseStep(
    input: seq<byte>, offset: nat, c: Chunk, lineBreak: seq<byte>, dataBreak: seq<byte>, limit: nat, done: ChunkedDecode)
    requires c.Valid() && offset <= |input| && LooseWire(c, lineBreak, dataBreak) <= input[offset..]
    requires lineBreak in [CRLF, [LF]] && dataBreak in [CRLF, [LF]] && |done.bytes| <= limit
    ensures var next := offset + |LooseWire(c, lineBreak, dataBreak)|;
            var bytes := AppendLimited(done.bytes, c.data, limit);
            var after := done.(bytes := bytes, chunks := done.chunks + 1,
                               truncatedByLimit := done.truncatedByLimit || |bytes| - |done.bytes| < |c.data|);
            && next <= |input|
            && DecodeFrom(input, limit, offset, done)
               == if |bytes| >= limit then Decoded(after.(truncatedByLimit := next < |input|))
                  else DecodeFrom(input, limit, next, after)
  {
    hide Find, At, LineEnd, NextLine, ParseChunkSize, TrimAscii, Newline, AppendLimited, SizeLine.Means, SizeLine.Text,
         LooseWire, DecodeFrom;
    LooseParts(input, offset, c, lineBreak, dataBreak);
    var end := offset + |c.line.Text()|;
    LooseLineFound(input, offset, c.line, |c.data|, lineBreak);
    DecoderReadsSize(c.line, |c.data|);
    var start := end + |lineBreak|;
    BreakLength(input, start + |c.data|, dataBreak);
    DecodeFromWhole(input, offset, Cut(end, start), |c.data|, limit, done);
  }

  /** Data that the scanner cannot take for more of a size line. */
  predicate NotDigits(data: seq<byte>) {
    && CR !in data && LF !in data && SEMICOLON !in data
    && exists k :: 0 <= k < |data| && HexValue(data[k]).None? && !IsAsciiWhitespace(data[k])
  }

  lemma {:induction false} KeptByte(s: seq<byte>, k: nat)
    requires k < |s| && !IsAsciiWhitespace(s[k])
    ensures s[k] in WithoutWhitespace(s)
  {
    if k > 0 {
      KeptByte(s[1..], k - 1);
    }
  }

  /** A size line is read with the data behind it when only a bare LF lies between. */
  lemma MisreadLine(line: SizeLine, data: seq<byte>, size: nat)
    requires line.Means(size) && line.extension == [] && NotDigits(data)
    ensures ScannedSize(line.Text() + [LF] + data) == None
  {
    hide Find;
    var s := line.digits + [LF] + data;
    assert line.Text() == line.digits;
    SizeLineShape(line, size);
    forall j | 0 <= j < |s|
      ensures s[j] != SEMICOLON
    {
      assert s[j] in line.digits || s[j] == LF || s[j] in data;
    }
    AbsentBetween(s, 0, |s|, [SEMICOLON]);
    AbsentPastEnd(s, [SEMICOLON]);
    FindNone(s, [SEMICOLON], 0);
    var k :| 0 <= k < |data| && HexValue(data[k]).None? && !IsAsciiWhitespace(data[k]);
    var token := WithoutWhitespace(s);
    assert s[|line.digits| + 1 + k] == data[k];
    KeptByte(s, |line.digits| + 1 + k);
    assert token[0] == line.digits[0];
    var i :| 0 <= i < |token| && token[i] == data[k];
    if HexDigits(token).Some? {
      DigitsAreHex(token, i);
    }
  }

  /** Before a CRLF the scanner does not see the bare LF at all. */
  lemma ScannerMisreads(s: seq<byte>, line: SizeLine, data: seq<byte>, size: nat, later: seq<byte>)
    requires line.Means(size) && line.extension == [] && NotDigits(data)
    requires s == line.Text() + [LF] + data + CRLF + later
    ensures Scan(s) == Invalid(BadChunkSize)
  {
    hide Find, At, ScannedSize, SizeLine.Means;
    SizeLineShape(line, size);
    var first := line.Text() + [LF] + data;
    assert s == first + CRLF + later;
    NoCrInside(line, data);
    AtBytes(s, |first|, CRLF);
    AbsentBetween(s, 0, |first|, CRLF);
    FindIs(s, CRLF, 0, |first|);
    assert s[0..|first|] == first;
    MisreadLine(line, data, size);
  }

  lemma NoCrInside(line: SizeLine, data: seq<byte>)
    requires CR !in data && forall i :: 0 <= i < |line.Text()| ==> line.Text()[i] != CR
    ensures var first := line.Text() + [LF] + data; forall j :: 0 <= j < |first| ==> first[j] != CR
  {
  }

  /**
   The two decoders do not agree on bare line feeds: of a body whose first size line ends
   in one the decoder returns the data, and the scanner reports a bad size, since it
   ends the line only at the next CRLF. With CRLFs they agree (`DecodersInvertEncoder`).
   */
  lemma DecodersDisagreeOnBareLf(c: Chunk, b: Body, tail: seq<byte>, limit: nat)
    requires c.Valid() && c.line.extension == [] && NotDigits(c.data) && b.Valid()
    ensures var s := LooseWire(c, [LF], CRLF) + Encode(b) + tail;
            var all := c.data + Payload(b.chunks);
            && Scan(s) == Invalid(BadChunkSize)
            && Decode(s, limit).Decoded? && Decode(s, limit).decode.bytes == all[..Min(limit, |all|)]
  {
    hide Find, LineEnd, NextLine, ParseChunkSize, ScannedSize, TrimAscii, Newline, HexDigits, AppendLimited, Encode,
         DecodeFrom, NotDigits, SizeLine.Means, SizeLine.Text, Scan;
    var wire := LooseWire(c, [LF], CRLF);
    var s := wire + Encode(b) + tail;
    assert s == c.line.Text() + [LF] + c.data + CRLF + (Encode(b) + tail);
    ScannerMisreads(s, c.line, c.data, |c.data|, Encode(b) + tail);
    assert s[0..] == s && wire <= s && s[|wire|..] == Encode(b) + tail;
    DecodeLooseStep(s, 0, c, [LF], CRLF, limit, NOTHING_DECODED);
    AppendedFirst([], c.data, Payload(b.chunks), limit);
    var bytes := AppendLimited([], c.data, limit);
    if |bytes| < limit {
      var after := NOTHING_DECODED.(bytes := bytes, chunks := 1, truncatedByLimit := |bytes| < |c.data|);
      DecodeEncoded(s, |wire|, b, tail, limit, after);
    }
    assert [] + (c.data + Payload(b.chunks)) == c.data + Payload(b.chunks);
  }
}

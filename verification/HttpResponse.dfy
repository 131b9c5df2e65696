// Well-formed responses, and what the reader makes of them.

module HttpResponse {
  import opened Seqs
  import opened Decimal
  import opened HttpReader

  // A chunk, with its length as any hexadecimal numeral for it.
  datatype ChunkText = ChunkText(size: string, data: string)

  // The header line that frames the body may end in blanks.
  datatype Framing =
    | NoBody
    | WithLength(length: string, pad: string, body: string)
    | Chunked(pad: string, chunks: seq<ChunkText>, end: string)

  // A status line, header lines before and after the one that frames the body, and the body.
  datatype Response = Response(version: string, status: string, reason: string,
                               before: seq<string>, after: seq<string>, framing: Framing)

  // ---------------------------------------------------------------- how a response is written

  // A line, with what follows it.
  function PutLine(line: string, rest: string): string {
    line + (['\r'] + (['\n'] + rest))
  }

  function PutLines(lines: seq<string>, rest: string): string {
    if lines == [] then rest else PutLine(lines[0], PutLines(lines[1..], rest))
  }

  function PutChunks(chunks: seq<ChunkText>, end: string, rest: string): string {
    if chunks == [] then PutLine(end, PutLine([], rest))
    else PutLine(chunks[0].size, PutLine(chunks[0].data, PutChunks(chunks[1..], end, rest)))
  }

  function PutFraming(f: Framing, rest: string): string {
    match f
    case NoBody => rest
    case WithLength(length, pad, _) => PutLine(['C'] + (LENGTH_HEADER + (length + pad)), rest)
    case Chunked(pad, _, _) => PutLine(['T'] + (CHUNKED_HEADER + pad), rest)
  }

  function PutBody(f: Framing, rest: string): string {
    match f
    case NoBody => rest
    case WithLength(_, _, body) => body + rest
    case Chunked(_, chunks, end) => PutChunks(chunks, end, rest)
  }

  // The empty line and the body.
  function PutContent(r: Response, rest: string): string {
    PutLine([], PutBody(r.framing, rest))
  }

  function PutHeaders(r: Response, rest: string): string {
    PutLines(r.before, PutFraming(r.framing, PutLines(r.after, PutContent(r, rest))))
  }

  function PutStatus(r: Response, headers: string): string {
    r.version + ([' '] + (r.status + ([' '] + PutLine(r.reason, headers))))
  }

  function Put(r: Response, rest: string): string {
    PutStatus(r, PutHeaders(r, rest))
  }

  // ---------------------------------------------------------------- when it is well formed

  predicate Text(s: string) {
    forall i :: 0 <= i < |s| ==> s[i] != NUL && s[i] != '\r' && s[i] != '\n'
  }

  predicate StartsWith(s: string, prefix: string) {
    |prefix| <= |s| && s[..|prefix|] == prefix
  }

  predicate IsBlank(c: char) { c == ' ' || c == '\t' }

  predicate Blanks(s: string) {
    forall i :: 0 <= i < |s| ==> IsBlank(s[i])
  }

  // The line names the length, as the reader spells it, and has a number there.
  predicate SetsLength(line: string) {
    && line != [] && line[0] == 'C' && StartsWith(line[1..], LENGTH_HEADER)
    && |line| > 1 + |LENGTH_HEADER| && IsDigit(line[1 + |LENGTH_HEADER|])
  }

  predicate SetsChunked(line: string) {
    line != [] && line[0] == 'T' && StartsWith(line[1..], CHUNKED_HEADER)
  }

  // A header line that does not frame the body as far as the reader can tell.
  predicate OtherHeader(line: string) {
    line != [] && Text(line) && !SetsLength(line) && !SetsChunked(line)
  }

  function HexValue(s: string, n: int): int
    requires forall i :: 0 <= i < |s| ==> IsHex(s[i])
  {
    if s == [] then n else HexValue(s[1..], n * 16 + HexDigit(s[0]))
  }

  predicate DecimalOf(s: string, n: int) {
    (forall i :: 0 <= i < |s| ==> IsDigit(s[i])) && ReadDigits(s, 0) == n
  }

  predicate HexOf(s: string, n: int) {
    (forall i :: 0 <= i < |s| ==> IsHex(s[i])) && HexValue(s, 0) == n
  }

  predicate GoodChunks(chunks: seq<ChunkText>) {
    forall i :: 0 <= i < |chunks| ==> chunks[i].data != [] && HexOf(chunks[i].size, |chunks[i].data|)
  }

  predicate WellFormedHead(r: Response, status: int) {
    && Text(r.version) && (forall i :: 0 <= i < |r.version| ==> r.version[i] != ' ')
    && DecimalOf(r.status, status)
    && Text(r.reason)
    && (forall i :: 0 <= i < |r.before| ==> OtherHeader(r.before[i]))
    && (forall i :: 0 <= i < |r.after| ==> OtherHeader(r.after[i]))
  }

  predicate WellFormedFraming(f: Framing) {
    match f
    case NoBody => true
    case WithLength(length, pad, body) => DecimalOf(length, |body|) && Blanks(pad)
    case Chunked(pad, chunks, end) => Blanks(pad) && GoodChunks(chunks) && HexOf(end, 0)
  }

  predicate WellFormed(r: Response, status: int) {
    WellFormedHead(r, status) && WellFormedFraming(r.framing)
  }

  function Data(chunks: seq<ChunkText>): string {
    if chunks == [] then [] else chunks[0].data + Data(chunks[1..])
  }

  function Body(f: Framing): string {
    match f
    case NoBody => []
    case WithLength(_, _, body) => body
    case Chunked(_, chunks, _) => Data(chunks)
  }

  // ---------------------------------------------------------------- reading tokens

  lemma {:induction false} UntilSkips(x: string, c: char, rest: string)
    requires forall i :: 0 <= i < |x| ==> x[i] != NUL && x[i] != c
    requires c != NUL
    ensures Until(x + ([c] + rest), c) == Got((), rest)
  {
    var s := x + ([c] + rest);
    if x == [] {
      assert s == [c] + rest;
      Behind([c], rest);
    } else {
      assert s[1..] == x[1..] + ([c] + rest);
      UntilSkips(x[1..], c, rest);
    }
  }

  lemma {:induction false} NumberReads(x: string, n: int, c: char, rest: string)
    requires (forall i :: 0 <= i < |x| ==> IsDigit(x[i])) && c != NUL && !IsDigit(c)
    ensures Number(x + ([c] + rest), n) == Got(ReadDigits(x, n), rest)
  {
    var s := x + ([c] + rest);
    if x == [] {
      assert s == [c] + rest;
      Behind([c], rest);
    } else {
      assert s[1..] == x[1..] + ([c] + rest);
      NumberReads(x[1..], n * 10 + (x[0] as int - '0' as int), c, rest);
    }
  }

  lemma {:induction false} ChunkLengthReads(x: string, n: int, rest: string)
    requires forall i :: 0 <= i < |x| ==> IsHex(x[i])
    ensures ChunkLength(x + (['\r'] + rest), n) == Got(HexValue(x, n), rest)
  {
    var s := x + (['\r'] + rest);
    if x == [] {
      assert s == ['\r'] + rest;
      Behind(['\r'], rest);
    } else {
      assert s[1..] == x[1..] + (['\r'] + rest);
      ChunkLengthReads(x[1..], n * 16 + HexDigit(x[0]), rest);
    }
  }

  lemma {:induction false} LiteralMatches(literal: string, last: char, rest: string)
    ensures var m := MatchLiteral(literal + rest, literal, last);
            m.all && m.rest == rest
    decreases |literal|
  {
    if literal == [] {
      assert literal + rest == rest;
    } else {
      assert (literal + rest)[1..] == literal[1..] + rest;
      LiteralMatches(literal[1..], literal[0], rest);
    }
  }

  lemma StartsWithTail(x: string, literal: string)
    requires x != [] && literal != [] && x[0] == literal[0]
    ensures StartsWith(x, literal) <==> StartsWith(x[1..], literal[1..])
  {
    if |literal| <= |x| {
      assert x[..|literal|] == [x[0]] + x[1..][..|literal[1..]|];
      assert literal == [literal[0]] + literal[1..];
      assert x[..|literal|][1..] == x[1..][..|literal[1..]|];
    }
  }

  // A line that does not begin with the literal: the comparison stops within the line or at its carriage
  // return, so the reader goes on inside the line or right behind it.
  lemma {:induction false} LiteralStops(x: string, literal: string, last: char, rest: string) returns (k: nat)
    requires Text(x) && Text(literal) && !StartsWith(x, literal)
    ensures var m := MatchLiteral(x + (['\r'] + rest), literal, last);
            && !m.all && m.last != NUL
            && k <= |x| + 1 && m.rest == (x + ['\r'])[k..] + rest
    decreases |literal|
  {
    var s := x + (['\r'] + rest);
    if x == [] {
      assert s == ['\r'] + rest;
      Behind(['\r'], rest);
      k := 1;
      assert (x + ['\r'])[k..] + rest == rest;
    } else {
      assert s[1..] == x[1..] + (['\r'] + rest);
      if x[0] == literal[0] {
        StartsWithTail(x, literal);
        var j := LiteralStops(x[1..], literal[1..], x[0], rest);
        k := j + 1;
        assert (x + ['\r'])[k..] == (x[1..] + ['\r'])[j..];
      } else {
        k := 1;
        assert (x + ['\r'])[k..] + rest == s[1..];
      }
    }
  }

  // ---------------------------------------------------------------- reading lines

  // From anywhere inside a line, the reader finds the next one.
  lemma {:induction false} RestOfLine(x: string, k: nat, rest: string, code: int, n: int, chunked: bool)
    requires Text(x) && k <= |x| + 1
    ensures Headers((x + ['\r'])[k..] + (['\n'] + rest), code, n, chunked) == Line(rest, code, n, chunked)
  {
    UntilSkips((x + ['\r'])[k..], '\n', rest);
  }

  lemma {:induction false} LengthNamed(tail: string, n: int, chunked: bool)
    ensures var number := Number(tail, n);
            HeaderLine(['C'] + (LENGTH_HEADER + tail), n, chunked)
            == if number.Fail? then Broken(number.code) else Next(number.value, chunked, number.rest)
  {
    Behind(['C'], LENGTH_HEADER + tail);
    LiteralMatches(LENGTH_HEADER, 'C', tail);
  }

  lemma ChunkedNamed(tail: string, n: int)
    ensures HeaderLine(['T'] + (CHUNKED_HEADER + tail), n, false) == Next(n, true, tail)
  {
    Behind(['T'], CHUNKED_HEADER + tail);
    LiteralMatches(CHUNKED_HEADER, 'T', tail);
  }

  lemma Prefixed(line: string, first: char, name: string)
    requires line != [] && line[0] == first && StartsWith(line[1..], name)
    ensures line == [first] + (name + line[1 + |name|..])
  {
    assert line[1..] == name + line[1..][|name|..];
  }

  // A line that names the length without a number behind it.
  lemma {:induction false} NumberMissing(line: string, k: nat, more: string, n: int)
    requires Text(line) && k <= |line| && (k < |line| ==> !IsDigit(line[k]))
    ensures Number(line[k..] + (['\r'] + more), n) == Got(n, (line + ['\r'])[k + 1..] + more)
  {
    var tail := line[k..] + (['\r'] + more);
    assert tail[0] == (line + ['\r'])[k];
    assert tail[1..] == (line + ['\r'])[k + 1..] + more;
  }

  // Any header line that does not frame the body is passed over.
  lemma {:induction false} OtherHeaderSkipped(line: string, rest: string, code: int, n: int, chunked: bool)
    requires OtherHeader(line)
    ensures Line(PutLine(line, rest), code, n, chunked) == Line(rest, code, n, chunked)
  {
    var s := PutLine(line, rest);
    var x, more := line[1..], ['\n'] + rest;
    assert s[1..] == x + (['\r'] + more);
    if line[0] == 'C' && StartsWith(x, LENGTH_HEADER) {
      var k := 1 + |LENGTH_HEADER|;
      Prefixed(line, 'C', LENGTH_HEADER);
      PutLineWithin(['C'], LENGTH_HEADER, line[k..], rest);
      LengthNamed(line[k..] + (['\r'] + more), n, chunked);
      NumberMissing(line, k, more, n);
      RestOfLine(line, k + 1, rest, code, n, chunked);
    } else if line[0] == 'C' {
      LengthIsText();
      var k := LiteralStops(x, LENGTH_HEADER, 'C', more);
      RestOfLine(x, k, rest, code, n, chunked);
    } else if line[0] == 'T' {
      ChunkedIsText();
      var k := LiteralStops(x, CHUNKED_HEADER, 'T', more);
      RestOfLine(x, k, rest, code, n, chunked);
    } else {
      assert (x + ['\r'])[0..] + more == x + (['\r'] + more);
      RestOfLine(x, 0, rest, code, n, chunked);
    }
  }

  lemma LengthIsText()
    ensures Text(LENGTH_HEADER)
  {}

  lemma ChunkedIsText()
    ensures Text(CHUNKED_HEADER)
  {}

  lemma {:induction false} OtherHeadersSkipped(lines: seq<string>, rest: string, code: int, n: int, chunked: bool)
    requires forall i :: 0 <= i < |lines| ==> OtherHeader(lines[i])
    ensures Line(PutLines(lines, rest), code, n, chunked) == Line(rest, code, n, chunked)
  {
    if lines != [] {
      OtherHeaderSkipped(lines[0], PutLines(lines[1..], rest), code, n, chunked);
      OtherHeadersSkipped(lines[1..], rest, code, n, chunked);
    }
  }

  // ---------------------------------------------------------------- reading the body

  lemma ExpectReads(c: char, rest: string)
    requires c != NUL
    ensures Expect([c] + rest, c) == Got((), rest)
  {
    Behind([c], rest);
  }

  lemma LineEndReads(rest: string)
    ensures ExpectCrLf(PutLine([], rest)) == Got((), rest)
  {
    assert PutLine([], rest) == ['\r'] + (['\n'] + rest);
    ExpectReads('\r', ['\n'] + rest);
    ExpectReads('\n', rest);
  }

  lemma ChunkReads(c: ChunkText, rest: string, code: int, body: string)
    requires c.data != [] && HexOf(c.size, |c.data|)
    ensures Chunk(PutLine(c.size, PutLine(c.data, rest)), code, 0, body) == More(0, body + c.data, rest)
  {
    var content := PutLine(c.data, rest);
    ChunkLengthReads(c.size, 0, ['\n'] + content);
    ExpectReads('\n', content);
    var end := ['\r'] + (['\n'] + rest);
    Behind(c.data, end);
    assert PutLine([], rest) == end;
    LineEndReads(rest);
  }

  lemma LastChunkReads(end: string, rest: string, code: int, body: string)
    requires HexOf(end, 0)
    ensures Chunk(PutLine(end, PutLine([], rest)), code, 0, body) == Done(code, body)
  {
    ChunkLengthReads(end, 0, ['\n'] + PutLine([], rest));
    ExpectReads('\n', PutLine([], rest));
    LineEndReads(rest);
  }

  lemma {:induction false} ChunksRead(chunks: seq<ChunkText>, end: string, rest: string, code: int, body: string)
    requires GoodChunks(chunks) && HexOf(end, 0)
    ensures Chunks(PutChunks(chunks, end, rest), code, 0, body) == Outcome(code, body + Data(chunks))
    decreases |chunks|
  {
    if chunks == [] {
      LastChunkReads(end, rest, code, body);
      assert body + [] == body;
    } else {
      ChunkReads(chunks[0], PutChunks(chunks[1..], end, rest), code, body);
      ChunksRead(chunks[1..], end, rest, code, body + chunks[0].data);
      Assoc(body, chunks[0].data, Data(chunks[1..]));
    }
  }

  lemma {:induction false} EmptyLineReads(content: string, code: int, n: int, chunked: bool)
    ensures Line(PutLine([], content), code, n, chunked)
            == if chunked then Chunks(content, code, n, []) else Sized(content, code, n)
  {
    assert PutLine([], content) == ['\r'] + (['\n'] + content);
    Behind(['\r'], ['\n'] + content);
    ExpectReads('\n', content);
  }

  // The empty line and what follows it, once the framing is known.
  lemma {:induction false} ContentReads(r: Response, rest: string, status: int, code: int)
    requires WellFormed(r, status)
    ensures Line(PutContent(r, rest), code,
                 if r.framing.WithLength? then |r.framing.body| else 0, r.framing.Chunked?)
            == Outcome(code, Body(r.framing))
  {
    var content := PutBody(r.framing, rest);
    match r.framing
    case NoBody =>
      EmptyLineReads(content, code, 0, false);
      assert content[..0] == [];
    case WithLength(_, _, body) =>
      EmptyLineReads(content, code, |body|, false);
      Behind(body, rest);
    case Chunked(_, chunks, end) =>
      EmptyLineReads(content, code, 0, true);
      ChunksRead(chunks, end, rest, code, []);
      assert [] + Data(chunks) == Data(chunks);
  }

  lemma PutLineWithin(first: string, name: string, value: string, rest: string)
    ensures PutLine(first + (name + value), rest) == first + (name + (value + (['\r'] + (['\n'] + rest))))
  {}

  lemma LengthLineReads(length: string, pad: string, n: int, rest: string)
    requires DecimalOf(length, n) && Blanks(pad)
    ensures HeaderLine(PutLine(['C'] + (LENGTH_HEADER + (length + pad)), rest), 0, false)
            == Next(n, false, (pad + ['\r'])[1..] + (['\n'] + rest))
  {
    var end := (pad + ['\r'])[1..] + (['\n'] + rest);
    var c := (pad + ['\r'])[0];
    var tail := length + ([c] + end);
    PutLineWithin(['C'], LENGTH_HEADER, length + pad, rest);
    PadSplits(length, pad, rest);
    LengthNamed(tail, 0, false);
    NumberReads(length, 0, c, end);
  }

  lemma PadSplits(length: string, pad: string, rest: string)
    ensures (length + pad) + (['\r'] + (['\n'] + rest))
            == length + ([(pad + ['\r'])[0]] + ((pad + ['\r'])[1..] + (['\n'] + rest)))
  {}

  lemma PadEnds(pad: string, rest: string)
    ensures pad + (['\r'] + (['\n'] + rest)) == (pad + ['\r'])[0..] + (['\n'] + rest)
  {}

  lemma ChunkedLineReads(pad: string, rest: string)
    ensures HeaderLine(PutLine(['T'] + (CHUNKED_HEADER + pad), rest), 0, false)
            == Next(0, true, (pad + ['\r'])[0..] + (['\n'] + rest))
  {
    PutLineWithin(['T'], CHUNKED_HEADER, pad, rest);
    PadEnds(pad, rest);
    ChunkedNamed((pad + ['\r'])[0..] + (['\n'] + rest), 0);
  }

  lemma BlanksAreText(s: string)
    requires Blanks(s)
    ensures Text(s)
  {}

  // The header line that frames the body sets the length or the chunked flag.
  lemma {:induction false} FramingReads(f: Framing, rest: string, code: int)
    requires WellFormedFraming(f)
    ensures Line(PutFraming(f, rest), code, 0, false)
            == Line(rest, code, if f.WithLength? then |f.body| else 0, f.Chunked?)
  {
    match f
    case NoBody =>
    case WithLength(length, pad, body) =>
      BlanksAreText(pad);
      LengthLineReads(length, pad, |body|, rest);
      RestOfLine(pad, 1, rest, code, |body|, false);
    case Chunked(pad, _, _) =>
      BlanksAreText(pad);
      ChunkedLineReads(pad, rest);
      RestOfLine(pad, 0, rest, code, 0, true);
  }

  lemma {:induction false} StatusIsRead(version: string, digits: string, status: int, line: string)
    requires Text(version) && forall i :: 0 <= i < |version| ==> version[i] != ' '
    requires DecimalOf(digits, status)
    ensures Raw(version + ([' '] + (digits + ([' '] + line)))) == Headers(line, status, 0, false)
  {
    UntilSkips(version, ' ', digits + ([' '] + line));
    NumberReads(digits, 0, ' ', line);
  }

  lemma {:induction false} LineSkipped(line: string, rest: string, code: int)
    requires Text(line)
    ensures Headers(PutLine(line, rest), code, 0, false) == Line(rest, code, 0, false)
  {
    PadEnds(line, rest);
    RestOfLine(line, 0, rest, code, 0, false);
  }

  // The status line; what follows is read as headers.
  lemma {:induction false} HeadIsRead(r: Response, status: int, headers: string)
    requires WellFormedHead(r, status)
    ensures Raw(PutStatus(r, headers)) == Line(headers, status, 0, false)
  {
    StatusIsRead(r.version, r.status, status, PutLine(r.reason, headers));
    LineSkipped(r.reason, headers, status);
  }

  // Every well-formed response, whatever comes behind it on the connection, is read as its status and its
  // body; a status of 2xx is reported as zero.
  lemma WellFormedIsRead(r: Response, status: int, rest: string)
    requires WellFormed(r, status)
    ensures Respond(Put(r, rest)) == Outcome(if 200 <= status <= 299 then 0 else status, Body(r.framing))
  {
    var content := PutContent(r, rest);
    var after := PutLines(r.after, content);
    var n := if r.framing.WithLength? then |r.framing.body| else 0;
    HeadIsRead(r, status, PutHeaders(r, rest));
    OtherHeadersSkipped(r.before, PutFraming(r.framing, after), status, 0, false);
    FramingReads(r.framing, after, status);
    OtherHeadersSkipped(r.after, content, status, n, r.framing.Chunked?);
    ContentReads(r, rest, status, status);
  }

  // What the database client takes for a successful write: a 2xx status and no body.
  lemma WriteSucceedsExactlyWhen(r: Response, status: int, rest: string)
    requires WellFormed(r, status) && 0 < status
    ensures var o := Respond(Put(r, rest));
            o.code == 0 && o.body == "" <==> 200 <= status <= 299 && Body(r.framing) == ""
  {
    WellFormedIsRead(r, status, rest);
  }

  // However the response arrives, in non-empty pieces of at most the buffer's size, the reader returns
  // its status and body.
  method ReadWellFormed(r: Response, status: int, rest: string, buffer: string, pieces: seq<string>)
    returns (code: int, resp: string)
    requires WellFormed(r, status) && Flatten(pieces) == Put(r, rest)
    requires forall i :: 0 <= i < |pieces| ==> 0 < |pieces[i]| <= |buffer|
    ensures code == (if 200 <= status <= 299 then 0 else status) && resp == Body(r.framing)
    ensures 0 < status ==> (code == 0 <==> 200 <= status <= 299)
  {
    WellFormedIsRead(r, status, rest);
    var connection := new Connection(buffer, pieces);
    code, resp := connection.ReadResponse();
  }
}

// Bodies that break off: what the reader makes of a connection that fails in the middle of one.

module IncompleteBodies {
  import opened Seqs
  import opened Decimal
  import opened HttpReader
  import opened HttpResponse
  import opened HeaderSpelling

  // ---------------------------------------------------------------- bodies of known length

  lemma {:induction false} LengthIsSet(length: string, pad: string, n: nat, rest: string, code: int)
    requires DecimalOf(length, n) && Blanks(pad)
    ensures Line(PutLine(Field(LENGTH_NAME, " ", length, pad), rest), code, 0, false) == Line(rest, code, n, false)
  {
    BlanksAreText(pad);
    LengthFieldIs(length, pad);
    LengthLineReads(length, pad, n, rest);
    RestOfLine(pad, 1, rest, code, n, false);
  }

  // Whatever comes behind a Content-Length of n, the first n bytes of it are the body, and if fewer come
  // before the connection fails, these are: the status does not tell.
  lemma ShortBodyIsAccepted(r: Response, status: int, length: string, pad: string, n: nat, content: string)
    requires WellFormedHead(r, status) && DecimalOf(length, n) && Blanks(pad)
    ensures Respond(PutWithLine(r, Field(LENGTH_NAME, " ", length, pad), content))
            == Outcome(if 200 <= status <= 299 then 0 else status, content[..Min(n, |content|)])
  {
    var line := Field(LENGTH_NAME, " ", length, pad);
    var behind := PutLine([], content);
    HeadIsRead(r, status, PutLines(r.before, PutLine(line, PutLines(r.after, behind))));
    OtherHeadersSkipped(r.before, PutLine(line, PutLines(r.after, behind)), status, 0, false);
    LengthIsSet(length, pad, n, PutLines(r.after, behind), status);
    OtherHeadersSkipped(r.after, behind, status, n, false);
    EmptyLineReads(content, status, n, false);
  }

  // ---------------------------------------------------------------- chunked bodies

  lemma {:induction false} HexLonger(c: char, y: string, n: int)
    requires IsHex(c) && forall i :: 0 <= i < |y| ==> IsHex(y[i])
    ensures (forall i :: 0 <= i < |[c] + y| ==> IsHex(([c] + y)[i]))
    ensures HexValue([c] + y, n) == HexValue(y, n * 16 + HexDigit(c))
  {
    assert ([c] + y)[1..] == y;
  }

  lemma {:induction false} HexLength(s: string, n: int) returns (x: string)
    requires ChunkLength(s, n).Got?
    ensures (forall i :: 0 <= i < |x| ==> IsHex(x[i])) && HexValue(x, n) == ChunkLength(s, n).value
    ensures s == x + (['\r'] + ChunkLength(s, n).rest)
  {
    if IsHex(s[0]) {
      var y := HexLength(s[1..], n * 16 + HexDigit(s[0]));
      HexLonger(s[0], y, n);
      x := [s[0]] + y;
      Assoc([s[0]], y, ['\r'] + ChunkLength(s, n).rest);
      assert s == [s[0]] + s[1..];
    } else {
      x := [];
    }
  }

  lemma {:induction false} HexIsNatural(x: string, n: int)
    requires 0 <= n && forall i :: 0 <= i < |x| ==> IsHex(x[i])
    ensures 0 <= HexValue(x, n)
  {
    if x != [] {
      HexIsNatural(x[1..], n * 16 + HexDigit(x[0]));
    }
  }

  lemma ExpectGot(s: string, c: char)
    requires Expect(s, c).Got?
    ensures s == [c] + Expect(s, c).rest
  {}

  lemma LineEndGot(s: string)
    requires ExpectCrLf(s).Got?
    ensures s == PutLine([], ExpectCrLf(s).rest)
  {
    ExpectGot(s, '\r');
    ExpectGot(Expect(s, '\r').rest, '\n');
  }

  // The line with the length of a chunk.
  lemma LengthLineGot(s: string) returns (x: string)
    requires ChunkLength(s, 0).Got? && Expect(ChunkLength(s, 0).rest, '\n').Got?
    ensures HexOf(x, ChunkLength(s, 0).value) && 0 <= ChunkLength(s, 0).value
    ensures s == PutLine(x, Expect(ChunkLength(s, 0).rest, '\n').rest)
  {
    x := HexLength(s, 0);
    HexIsNatural(x, 0);
    ExpectGot(ChunkLength(s, 0).rest, '\n');
  }

  // A last chunk that is accepted is one.
  lemma LastChunkAccepted(s: string, code: int, body: string) returns (end: string, rest: string)
    requires 0 <= code && Chunk(s, code, 0, body).Done? && 0 <= Chunk(s, code, 0, body).code
    ensures HexOf(end, 0) && s == PutLine(end, PutLine([], rest))
    ensures Chunk(s, code, 0, body) == Done(code, body)
  {
    end := LengthLineGot(s);
    var line := Expect(ChunkLength(s, 0).rest, '\n');
    LineEndGot(line.rest);
    rest := ExpectCrLf(line.rest).rest;
  }

  // A chunk behind which the reader goes on is complete.
  lemma ChunkAccepted(s: string, code: int, body: string) returns (c: ChunkText)
    requires Chunk(s, code, 0, body).More?
    ensures c.data != [] && HexOf(c.size, |c.data|)
    ensures var more := Chunk(s, code, 0, body);
            && more.left == 0 && more.body == body + c.data
            && s == PutLine(c.size, PutLine(c.data, more.rest))
  {
    var size := LengthLineGot(s);
    var line := Expect(ChunkLength(s, 0).rest, '\n');
    var taken := Available(ChunkLength(s, 0).value, line.rest);
    LineEndGot(line.rest[taken..]);
    c := ChunkText(size, line.rest[..taken]);
    SplitAt(line.rest, taken);
    assert PutLine([], ExpectCrLf(line.rest[taken..]).rest)
           == ['\r'] + (['\n'] + ExpectCrLf(line.rest[taken..]).rest);
  }

  ghost predicate IsChunked(s: string, chunks: seq<ChunkText>, end: string, rest: string) {
    GoodChunks(chunks) && HexOf(end, 0) && s == PutChunks(chunks, end, rest)
  }

  lemma {:induction false} ChunksAccepted(s: string, code: int, body: string)
    returns (chunks: seq<ChunkText>, end: string, rest: string)
    requires 0 <= code && 0 <= Chunks(s, code, 0, body).code
    ensures IsChunked(s, chunks, end, rest)
    decreases |s|
  {
    if Chunk(s, code, 0, body).Done? {
      chunks := [];
      end, rest := LastChunkAccepted(s, code, body);
    } else {
      var c := ChunkAccepted(s, code, body);
      var more := Chunk(s, code, 0, body);
      var later;
      later, end, rest := ChunksAccepted(more.rest, code, more.body);
      chunks := [c] + later;
      assert chunks[1..] == later;
    }
  }

  lemma {:induction false} CodingIsSet(pad: string, rest: string, code: int)
    requires Blanks(pad)
    ensures Line(PutLine(Field(CODING_NAME, " ", CODING, pad), rest), code, 0, false) == Line(rest, code, 0, true)
  {
    BlanksAreText(pad);
    ChunkedFieldIs(pad);
    ChunkedLineReads(pad, rest);
    RestOfLine(pad, 0, rest, code, 0, true);
  }

  lemma {:induction false} CodedContentIsRead(r: Response, status: int, pad: string, content: string)
    requires WellFormedHead(r, status) && Blanks(pad)
    ensures Raw(PutWithLine(r, Field(CODING_NAME, " ", CODING, pad), content)) == Chunks(content, status, 0, [])
  {
    var line := Field(CODING_NAME, " ", CODING, pad);
    var behind := PutLine([], content);
    HeadIsRead(r, status, PutLines(r.before, PutLine(line, PutLines(r.after, behind))));
    OtherHeadersSkipped(r.before, PutLine(line, PutLines(r.after, behind)), status, 0, false);
    CodingIsSet(pad, PutLines(r.after, behind), status);
    OtherHeadersSkipped(r.after, behind, status, 0, true);
    EmptyLineReads(content, status, 0, true);
  }

  // A chunked body is accepted if and only if it is complete: well-formed chunks up to the empty one.
  lemma ChunkedBodyIsAcceptedExactlyWhen(r: Response, status: int, pad: string, content: string)
    requires WellFormedHead(r, status) && Blanks(pad) && 0 <= status
    ensures 0 <= Respond(PutWithLine(r, Field(CODING_NAME, " ", CODING, pad), content)).code
            <==> exists chunks, end, rest :: IsChunked(content, chunks, end, rest)
  {
    CodedContentIsRead(r, status, pad, content);
    if 0 <= Chunks(content, status, 0, []).code {
      var chunks, end, rest := ChunksAccepted(content, status, []);
    }
    if chunks, end, rest :| IsChunked(content, chunks, end, rest) {
      ChunksRead(chunks, end, rest, status, []);
    }
  }
}

// The header lines that frame a body, in all the spellings that sections 3.2 and 4 of RFC 7230 make
// equivalent: which of them the reader understands.

module HeaderSpelling {
  import opened Seqs
  import opened Decimal
  import opened HttpReader
  import opened HttpResponse

  function Lower(c: char): char {
    if 'A' <= c <= 'Z' then (c as int + 32) as char else c
  }

  // Equal but for the case of letters.
  predicate SameName(s: string, name: string) {
    |s| == |name| && forall i :: 0 <= i < |s| ==> Lower(s[i]) == Lower(name[i])
  }

  const LENGTH_NAME := "Content-Length"
  const CODING_NAME := "Transfer-Encoding"
  const CODING := "chunked"

  // A header field, with any blanks before and after its value.
  function Field(name: string, blank: string, value: string, pad: string): string {
    name + ([':'] + (blank + (value + pad)))
  }

  // A response with one more header line and any content.
  function PutWithLine(r: Response, line: string, content: string): string {
    PutStatus(r, PutLines(r.before, PutLine(line, PutLines(r.after, PutLine([], content)))))
  }

  lemma {:induction false} PutLinesThen(lines: seq<string>, line: string, rest: string)
    ensures PutLines(lines + [line], rest) == PutLines(lines, PutLine(line, rest))
  {
    if lines == [] {
      assert lines + [line] == [line];
    } else {
      assert (lines + [line])[1..] == lines[1..] + [line];
      PutLinesThen(lines[1..], line, rest);
    }
  }

  // With a header line that does not frame the body for the reader, no body is read.
  lemma NoBodyIsRead(r: Response, status: int, line: string, content: string)
    requires WellFormedHead(r, status) && OtherHeader(line)
    ensures Respond(PutWithLine(r, line, content)) == Outcome(if 200 <= status <= 299 then 0 else status, [])
  {
    var r' := r.(before := r.before + [line], framing := NoBody);
    PutLinesThen(r.before, line, PutLines(r.after, PutLine([], content)));
    WellFormedIsRead(r', status, content);
  }

  lemma NameIsText(s: string, name: string)
    requires SameName(s, name) && Text(name)
    ensures Text(s)
  {}

  // Where the parts of a header field lie.
  lemma FieldParts(name: string, blank: string, value: string, pad: string)
    ensures var line := Field(name, blank, value, pad);
            && |line| == |name| + 1 + |blank| + |value| + |pad|
            && line[..|name|] == name && line[|name|] == ':'
            && line[|name| + 1..|name| + 1 + |blank|] == blank
            && line[|name| + 1 + |blank|..|name| + 1 + |blank| + |value|] == value
  {}

  lemma FieldIsText(name: string, blank: string, value: string, pad: string)
    requires Text(name) && Blanks(blank) && Text(value) && Blanks(pad)
    ensures Text(Field(name, blank, value, pad))
  {}

  lemma {:induction false} LengthSpelled(line: string)
    requires SetsLength(line)
    ensures |line| > 16 && line[..14] == LENGTH_NAME && line[15] == ' ' && IsDigit(line[16])
  {
    Prefixed(line, 'C', LENGTH_HEADER);
    assert line[..16] == ['C'] + LENGTH_HEADER;
    assert line[..14] == line[..16][..14] && line[15] == line[..16][15];
  }

  lemma {:induction false} ChunkedSpelled(line: string)
    requires SetsChunked(line)
    ensures |line| >= 26 && line[..17] == CODING_NAME && line[18] == ' ' && line[19..26] == CODING
  {
    Prefixed(line, 'T', CHUNKED_HEADER);
    assert line[..26] == ['T'] + CHUNKED_HEADER;
    assert line[..17] == line[..26][..17] && line[18] == line[..26][18] && line[19..26] == line[..26][19..];
  }

  // Between a name and a value that does not begin with a blank there is exactly one blank.
  lemma OneBlank(name: string, blank: string, value: string, pad: string)
    requires Blanks(blank) && value != [] && !IsBlank(value[0])
    requires var line := Field(name, blank, value, pad);
             |line| > |name| + 2 && line[|name| + 1] == ' ' && !IsBlank(line[|name| + 2])
    ensures blank == " "
  {
    var line := Field(name, blank, value, pad);
    assert forall i :: 0 <= i < |blank| ==> line[|name| + 1 + i] == blank[i];
    assert line[|name| + 1 + |blank|] == value[0];
  }

  lemma LengthFieldSpelled(name: string, blank: string, digits: string, pad: string)
    requires |name| == 14 && Blanks(blank) && digits != [] && IsDigit(digits[0])
    requires SetsLength(Field(name, blank, digits, pad))
    ensures name == LENGTH_NAME && blank == " "
  {
    LengthSpelled(Field(name, blank, digits, pad));
    FieldParts(name, blank, digits, pad);
    OneBlank(name, blank, digits, pad);
  }

  lemma NamesAreText()
    ensures |LENGTH_NAME| == 14 && Text(LENGTH_NAME) && Lower(LENGTH_NAME[0]) == 'c'
    ensures |CODING_NAME| == 17 && Text(CODING_NAME) && Lower(CODING_NAME[0]) == 't'
    ensures |CODING| == 7 && Text(CODING) && !IsBlank(CODING[0])
  {}

  // A Content-Length field in another spelling is an ordinary header to the reader.
  lemma OtherLengthField(name: string, blank: string, digits: string, pad: string)
    requires SameName(name, LENGTH_NAME) && Blanks(blank) && Blanks(pad)
    requires digits != [] && forall i :: 0 <= i < |digits| ==> IsDigit(digits[i])
    requires !(name == LENGTH_NAME && blank == " ")
    ensures OtherHeader(Field(name, blank, digits, pad))
  {
    NamesAreText();
    NameIsText(name, LENGTH_NAME);
    FieldIsText(name, blank, digits, pad);
    assert Field(name, blank, digits, pad)[0] == name[0];
    if SetsLength(Field(name, blank, digits, pad)) {
      LengthFieldSpelled(name, blank, digits, pad);
    }
  }

  lemma LengthFieldIs(digits: string, pad: string)
    ensures Field(LENGTH_NAME, " ", digits, pad) == ['C'] + (LENGTH_HEADER + (digits + pad))
  {
    assert LENGTH_NAME + ([':'] + " ") == ['C'] + LENGTH_HEADER;
  }

  // The body behind a Content-Length field is read exactly when the field has the reader's spelling, or
  // there is nothing to read.
  lemma LengthFieldIsRead(r: Response, status: int, name: string, blank: string, digits: string, pad: string,
                          body: string, rest: string)
    requires WellFormedHead(r, status)
    requires SameName(name, LENGTH_NAME) && Blanks(blank) && Blanks(pad)
    requires digits != [] && DecimalOf(digits, |body|)
    ensures Respond(PutWithLine(r, Field(name, blank, digits, pad), body + rest))
            == Outcome(if 200 <= status <= 299 then 0 else status, body)
            <==> (name == LENGTH_NAME && blank == " ") || body == []
  {
    var line := Field(name, blank, digits, pad);
    if name == LENGTH_NAME && blank == " " {
      var r' := r.(framing := WithLength(digits, pad, body));
      LengthFieldIs(digits, pad);
      WellFormedIsRead(r', status, rest);
    } else {
      OtherLengthField(name, blank, digits, pad);
      NoBodyIsRead(r, status, line, body + rest);
    }
  }

  // For instance, five bytes that are not read.
  lemma LowerCaseLengthIsIgnored(r: Response, status: int)
    requires WellFormedHead(r, status)
    ensures Respond(PutWithLine(r, "content-length: 5", "hello"))
            == Outcome(if 200 <= status <= 299 then 0 else status, [])
  {
    var line := Field("content-length", " ", "5", "");
    assert line == "content-length: 5";
    assert line[0] == 'c';
    NoBodyIsRead(r, status, line, "hello");
  }

  lemma ChunkedFieldSpelled(name: string, blank: string, coding: string, pad: string)
    requires |name| == 17 && Blanks(blank) && |coding| == 7 && !IsBlank(coding[0])
    requires SetsChunked(Field(name, blank, coding, pad))
    ensures name == CODING_NAME && blank == " " && coding == CODING
  {
    NamesAreText();
    ChunkedSpelled(Field(name, blank, coding, pad));
    FieldParts(name, blank, coding, pad);
    OneBlank(name, blank, coding, pad);
  }

  lemma NotABlank(s: string, name: string)
    requires SameName(s, name) && name != [] && !IsBlank(name[0])
    ensures s != [] && !IsBlank(s[0])
  {}

  // A Transfer-Encoding field in another spelling is an ordinary header to the reader.
  lemma OtherCodingField(name: string, blank: string, coding: string, pad: string)
    requires SameName(name, CODING_NAME) && SameName(coding, CODING) && Blanks(blank) && Blanks(pad)
    requires !(name == CODING_NAME && blank == " " && coding == CODING)
    ensures OtherHeader(Field(name, blank, coding, pad))
  {
    NamesAreText();
    NameIsText(name, CODING_NAME);
    NameIsText(coding, CODING);
    FieldIsText(name, blank, coding, pad);
    NotABlank(coding, CODING);
    assert Field(name, blank, coding, pad)[0] == name[0];
    if SetsChunked(Field(name, blank, coding, pad)) {
      ChunkedFieldSpelled(name, blank, coding, pad);
    }
  }

  lemma ChunkedFieldIs(pad: string)
    ensures Field(CODING_NAME, " ", CODING, pad) == ['T'] + (CHUNKED_HEADER + pad)
  {
    FieldAssoc(CODING_NAME, " ", CODING, pad);
    assert CODING_NAME + ([':'] + (" " + CODING)) == ['T'] + CHUNKED_HEADER;
    Assoc(['T'], CHUNKED_HEADER, pad);
  }

  lemma FieldAssoc(name: string, blank: string, value: string, pad: string)
    ensures Field(name, blank, value, pad) == (name + ([':'] + (blank + value))) + pad
  {}

  lemma {:induction false} DataIsNotEmpty(chunks: seq<ChunkText>)
    requires GoodChunks(chunks)
    ensures Data(chunks) == [] <==> chunks == []
  {
    if chunks != [] {
      assert chunks[0].data != [];
    }
  }

  // The same for chunked bodies.
  lemma {:induction false} CodingFieldIsRead(r: Response, status: int, name: string, blank: string, coding: string,
                                             pad: string, chunks: seq<ChunkText>, end: string, rest: string)
    requires WellFormedHead(r, status) && GoodChunks(chunks) && HexOf(end, 0)
    requires SameName(name, CODING_NAME) && SameName(coding, CODING) && Blanks(blank) && Blanks(pad)
    ensures Respond(PutWithLine(r, Field(name, blank, coding, pad), PutChunks(chunks, end, rest)))
            == Outcome(if 200 <= status <= 299 then 0 else status, Data(chunks))
            <==> (name == CODING_NAME && blank == " " && coding == CODING) || chunks == []
  {
    DataIsNotEmpty(chunks);
    if name == CODING_NAME && blank == " " && coding == CODING {
      ChunkedFieldIs(pad);
      WellFormedIsRead(r.(framing := Chunked(pad, chunks, end)), status, rest);
    } else {
      OtherCodingField(name, blank, coding, pad);
      NoBodyIsRead(r, status, Field(name, blank, coding, pad), PutChunks(chunks, end, rest));
    }
  }
}

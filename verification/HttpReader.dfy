// The hand-written reader of HTTP responses. It refills one buffer from the socket whenever it runs out
// in the middle of anything, so the thing to prove is that it never notices: what it returns is a
// function of the bytes received, however recv splits them.

module HttpReader {
  import opened Seqs
  import opened Decimal

  // Bytes are modelled as characters; zero stands for the end of input as it does in the source.
  const NUL := '\0'

  // ---------------------------------------------------------------- the reader on a byte stream

  datatype Result<T> = Got(value: T, rest: string) | Fail(code: int)

  predicate IsHex(c: char) { IsDigit(c) || 'A' <= c <= 'F' || 'a' <= c <= 'f' }

  function HexDigit(c: char): (d: int)
    requires IsHex(c)
    ensures 0 <= d < 16
  {
    if IsDigit(c) then c as int - '0' as int
    else if 'A' <= c <= 'F' then c as int - 'A' as int + 10
    else c as int - 'a' as int + 10
  }

  lemma HexDigitsAre(c: char)
    ensures IsHex(c) <==> c in "0123456789ABCDEFabcdef"
    ensures IsHex(c) ==>
              && 0 <= HexDigit(c) < 16
              && (c == "0123456789ABCDEF"[HexDigit(c)] || c == "0123456789abcdef"[HexDigit(c)])
  {}

  // Skip everything up to and including a character.
  function Until(s: string, c: char): (r: Result<()>)
    ensures r.Fail? ==> r.code == -7
  {
    if s == [] || s[0] == NUL then Fail(-7)
    else if s[0] == c then Got((), s[1..])
    else Until(s[1..], c)
  }

  // Read digits onto n, and the character behind them.
  function Number(s: string, n: int): (r: Result<int>)
    ensures r.Fail? ==> r.code == -7
  {
    if s == [] || s[0] == NUL then Fail(-7)
    else if IsDigit(s[0]) then Number(s[1..], n * 10 + (s[0] as int - '0' as int))
    else Got(n, s[1..])
  }

  // Read hexadecimal digits onto n, and the carriage return behind them.
  function ChunkLength(s: string, n: int): (r: Result<int>)
    ensures r.Fail? ==> r.code == -7 || r.code == -8
    ensures s == [] ==> r == Fail(-7)
  {
    if s == [] || s[0] == NUL then Fail(-7)
    else if IsHex(s[0]) then ChunkLength(s[1..], n * 16 + HexDigit(s[0]))
    else if s[0] != '\r' then Fail(-8)
    else Got(n, s[1..])
  }

  function Expect(s: string, c: char): (r: Result<()>)
    ensures r.Got? <==> s != [] && s[0] == c != NUL
    ensures r.Fail? ==> r.code == -9
  {
    if s != [] && s[0] != NUL && s[0] == c then Got((), s[1..]) else Fail(-9)
  }

  // A line end.
  function ExpectCrLf(s: string): (r: Result<()>)
    ensures r.Fail? ==> r.code == -9
  {
    var cr := Expect(s, '\r');
    if cr.Fail? then cr else Expect(cr.rest, '\n')
  }

  // The reader's progress through a literal: did all of it match, and the last character read.
  datatype Matched = Matched(all: bool, last: char, rest: string)

  function MatchLiteral(s: string, literal: string, last: char): Matched
    decreases |literal|
  {
    if literal == [] then Matched(true, last, s)
    else if s == [] then Matched(false, NUL, [])
    else if s[0] != literal[0] then Matched(false, s[0], s[1..])
    else MatchLiteral(s[1..], literal[1..], s[0])
  }

  const LENGTH_HEADER := "ontent-Length: "
  const CHUNKED_HEADER := "ransfer-Encoding: chunked"

  // What the whole reading comes to: the raw code and the body collected so far.
  datatype Outcome = Outcome(code: int, body: string)

  // The rest of a body of known length.
  function Sized(s: string, code: int, n: int): Outcome {
    Outcome(code, s[..Available(n, s)])
  }

  // One chunk: the reading ends, or goes on with what is left of the length, the body so far and the
  // bytes behind the chunk.
  datatype AfterChunk = Done(code: int, body: string) | More(left: int, body: string, rest: string)

  function Chunk(s: string, code: int, n: int, body: string): (r: AfterChunk)
    ensures r.More? ==> |r.rest| < |s|
  {
    ChunkShrinks(s, n);
    var length := ChunkLength(s, n);
    if length.Fail? then Done(length.code, body)
    else
      var line := Expect(length.rest, '\n');
      if line.Fail? then Done(line.code, body)
      else if length.value == 0 then
        var end := ExpectCrLf(line.rest);
        Done(if end.Fail? then end.code else code, body)
      else
        var taken := Available(length.value, line.rest);
        var end := ExpectCrLf(line.rest[taken..]);
        if end.Fail? then Done(end.code, body + line.rest[..taken])
        else More(length.value - taken, body + line.rest[..taken], end.rest)
  }

  // Chunks up to the empty one, behind what was collected before.
  function Chunks(s: string, code: int, n: int, body: string): Outcome
    decreases |s|
  {
    match Chunk(s, code, n, body)
    case Done(code', body') => Outcome(code', body')
    case More(left, body', rest) => Chunks(rest, code, left, body')
  }

  // How much of n bytes the stream can give.
  function Available(n: int, s: string): nat {
    if n <= 0 then 0 else Min(n, |s|)
  }

  lemma {:induction false} ChunkShrinks(s: string, n: int)
    ensures ChunkLength(s, n).Got? ==> |ChunkLength(s, n).rest| < |s|
  {
    if s != [] && s[0] != NUL && IsHex(s[0]) {
      ChunkShrinks(s[1..], n * 16 + HexDigit(s[0]));
    }
  }

  lemma {:induction false} UntilShrinks(s: string, c: char)
    ensures Until(s, c).Got? ==> |Until(s, c).rest| < |s|
  {
    if s != [] && s[0] != NUL && s[0] != c {
      UntilShrinks(s[1..], c);
    }
  }

  lemma {:induction false} NumberShrinks(s: string, n: int)
    ensures Number(s, n).Got? ==> |Number(s, n).rest| < |s|
  {
    if s != [] && s[0] != NUL && IsDigit(s[0]) {
      NumberShrinks(s[1..], n * 10 + (s[0] as int - '0' as int));
    }
  }

  lemma {:induction false} MatchShrinks(s: string, literal: string, last: char)
    ensures |MatchLiteral(s, literal, last).rest| <= |s|
    decreases |literal|
  {
    if literal != [] && s != [] && s[0] == literal[0] {
      MatchShrinks(s[1..], literal[1..], s[0]);
    }
  }

  // Header lines from the end of the current one on.
  function Headers(s: string, code: int, n: int, chunked: bool): Outcome
    decreases |s|, 1
  {
    UntilShrinks(s, '\n');
    var line := Until(s, '\n');
    if line.Fail? then Outcome(line.code, []) else Line(line.rest, code, n, chunked)
  }

  // One header line: broken off, read past its name so that the next one follows, or the empty line
  // in front of the body.
  datatype AfterLine = Broken(code: int) | Next(n: int, chunked: bool, rest: string) | Content(rest: string)

  function HeaderLine(s: string, n: int, chunked: bool): (r: AfterLine)
    ensures r.Next? ==> |r.rest| < |s|
    ensures r.Broken? ==> r.code == -7 || r.code == -9 || r.code == -10
    ensures s == [] ==> r == Broken(-10)
  {
    if s == [] || s[0] == NUL then Broken(-10)
    else if s[0] == 'C' then
      MatchShrinks(s[1..], LENGTH_HEADER, 'C');
      var m := MatchLiteral(s[1..], LENGTH_HEADER, 'C');
      if !m.all then
        if m.last == NUL then Broken(-10) else Next(n, chunked, m.rest)
      else
        NumberShrinks(m.rest, n);
        var number := Number(m.rest, n);
        if number.Fail? then Broken(number.code) else Next(number.value, chunked, number.rest)
    else if s[0] == 'T' then
      MatchShrinks(s[1..], CHUNKED_HEADER, 'T');
      var m := MatchLiteral(s[1..], CHUNKED_HEADER, 'T');
      if !m.all && m.last == NUL then Broken(-10) else Next(n, chunked || m.all, m.rest)
    else if s[0] == '\r' then
      var lf := Expect(s[1..], '\n');
      if lf.Fail? then Broken(lf.code) else Content(lf.rest)
    else
      Next(n, chunked, s[1..])
  }

  function Line(s: string, code: int, n: int, chunked: bool): Outcome
    decreases |s|, 0
  {
    match HeaderLine(s, n, chunked)
    case Broken(code') => Outcome(code', [])
    case Next(n', chunked', rest) => Headers(rest, code, n', chunked')
    case Content(rest) => if chunked then Chunks(rest, code, n, []) else Sized(rest, code, n)
  }

  function Raw(s: string): Outcome {
    var space := Until(s, ' ');
    if space.Fail? then Outcome(space.code, [])
    else
      var status := Number(space.rest, 0);
      if status.Fail? then Outcome(status.code, [])
      else Headers(status.rest, status.value, 0, false)
  }

  // Success codes are reported as zero.
  function Reported(code: int): (r: int)
    ensures 200 <= code <= 299 ==> r == 0
    ensures !(200 <= code <= 299) ==> r == code
  {
    if 200 <= code < 300 then 0 else code
  }

  function Respond(s: string): Outcome {
    var raw := Raw(s);
    Outcome(Reported(raw.code), raw.body)
  }

  // ---------------------------------------------------------------- the reader on a socket

  function Flatten(fragments: seq<string>): string {
    if fragments == [] then [] else fragments[0] + Flatten(fragments[1..])
  }

  class Connection {
    var header: string
    var len: int
    var iovLen: int
    var incoming: seq<string>

    // What recv will deliver: non-empty pieces that fit the buffer, and then an error.
    ghost predicate Valid()
      reads this
    {
      && 0 <= len && -1 <= iovLen <= |header|
      && forall i :: 0 <= i < |incoming| ==> 0 < |incoming[i]| <= |header|
    }

    // The bytes not yet consumed.
    ghost function Remaining(): string
      requires Valid()
      reads this
    {
      (if len < iovLen then header[len..iovLen] else []) + Flatten(incoming)
    }

    // Right after the request was written: the buffer holds nothing of the response.
    constructor (buffer: string, incoming: seq<string>)
      requires forall i :: 0 <= i < |incoming| ==> 0 < |incoming[i]| <= |buffer|
      ensures Valid() && Remaining() == Flatten(incoming)
    {
      header, len, iovLen, this.incoming := buffer, |buffer|, |buffer|, incoming;
      new;
      assert [] + Flatten(incoming) == Flatten(incoming);
    }

    // Overwrite the front of the buffer with the next piece.
    method Recv()
      requires Valid()
      modifies this`header, this`iovLen, this`incoming
      ensures Valid() && |header| == |old(header)|
      ensures old(incoming) == [] ==> iovLen == -1 && incoming == [] && header == old(header)
      ensures old(incoming) != [] ==>
                && iovLen == |old(incoming)[0]| && incoming == old(incoming)[1..]
                && header[..iovLen] == old(incoming)[0]
    {
      if incoming == [] {
        iovLen := -1;
      } else {
        iovLen := |incoming[0]|;
        header := incoming[0] + header[iovLen..];
        incoming := incoming[1..];
      }
    }

    method NoMore() returns (none: bool)
      requires Valid()
      modifies this`header, this`len, this`iovLen, this`incoming
      ensures Valid() && Remaining() == old(Remaining())
      ensures none <==> Remaining() == []
      ensures !none ==> len < iovLen
    {
      if len < iovLen {
        assert header[len..iovLen] != [];
        return false;
      }
      assert [] + Flatten(incoming) == Flatten(incoming);
      len := 0;
      Recv();
      assert header[..0] == [];
      if iovLen != -1 {
        assert header[len..iovLen] == old(incoming)[0];
      }
      none := iovLen == -1;
    }

    method GetNextChar() returns (ch: char)
      requires Valid()
      modifies this
      ensures Valid()
      ensures old(Remaining()) == [] ==> ch == NUL && Remaining() == []
      ensures old(Remaining()) != [] ==> ch == old(Remaining())[0] && Remaining() == old(Remaining())[1..]
    {
      var none := NoMore();
      if none {
        return NUL;
      }
      PieceOfBuffer(header, len, iovLen, Flatten(incoming), 1);
      ch := header[len];
      len := len + 1;
    }

    // Fail if the stream ends; true when the character was found.
    method SkipUntil(c: char) returns (ok: bool)
      requires Valid()
      modifies this
      ensures Valid()
      ensures var r := Until(old(Remaining()), c);
              (ok <==> r.Got?) && (ok ==> Remaining() == r.rest)
    {
      ghost var goal := Until(Remaining(), c);
      while true
        invariant Valid() && Until(Remaining(), c) == goal
        decreases |Remaining()|
      {
        var ch := GetNextChar();
        if ch == NUL {
          return false;
        }
        if ch == c {
          return true;
        }
      }
    }

    method GetNumber(n: int) returns (ok: bool, value: int)
      requires Valid()
      modifies this
      ensures Valid()
      ensures var r := Number(old(Remaining()), n);
              (ok <==> r.Got?) && (ok ==> value == r.value && Remaining() == r.rest)
    {
      ghost var goal := Number(Remaining(), n);
      value := n;
      while true
        invariant Valid() && Number(Remaining(), value) == goal
        decreases |Remaining()|
      {
        var ch := GetNextChar();
        if ch == NUL {
          return false, value;
        }
        if IsDigit(ch) {
          value := value * 10 + (ch as int - '0' as int);
        } else {
          return true, value;
        }
      }
    }

    method GetChunkedLen(n: int) returns (code: int, value: int)
      requires Valid()
      modifies this
      ensures Valid()
      ensures var r := ChunkLength(old(Remaining()), n);
              && (r.Fail? ==> code == r.code && code < 0)
              && (r.Got? ==> code == 0 && value == r.value && Remaining() == r.rest)
    {
      ghost var goal := ChunkLength(Remaining(), n);
      value := n;
      while true
        invariant Valid() && ChunkLength(Remaining(), value) == goal
        decreases |Remaining()|
      {
        var ch := GetNextChar();
        if ch == NUL {
          return -7, value;
        }
        if IsHex(ch) {
          value := value * 16 + HexDigit(ch);
        } else if ch != '\r' {
          return -8, value;
        } else {
          return 0, value;
        }
      }
    }

    method ExpectChar(c: char) returns (ok: bool)
      requires Valid() && c != NUL
      modifies this
      ensures Valid()
      ensures var r := Expect(old(Remaining()), c);
              (ok <==> r.Got?) && (ok ==> Remaining() == r.rest)
    {
      var ch := GetNextChar();
      ok := ch == c;
    }

    method ExpectLineEnd() returns (ok: bool)
      requires Valid()
      modifies this
      ensures Valid()
      ensures var r := ExpectCrLf(old(Remaining()));
              (ok <==> r.Got?) && (ok ==> Remaining() == r.rest)
    {
      ok := ExpectChar('\r');
      if ok {
        ok := ExpectChar('\n');
      }
    }

    // The run of single-character comparisons that recognises a header.
    method ExpectLiteral(literal: string, first: char) returns (all: bool, last: char)
      requires Valid() && forall i :: 0 <= i < |literal| ==> literal[i] != NUL
      modifies this
      ensures Valid()
      ensures MatchLiteral(old(Remaining()), literal, first) == Matched(all, last, Remaining())
    {
      ghost var goal := MatchLiteral(Remaining(), literal, first);
      last := first;
      var i := 0;
      assert literal[i..] == literal;
      while i < |literal|
        invariant 0 <= i <= |literal| && Valid()
        invariant MatchLiteral(Remaining(), literal[i..], last) == goal
      {
        assert literal[i..][1..] == literal[i + 1..];
        last := GetNextChar();
        if last != literal[i] {
          return false, last;
        }
        i := i + 1;
      }
      return true, last;
    }

    // Append the next bytes that are in the buffer, at most n.
    method TakePiece(n: int, resp: string) returns (k: nat, resp': string)
      requires Valid() && 0 < n && len < iovLen
      modifies this`len
      ensures Valid() && 0 < k <= n && k <= |old(Remaining())|
      ensures resp' == resp + old(Remaining())[..k] && Remaining() == old(Remaining())[k..]
    {
      k := Min(n, iovLen - len);
      resp' := resp + header[len..len + k];
      PieceOfBuffer(header, len, iovLen, Flatten(incoming), k);
      len := len + k;
    }

    // Append up to n bytes, piece by piece, as far as the stream reaches.
    method TakeBody(n: int, resp: string) returns (left: int, resp': string)
      requires Valid()
      modifies this
      ensures Valid()
      ensures var all := old(Remaining());
              var taken := Available(n, all);
              left == n - taken && resp' == resp + all[..taken] && Remaining() == all[taken..]
    {
      ghost var goal := Taken(n, resp, Remaining());
      left, resp' := n, resp;
      while left > 0
        invariant Valid() && Taken(left, resp', Remaining()) == goal
        decreases |Remaining()|
      {
        var none := NoMore();
        if none {
          break;
        }
        var k: nat;
        ghost var was := Remaining();
        ghost var before, had := left, resp';
        k, resp' := TakePiece(left, resp');
        left := left - k;
        TakenInPieces(before, had, was, k);
      }
      assert resp' + Remaining()[..0] == resp' && Remaining()[0..] == Remaining();
    }

    method ReadChunk(status: int, n: int, resp: string) returns (done: bool, code: int, left: int, resp': string)
      requires Valid()
      modifies this
      ensures Valid()
      ensures Chunk(old(Remaining()), status, n, resp)
              == if done then Done(code, resp') else More(left, resp', Remaining())
    {
      code, left := GetChunkedLen(n);
      if code != 0 {
        return true, code, left, resp;
      }
      var ok := ExpectChar('\n');
      if !ok {
        return true, -9, left, resp;
      }
      if left == 0 {
        ok := ExpectLineEnd();
        return true, if ok then status else -9, left, resp;
      }
      left, resp' := TakeBody(left, resp);
      ok := ExpectLineEnd();
      done, code := !ok, if ok then status else -9;
    }

    // Chunk after chunk until the empty one.
    method ReadChunks(status: int, n: int) returns (code: int, resp: string)
      requires Valid()
      modifies this
      ensures Valid()
      ensures Outcome(code, resp) == Chunks(old(Remaining()), status, n, [])
    {
      ghost var goal := Chunks(Remaining(), status, n, []);
      var done, left := false, n;
      resp := [];
      while true
        invariant Valid() && Chunks(Remaining(), status, left, resp) == goal
        decreases |Remaining()|
      {
        done, code, left, resp := ReadChunk(status, left, resp);
        if done {
          return;
        }
      }
    }

    // The switch on the first character of a header line. A negative code breaks off; otherwise the body
    // follows, or another line.
    method ReadHeaderLine(n: int, chunked: bool) returns (code: int, content: bool, n': int, chunked': bool)
      requires Valid()
      modifies this
      ensures Valid()
      ensures HeaderLine(old(Remaining()), n, chunked)
              == if code < 0 then Broken(code) else if content then Content(Remaining())
                 else Next(n', chunked', Remaining())
      ensures code >= 0 && content ==> n' == n && chunked' == chunked
    {
      code, content, n', chunked' := 0, false, n, chunked;
      var ch := GetNextChar();
      var ok := true;
      if ch == 'C' {
        ok, ch := ExpectLiteral(LENGTH_HEADER, ch);
        if ok {
          ok, n' := GetNumber(n);
          return if ok then 0 else -7, false, n', chunked;
        }
      } else if ch == 'T' {
        ok, ch := ExpectLiteral(CHUNKED_HEADER, ch);
        if ok {
          return 0, false, n, true;
        }
      } else if ch == '\r' {
        ok := ExpectChar('\n');
        return if ok then 0 else -9, ok, n, chunked;
      }
      if ch == NUL {
        code := -10;
      }
    }

    // The whole response. However it was split into pieces, the answer depends on its bytes alone.
    method ReadResponse() returns (code: int, resp: string)
      requires Valid()
      modifies this
      ensures Valid()
      ensures Outcome(code, resp) == Respond(old(Remaining()))
      ensures var raw := Raw(old(Remaining()));
              code == (if 200 <= raw.code <= 299 then 0 else raw.code) && resp == raw.body
    {
      ghost var goal := Raw(Remaining());
      var ok := SkipUntil(' ');
      if !ok {
        return -7, [];
      }
      var status: int;
      ok, status := GetNumber(0);
      if !ok {
        return -7, [];
      }
      var contentLength, chunked, content := 0, false, false;
      while true
        invariant Valid() && Headers(Remaining(), status, contentLength, chunked) == goal
        decreases |Remaining()|
      {
        UntilShrinks(Remaining(), '\n');
        ok := SkipUntil('\n');
        if !ok {
          return -7, [];
        }
        code, content, contentLength, chunked := ReadHeaderLine(contentLength, chunked);
        if code < 0 {
          return code, [];
        }
        if content {
          if chunked {
            code, resp := ReadChunks(status, contentLength);
          } else {
            var _, body := TakeBody(contentLength, []);
            code, resp := status, body;
          }
          return Reported(code), resp;
        }
      }
    }
  }

  // What taking up to n bytes leaves to be taken, has collected, and leaves unread.
  function Taken(n: int, resp: string, s: string): (int, string, string) {
    var k := Available(n, s);
    (n - k, resp + s[..k], s[k..])
  }

  lemma TakenInPieces(n: int, resp: string, s: string, k: nat)
    requires 0 < k <= n && k <= |s|
    ensures Taken(n - k, resp + s[..k], s[k..]) == Taken(n, resp, s)
  {
    var m := Available(n - k, s[k..]);
    assert Available(n, s) == k + m;
    assert s[..k + m] == s[..k] + s[k..][..m];
    assert s[k..][m..] == s[k + m..];
    Assoc(resp, s[..k], s[k..][..m]);
  }

  lemma PieceOfBuffer(header: string, len: nat, iovLen: nat, later: string, k: nat)
    requires len < iovLen <= |header| && k <= iovLen - len
    ensures var s := header[len..iovLen] + later;
            && s[..k] == header[len..len + k]
            && s[k..] == (if len + k < iovLen then header[len + k..iovLen] else []) + later
  {}
}

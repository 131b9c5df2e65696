// The database client: entities collect in a buffer, which is printed into one payload and posted when
// it is full or when the background thread comes by. Posting may fail; the buffer is emptied anyway.

module InfluxBuffer {
  import opened Seqs
  import opened LineProtocol
  import Decimal

  lemma {:induction false} EscapedConcat(x: string, y: string, special: string)
    ensures Escaped(x + y, special) == Escaped(x, special) + Escaped(y, special)
  {
    if x == [] {
      assert x + y == y;
    } else {
      EscapedConcat(x[1..], y, special);
      assert (x + y)[1..] == x[1..] + y;
      Assoc(if x[0] in special then ['\\', x[0]] else [x[0]], Escaped(x[1..], special), Escaped(y, special));
    }
  }

  // An unescaped stretch and the special character behind it.
  lemma {:induction false} EscapedThrough(lines: string, src: string, special: string, start: nat, pos: nat)
    requires start <= pos < |src| && src[pos] in special
    requires forall i :: start <= i < pos ==> src[i] !in special
    ensures lines + Escaped(src[..pos + 1], special)
            == lines + Escaped(src[..start], special) + src[start..pos] + ['\\', src[pos]]
  {
    var stretch := src[start..pos];
    EscapedPlain(stretch, special);
    assert src[..pos + 1] == src[..start] + (stretch + [src[pos]]);
    EscapedConcat(src[..start], stretch + [src[pos]], special);
    EscapedConcat(stretch, [src[pos]], special);
    assert Escaped([src[pos]], special) == ['\\', src[pos]];
    Assoc(lines, Escaped(src[..start], special), stretch + ['\\', src[pos]]);
    Assoc(lines + Escaped(src[..start], special), stretch, ['\\', src[pos]]);
  }

  lemma {:induction false} EscapedRest(lines: string, src: string, special: string, start: nat)
    requires start <= |src| && forall i :: start <= i < |src| ==> src[i] !in special
    ensures lines + Escaped(src, special) == lines + Escaped(src[..start], special) + src[start..]
  {
    EscapedPlain(src[start..], special);
    assert src == src[..start] + src[start..];
    EscapedConcat(src[..start], src[start..], special);
    Assoc(lines, Escaped(src[..start], special), src[start..]);
  }

  method FindFirstOf(src: string, special: string, start: nat) returns (pos: Option<nat>)
    requires start <= |src|
    ensures pos.Some? ==> start <= pos.value < |src| && src[pos.value] in special
    ensures forall i :: start <= i < (if pos.Some? then pos.value else |src|) ==> src[i] !in special
  {
    var i := start;
    while i < |src|
      invariant start <= i <= |src|
      invariant forall k :: start <= k < i ==> src[k] !in special
    {
      if src[i] in special {
        return Some(i);
      }
      i := i + 1;
    }
    return None;
  }

  // The line builder. Each call appends; seen with any text that is to follow, a call turns the printed
  // form of one component plus that text into appended characters.
  class Builder {
    var lines: string

    constructor ()
      ensures lines == []
    {
      lines := [];
    }

    method Escape(src: string, special: string)
      modifies this
      ensures lines == old(lines) + Escaped(src, special)
    {
      ghost var was := lines;
      var start := 0;
      var pos := FindFirstOf(src, special, start);
      while pos.Some?
        invariant 0 <= start <= |src|
        invariant lines == was + Escaped(src[..start], special)
        invariant pos.Some? ==> start <= pos.value < |src| && src[pos.value] in special
        invariant forall i :: start <= i < (if pos.Some? then pos.value else |src|) ==> src[i] !in special
        decreases |src| - start
      {
        var p := pos.value;
        EscapedThrough(was, src, special, start, p);
        lines := lines + src[start..p];
        lines := lines + ['\\', src[p]];
        start := p + 1;
        pos := FindFirstOf(src, special, start);
      }
      EscapedRest(was, src, special, start);
      lines := lines + src[start..];
    }

    method Meas(m: string, ghost rest: string)
      modifies this
      ensures lines + rest == old(lines) + (['\n'] + (Escaped(m, IN_NAME) + rest))
    {
      ghost var was := lines;
      lines := lines + ['\n'];
      Escape(m, IN_NAME);
      Assoc(was + ['\n'], Escaped(m, IN_NAME), rest);
      Assoc(was, ['\n'], Escaped(m, IN_NAME) + rest);
    }

    method Tag(p: Pair, ghost rest: string)
      modifies this
      ensures lines + rest == old(lines) + PutTag(p, rest)
    {
      ghost var was := lines;
      ghost var k, v := Escaped(p.key, IN_KEY), Escaped(p.value, IN_KEY);
      lines := lines + [','];
      Escape(p.key, IN_KEY);
      lines := lines + ['='];
      Escape(p.value, IN_KEY);
      Assoc(was + [','] + k + ['='], v, rest);
      Assoc(was + [','] + k, ['='], v + rest);
      Assoc(was + [','], k, ['='] + (v + rest));
      Assoc(was, [','], k + (['='] + (v + rest)));
    }

    method Field(delim: char, p: Pair, ghost rest: string)
      modifies this
      ensures lines + rest == old(lines) + ([delim] + PutField(p, rest))
    {
      ghost var was := lines;
      ghost var k, v := Escaped(p.key, IN_KEY), Escaped(p.value, IN_TEXT);
      lines := lines + [delim];
      Escape(p.key, IN_KEY);
      lines := lines + ['=', '"'];
      Escape(p.value, IN_TEXT);
      lines := lines + ['"'];
      Assoc(was + [delim] + k + ['=', '"'] + v, ['"'], rest);
      Assoc(was + [delim] + k + ['=', '"'], v, ['"'] + rest);
      Assoc(was + [delim] + k, ['=', '"'], v + (['"'] + rest));
      Assoc(was + [delim], k, ['=', '"'] + (v + (['"'] + rest)));
      Assoc(was, [delim], PutField(p, rest));
    }

    method Timestamp(ts: int, ghost rest: string)
      modifies this
      ensures lines + rest == old(lines) + PutTime(ts, rest)
    {
      ghost var was := lines;
      lines := lines + [' '] + Decimal.ToString(ts);
      Assoc(was + [' '], Decimal.ToString(ts), rest);
      Assoc(was, [' '], Decimal.ToString(ts) + rest);
    }
  }

  const BUFFER_LIMIT := 10000

  class InfluxDB {
    var buffer: seq<Entity>
    var count: int
    var posted: seq<string>
    ghost var written: seq<Entity>

    constructor ()
      ensures Valid() && buffer == [] && posted == [] && written == [] && count == 0
    {
      buffer, count, posted, written := [], 0, [], [];
    }

    // The posted payloads, read back, followed by the buffer, are exactly what was written.
    ghost predicate Valid()
      reads this
    {
      |buffer| < BUFFER_LIMIT && NothingLost(posted, buffer, written)
    }

    // Print the buffer into one payload and post it. The HTTP client returns zero for success and the body of
    // the response; only zero and an empty body count as written.
    method FlushBuffer(ret: int, resp: string) returns (ok: bool)
      modifies this`buffer, this`posted, this`count
      ensures posted == old(posted) + [Payload(old(buffer))]
      ensures buffer == [] && count == old(count) + 1
      ensures ok <==> ret == 0 && resp == ""
    {
      var payload := new Builder();
      ghost var goal := Payload(buffer);
      var i := 0;
      assert buffer[i..] == buffer && [] + goal == goal;
      while i < |buffer|
        invariant 0 <= i <= |buffer|
        invariant payload.lines + Payload(buffer[i..]) == goal
        invariant buffer == old(buffer) && posted == old(posted) && count == old(count)
        modifies payload
      {
        assert buffer[i..][0] == buffer[i] && buffer[i..][1..] == buffer[i + 1..];
        PrintEntity(payload, buffer[i], Payload(buffer[i + 1..]));
        i := i + 1;
      }
      assert buffer[i..] == [] && payload.lines + [] == payload.lines;
      posted := posted + [payload.lines];
      buffer := [];
      count := count + 1;
      ok := ret == 0 && |resp| == 0;
    }

    method Write(entity: Entity, ret: int, resp: string) returns (ok: bool)
      requires Valid()
      modifies this
      ensures Valid() && ok && written == old(written) + [entity]
      ensures |old(buffer)| + 1 < 10000 ==> buffer == old(buffer) + [entity] && posted == old(posted)
      ensures |old(buffer)| + 1 >= 10000 ==>
                buffer == [] && posted == old(posted) + [Payload(old(buffer) + [entity])]
    {
      WrittenOneMore(posted, buffer, written, entity);
      written := written + [entity];
      buffer := buffer + [entity];
      if |buffer| >= BUFFER_LIMIT {
        PostedOneMore(posted, buffer, written);
        var _ := FlushBuffer(ret, resp);
      }
      ok := true;
    }

    // One round of the background thread.
    method FlushIfNeeded(ret: int, resp: string) returns (ok: bool)
      requires Valid()
      modifies this`buffer, this`posted, this`count
      ensures Valid() && buffer == []
      ensures old(buffer) == [] ==> ok && posted == old(posted) && count == old(count)
      ensures old(buffer) != [] ==>
                && (ok <==> ret == 0 && resp == "")
                && posted == old(posted) + [Payload(old(buffer))] && count == old(count) + 1
    {
      ok := true;
      if |buffer| != 0 {
        PostedOneMore(posted, buffer, written);
        ok := FlushBuffer(ret, resp);
      }
    }
  }

  method PrintTags(payload: Builder, tags: seq<Pair>, ghost rest: string)
    modifies payload
    ensures payload.lines + rest == old(payload.lines) + PutTags(tags, rest)
  {
    ghost var goal := payload.lines + PutTags(tags, rest);
    var j := 0;
    assert tags[j..] == tags;
    while j < |tags|
      invariant 0 <= j <= |tags|
      invariant payload.lines + PutTags(tags[j..], rest) == goal
    {
      assert tags[j..][0] == tags[j] && tags[j..][1..] == tags[j + 1..];
      payload.Tag(tags[j], PutTags(tags[j + 1..], rest));
      j := j + 1;
    }
    assert tags[j..] == [];
  }

  // The fields from number j on, as they are printed after the ones before them.
  function PutFrom(fields: seq<Pair>, j: nat, rest: string): string
    requires j <= |fields|
  {
    if j == 0 then PutFields(fields, rest) else PutMore(fields[j..], rest)
  }

  lemma PutFromStep(fields: seq<Pair>, j: nat, rest: string)
    requires j < |fields|
    ensures PutFrom(fields, j, rest)
            == [if j == 0 then ' ' else ','] + PutField(fields[j], PutFrom(fields, j + 1, rest))
    ensures PutFrom(fields, |fields|, rest) == rest
  {
    assert fields[j..][0] == fields[j] && fields[j..][1..] == fields[j + 1..];
    assert fields[|fields|..] == [];
  }

  method PrintField(payload: Builder, fields: seq<Pair>, j: nat, ghost rest: string)
    requires j < |fields|
    modifies payload
    ensures payload.lines + PutFrom(fields, j + 1, rest) == old(payload.lines) + PutFrom(fields, j, rest)
  {
    PutFromStep(fields, j, rest);
    if 0 == j {
      payload.Field(' ', fields[j], PutFrom(fields, j + 1, rest));
    } else {
      payload.Field(',', fields[j], PutFrom(fields, j + 1, rest));
    }
  }

  method PrintFields(payload: Builder, fields: seq<Pair>, ghost rest: string)
    modifies payload
    ensures payload.lines + rest == old(payload.lines) + PutFrom(fields, 0, rest)
  {
    ghost var goal := payload.lines + PutFrom(fields, 0, rest);
    var j := 0;
    while j < |fields|
      invariant 0 <= j <= |fields|
      invariant payload.lines + PutFrom(fields, j, rest) == goal
    {
      PrintField(payload, fields, j, rest);
      j := j + 1;
    }
    if |fields| > 0 {
      PutFromStep(fields, 0, rest);
    }
  }

  method PrintEntity(payload: Builder, e: Entity, ghost rest: string)
    modifies payload
    ensures payload.lines + rest == old(payload.lines) + (['\n'] + PutLine(e, rest))
  {
    payload.Meas(e.measurement, PutTags(e.tags, PutBody(e, rest)));
    PrintTags(payload, e.tags, PutBody(e, rest));
    PrintFields(payload, e.fields, PutTime(e.timestamp, rest));
    payload.Timestamp(e.timestamp, rest);
  }

  // ---------------------------------------------------------------- nothing is lost

  // The entities of all posted payloads, one payload after the other.
  function Replay(posted: seq<string>): seq<Entity> {
    if posted == [] then []
    else
      var last := Decode(posted[|posted| - 1]);
      Replay(posted[..|posted| - 1]) + if last.Some? then last.value else []
  }

  // Entities with a field, of which no part ends in a backslash and no name, key or tag value has a newline,
  // come back unchanged.
  ghost predicate NothingLost(posted: seq<string>, buffer: seq<Entity>, written: seq<Entity>) {
    AllClean(written) ==> Replay(posted) + buffer == written
  }

  lemma WrittenOneMore(posted: seq<string>, buffer: seq<Entity>, written: seq<Entity>, entity: Entity)
    requires NothingLost(posted, buffer, written)
    ensures NothingLost(posted, buffer + [entity], written + [entity])
  {
    if AllClean(written + [entity]) {
      forall i | 0 <= i < |written|
        ensures CleanEntity(written[i])
      {
        assert (written + [entity])[i] == written[i];
      }
      Assoc(Replay(posted), buffer, [entity]);
    }
  }

  lemma {:induction false} PostedOneMore(posted: seq<string>, buffer: seq<Entity>, written: seq<Entity>)
    requires NothingLost(posted, buffer, written)
    ensures NothingLost(posted + [Payload(buffer)], [], written)
  {
    if AllClean(written) {
      forall i | 0 <= i < |buffer|
        ensures CleanEntity(buffer[i])
      {
        assert written[|Replay(posted)| + i] == buffer[i];
      }
      PayloadReadBack(buffer);
      assert (posted + [Payload(buffer)])[..|posted|] == posted;
      assert written + [] == written;
    }
  }
}

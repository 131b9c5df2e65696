// The text in which rows are posted to the database, how it is read back, and exactly when the rows come
// back as they were.

module LineProtocol {
  import opened Seqs
  import Decimal

  datatype Pair = Pair(key: string, value: string)

  datatype Entity = Entity(measurement: string, tags: seq<Pair>, fields: seq<Pair>, timestamp: int)

  // The characters escaped in a measurement, in keys and tag values, and in field values.
  const IN_NAME := ", "
  const IN_KEY := ",= "
  const IN_TEXT := "\""

  // ---------------------------------------------------------------- printing

  function Escaped(s: string, special: string): string {
    if s == [] then [] else (if s[0] in special then ['\\', s[0]] else [s[0]]) + Escaped(s[1..], special)
  }

  // A tag, with what follows it.
  function PutTag(p: Pair, rest: string): string {
    [','] + (Escaped(p.key, IN_KEY) + (['='] + (Escaped(p.value, IN_KEY) + rest)))
  }

  function PutTags(tags: seq<Pair>, rest: string): string {
    if tags == [] then rest else PutTag(tags[0], PutTags(tags[1..], rest))
  }

  function PutField(p: Pair, rest: string): string {
    Escaped(p.key, IN_KEY) + (['=', '"'] + (Escaped(p.value, IN_TEXT) + (['"'] + rest)))
  }

  // The fields after the first, each behind a comma.
  function PutMore(fields: seq<Pair>, rest: string): string {
    if fields == [] then rest else [','] + PutField(fields[0], PutMore(fields[1..], rest))
  }

  function PutFields(fields: seq<Pair>, rest: string): string {
    if fields == [] then rest else [' '] + PutField(fields[0], PutMore(fields[1..], rest))
  }

  function PutTime(t: int, rest: string): string {
    [' '] + (Decimal.ToString(t) + rest)
  }

  function PutBody(e: Entity, rest: string): string {
    PutFields(e.fields, PutTime(e.timestamp, rest))
  }

  function PutLine(e: Entity, rest: string): string {
    Escaped(e.measurement, IN_NAME) + PutTags(e.tags, PutBody(e, rest))
  }

  // Every entity starts a new line, the first one too.
  function Payload(entities: seq<Entity>): string {
    if entities == [] then [] else ['\n'] + PutLine(entities[0], Payload(entities[1..]))
  }

  // ---------------------------------------------------------------- reading back

  // The database's side of the format, with its own list of what is escaped where: comma and blank in a
  // name, comma, equals sign and blank in keys and tag values, the quote in texts.

  // Read up to an unescaped stop character; a backslash before a special character is an escape.
  function ReadToken(s: string, special: string, stops: string): (r: (string, string))
    ensures |r.1| <= |s|
  {
    if s == [] then ([], [])
    else if s[0] == '\\' && |s| > 1 && s[1] in special then
      var (t, rest) := ReadToken(s[2..], special, stops);
      ([s[1]] + t, rest)
    else if s[0] in stops then ([], s)
    else
      var (t, rest) := ReadToken(s[1..], special, stops);
      ([s[0]] + t, rest)
  }

  predicate At(s: string, c: char) {
    s != [] && s[0] == c
  }

  function ReadTag(s: string): (r: Option<(Pair, string)>)
    ensures r.Some? ==> |r.value.1| < |s|
  {
    if !At(s, ',') then None
    else
      var (key, s1) := ReadToken(s[1..], ",= ", ",= \n");
      if !At(s1, '=') then None
      else
        var (value, s2) := ReadToken(s1[1..], ",= ", ",= \n");
        Some((Pair(key, value), s2))
  }

  function ReadTags(s: string): (r: (seq<Pair>, string))
    ensures |r.1| <= |s|
    decreases |s|
  {
    var tag := ReadTag(s);
    if tag == None then ([], s)
    else
      var (tags, rest) := ReadTags(tag.value.1);
      ([tag.value.0] + tags, rest)
  }

  function ReadField(s: string): (r: Option<(Pair, string)>)
    ensures r.Some? ==> |r.value.1| < |s|
  {
    var (key, s1) := ReadToken(s, ",= ", ",= \n");
    if !At(s1, '=') || !At(s1[1..], '"') then None
    else
      var (value, s2) := ReadToken(s1[2..], "\"", "\"");
      if !At(s2, '"') then None else Some((Pair(key, value), s2[1..]))
  }

  function ReadFields(s: string): (r: Option<(seq<Pair>, string)>)
    ensures r.Some? ==> |r.value.1| < |s|
    decreases |s|
  {
    var field := ReadField(s);
    if field == None then None
    else if !At(field.value.1, ',') then Some(([field.value.0], field.value.1))
    else
      var more := ReadFields(field.value.1[1..]);
      if more == None then None else Some(([field.value.0] + more.value.0, more.value.1))
  }

  // The fields and the time of an entity.
  function ReadBody(s: string): (r: Option<((seq<Pair>, int), string)>)
    ensures r.Some? ==> |r.value.1| < |s|
  {
    if !At(s, ' ') then None
    else
      var fields := ReadFields(s[1..]);
      if fields == None || !At(fields.value.1, ' ') then None
      else
        var (time, rest) := ReadToken(fields.value.1[1..], "", "\n");
        Some(((fields.value.0, Decimal.FromString(time)), rest))
  }

  // What follows the name of an entity.
  function ReadAfterName(measurement: string, s: string): (r: Option<(Entity, string)>)
    ensures r.Some? ==> |r.value.1| < |s| && r.value.0.measurement == measurement
  {
    var (tags, s2) := ReadTags(s);
    var body := ReadBody(s2);
    if body == None then None
    else Some((Entity(measurement, tags, body.value.0.0, body.value.0.1), body.value.1))
  }

  function ReadEntity(s: string): (r: Option<(Entity, string)>)
    ensures r.Some? ==> |r.value.1| < |s|
  {
    var (measurement, s1) := ReadToken(s, ", ", ", \n");
    ReadAfterName(measurement, s1)
  }

  // All entities of a payload, one a line; empty lines are skipped.
  function Decode(s: string): Option<seq<Entity>>
    decreases |s|
  {
    if s == [] then Some([])
    else if s[0] == '\n' then Decode(s[1..])
    else
      var first := ReadEntity(s);
      if first == None then None
      else
        var more := Decode(first.value.1);
        if more == None then None else Some([first.value.0] + more.value)
  }

  // ---------------------------------------------------------------- what comes back

  predicate Closed(s: string) {
    s == [] || s[|s| - 1] != '\\'
  }

  // Does not end in a backslash, and whatever would end the token is escaped.
  predicate Clean(s: string, special: string, stops: string) {
    Closed(s) && forall i :: 0 <= i < |s| && s[i] in stops ==> s[i] in special
  }

  // A name, a key or a tag value.
  predicate CleanWord(s: string) {
    Closed(s) && '\n' !in s
  }

  predicate CleanTag(p: Pair) {
    CleanWord(p.key) && CleanWord(p.value)
  }

  predicate CleanField(p: Pair) {
    CleanWord(p.key) && Closed(p.value)
  }

  predicate CleanTags(tags: seq<Pair>) {
    forall i :: 0 <= i < |tags| ==> CleanTag(tags[i])
  }

  predicate CleanFields(fields: seq<Pair>) {
    forall i :: 0 <= i < |fields| ==> CleanField(fields[i])
  }

  // No name, key or tag value has a newline, nothing ends in a backslash, and there is a field.
  predicate CleanEntity(e: Entity) {
    CleanWord(e.measurement) && CleanTags(e.tags) && CleanFields(e.fields) && e.fields != []
  }

  lemma CleanMeans(s: string)
    ensures Clean(s, ", ", ", \n") <==> CleanWord(s)
    ensures Clean(s, ",= ", ",= \n") <==> CleanWord(s)
    ensures Clean(s, "\"", "\"") <==> Closed(s)
  {
    assert forall c :: c in ", \n" && c !in ", " <==> c == '\n';
    assert forall c :: c in ",= \n" && c !in ",= " <==> c == '\n';
  }

  lemma ClosedTail(s: string)
    requires s != [] && (|s| > 1 || s[0] != '\\')
    ensures Closed(s) <==> Closed(s[1..])
  {}

  lemma CleanTail(s: string, special: string, stops: string)
    requires s != [] && (|s| > 1 || s[0] != '\\') && (s[0] in stops ==> s[0] in special)
    ensures Clean(s, special, stops) <==> Clean(s[1..], special, stops)
  {
    ClosedTail(s);
    assert s == [s[0]] + s[1..];
  }

  // The escaped text of a component and what follows it, one character further.
  lemma {:induction false} EscapedStep(s: string, special: string, rest: string)
    requires s != []
    ensures var head := if s[0] in special then ['\\', s[0]] else [s[0]];
            && Escaped(s, special) + rest == head + (Escaped(s[1..], special) + rest)
            && (Escaped(s, special) + rest)[|head|..] == Escaped(s[1..], special) + rest
  {
    var head := if s[0] in special then ['\\', s[0]] else [s[0]];
    Assoc(head, Escaped(s[1..], special), rest);
    Behind(head, Escaped(s[1..], special) + rest);
  }

  predicate Delimits(rest: string, special: string, stops: string) {
    rest != [] && rest[0] in special && rest[0] in stops && '\\' !in special && '\\' !in stops
  }

  // The first character of a component is read back, unless it ends the token or is a last backslash.
  lemma {:induction false} TokenStep(s: string, special: string, stops: string, rest: string)
    requires s != [] && s != ['\\'] && Delimits(rest, special, stops)
    ensures var r := ReadToken(Escaped(s, special) + rest, special, stops);
            var more := ReadToken(Escaped(s[1..], special) + rest, special, stops);
            r == if s[0] in special || s[0] !in stops then ([s[0]] + more.0, more.1)
                 else ([], Escaped(s, special) + rest)
  {
    EscapedStep(s, special, rest);
    if s[0] == '\\' {
      EscapedStep(s[1..], special, rest);
    }
  }

  lemma {:induction false} BackslashSwallows(special: string, stops: string, rest: string)
    requires Delimits(rest, special, stops)
    ensures ReadToken(Escaped(['\\'], special) + rest, special, stops).0 != ['\\']
  {
    EscapedStep(['\\'], special, rest);
    assert Escaped([], special) + rest == rest;
    assert (['\\'] + rest)[2..] == rest[1..];
  }

  // In front of a delimiter a component is read back if and only if it is clean; a backslash at its end
  // swallows the delimiter.
  lemma {:induction false} TokenReadBack(s: string, special: string, stops: string, rest: string)
    requires Delimits(rest, special, stops)
    ensures ReadToken(Escaped(s, special) + rest, special, stops).0 == s <==> Clean(s, special, stops)
    ensures Clean(s, special, stops) ==> ReadToken(Escaped(s, special) + rest, special, stops) == (s, rest)
  {
    if s == [] {
      assert Escaped(s, special) + rest == rest;
    } else if s == ['\\'] {
      BackslashSwallows(special, stops, rest);
    } else {
      TokenStep(s, special, stops, rest);
      assert s == [s[0]] + s[1..];
      if s[0] in special || s[0] !in stops {
        TokenReadBack(s[1..], special, stops, rest);
        CleanTail(s, special, stops);
        ConsEquals(s[0], ReadToken(Escaped(s[1..], special) + rest, special, stops).0, s[0], s[1..]);
      }
    }
  }

  lemma {:induction false} NameReadBack(s: string, rest: string)
    requires At(rest, ',') || At(rest, ' ')
    ensures ReadToken(Escaped(s, IN_NAME) + rest, ", ", ", \n").0 == s <==> CleanWord(s)
    ensures CleanWord(s) ==> ReadToken(Escaped(s, IN_NAME) + rest, ", ", ", \n") == (s, rest)
  {
    CleanMeans(s);
    TokenReadBack(s, ", ", ", \n", rest);
  }

  lemma {:induction false} KeyReadBack(s: string, rest: string)
    requires At(rest, '=') || At(rest, ',') || At(rest, ' ')
    ensures ReadToken(Escaped(s, IN_KEY) + rest, ",= ", ",= \n").0 == s <==> CleanWord(s)
    ensures CleanWord(s) ==> ReadToken(Escaped(s, IN_KEY) + rest, ",= ", ",= \n") == (s, rest)
  {
    CleanMeans(s);
    TokenReadBack(s, ",= ", ",= \n", rest);
  }

  lemma {:induction false} TextReadBack(s: string, rest: string)
    requires At(rest, '"')
    ensures ReadToken(Escaped(s, IN_TEXT) + rest, "\"", "\"").0 == s <==> Closed(s)
    ensures Closed(s) ==> ReadToken(Escaped(s, IN_TEXT) + rest, "\"", "\"") == (s, rest)
  {
    CleanMeans(s);
    TokenReadBack(s, "\"", "\"", rest);
  }

  lemma {:induction false} EscapedPlain(s: string, special: string)
    requires forall i :: 0 <= i < |s| ==> s[i] !in special
    ensures Escaped(s, special) == s
  {
    if s != [] {
      EscapedPlain(s[1..], special);
    }
  }

  // What needs no escape is printed unchanged.
  lemma {:induction false} PrintedUnchanged(s: string)
    ensures ',' !in s && ' ' !in s ==> Escaped(s, IN_NAME) == s
    ensures ',' !in s && '=' !in s && ' ' !in s ==> Escaped(s, IN_KEY) == s
    ensures '"' !in s ==> Escaped(s, IN_TEXT) == s
  {
    if ',' !in s && ' ' !in s {
      EscapedPlain(s, IN_NAME);
    }
    if ',' !in s && '=' !in s && ' ' !in s {
      EscapedPlain(s, IN_KEY);
    }
    if '"' !in s {
      EscapedPlain(s, IN_TEXT);
    }
  }

  // ---------------------------------------------------------------- an entity

  ghost predicate ReadsTag(p: Pair, rest: string) {
    ReadTag(PutTag(p, rest)).Some? && ReadTag(PutTag(p, rest)).value.0 == p
  }

  lemma TagReadBack(p: Pair, rest: string)
    requires At(rest, ',') || At(rest, ' ')
    ensures ReadsTag(p, rest) <==> CleanTag(p)
    ensures CleanTag(p) ==> ReadTag(PutTag(p, rest)) == Some((p, rest))
  {
    var s2 := Escaped(p.value, IN_KEY) + rest;
    var s1 := ['='] + s2;
    KeyReadBack(p.key, s1);
    KeyReadBack(p.value, rest);
    Behind([','], Escaped(p.key, IN_KEY) + s1);
    Behind(['='], s2);
  }

  lemma {:induction false} TagsBegin(tags: seq<Pair>, rest: string)
    requires At(rest, ' ')
    ensures At(PutTags(tags, rest), ' ') || At(PutTags(tags, rest), ',')
  {}

  // The text is read as these tags, up to the rest, if and only if they are clean.
  ghost predicate TagsExactly(text: string, tags: seq<Pair>, rest: string) {
    && (ReadTags(text).0 == tags <==> CleanTags(tags))
    && (CleanTags(tags) ==> ReadTags(text) == (tags, rest))
  }

  lemma TagBeforeOthers(first: Pair, text: string, others: seq<Pair>, rest: string)
    requires (At(text, ',') || At(text, ' ')) && TagsExactly(text, others, rest)
    ensures TagsExactly(PutTag(first, text), [first] + others, rest)
  {
    TagReadBack(first, text);
    assert ([first] + others)[0] == first;
    assert CleanTags([first] + others) <==> CleanTag(first) && CleanTags(others) by {
      assert forall i :: 0 <= i < |others| ==> ([first] + others)[i + 1] == others[i];
    }
    ConsEquals(first, ReadTags(text).0, first, others);
  }

  lemma {:induction false} TagsReadBack(tags: seq<Pair>, rest: string)
    requires At(rest, ' ')
    ensures TagsExactly(PutTags(tags, rest), tags, rest)
  {
    if tags != [] {
      assert tags == [tags[0]] + tags[1..];
      TagsBegin(tags[1..], rest);
      TagsReadBack(tags[1..], rest);
      TagBeforeOthers(tags[0], PutTags(tags[1..], rest), tags[1..], rest);
    }
  }

  ghost predicate ReadsField(p: Pair, rest: string) {
    ReadField(PutField(p, rest)).Some? && ReadField(PutField(p, rest)).value.0 == p
  }

  // Behind a clean key, the value in quotes.
  lemma {:induction false} KeyPassed(key: string, text: string)
    requires CleanWord(key)
    ensures var (value, rest) := ReadToken(text, "\"", "\"");
            ReadField(Escaped(key, IN_KEY) + (['=', '"'] + text))
            == if At(rest, '"') then Some((Pair(key, value), rest[1..])) else None
  {
    KeyReadBack(key, ['=', '"'] + text);
    Behind(['=', '"'], text);
  }

  lemma ValueReadBack(key: string, value: string, rest: string)
    requires CleanWord(key)
    ensures var r := ReadField(PutField(Pair(key, value), rest));
            && (r.Some? && r.value.0 == Pair(key, value) <==> Closed(value))
            && (Closed(value) ==> r == Some((Pair(key, value), rest)))
  {
    var close := ['"'] + rest;
    KeyPassed(key, Escaped(value, IN_TEXT) + close);
    TextReadBack(value, close);
    Behind(['"'], rest);
  }

  lemma FieldReadBack(p: Pair, rest: string)
    ensures ReadsField(p, rest) <==> CleanField(p)
    ensures CleanField(p) ==> ReadField(PutField(p, rest)) == Some((p, rest))
  {
    if CleanWord(p.key) {
      ValueReadBack(p.key, p.value, rest);
    } else {
      KeyReadBack(p.key, ['=', '"'] + (Escaped(p.value, IN_TEXT) + (['"'] + rest)));
    }
  }

  // The text is read as these fields, up to the rest, if and only if they are clean.
  ghost predicate FieldsExactly(text: string, fields: seq<Pair>, rest: string) {
    var r := ReadFields(text);
    && (r.Some? && r.value.0 == fields <==> CleanFields(fields))
    && (CleanFields(fields) ==> r == Some((fields, rest)))
  }

  // The first field, and the fields behind it if there is a comma.
  lemma FirstFieldRead(first: Pair, rest: string)
    ensures var r := ReadFields(PutField(first, rest));
            && (!CleanField(first) && r.Some? ==> r.value.0 != [] && r.value.0[0] != first)
            && (CleanField(first) && !At(rest, ',') ==> r == Some(([first], rest)))
            && (CleanField(first) && At(rest, ',') ==>
                  var more := ReadFields(rest[1..]);
                  r == if more == None then None else Some(([first] + more.value.0, more.value.1)))
  {
    FieldReadBack(first, rest);
  }

  lemma CleanCons(first: Pair, others: seq<Pair>)
    ensures CleanFields([first] + others) <==> CleanField(first) && CleanFields(others)
  {
    assert ([first] + others)[0] == first;
    assert forall i :: 0 <= i < |others| ==> ([first] + others)[i + 1] == others[i];
  }

  lemma OneFieldReadBack(first: Pair, rest: string)
    requires At(rest, ' ')
    ensures FieldsExactly(PutField(first, rest), [first], rest)
  {
    FirstFieldRead(first, rest);
    assert [first] + [] == [first];
    CleanCons(first, []);
  }

  lemma FieldBeforeOthers(first: Pair, text: string, others: seq<Pair>, rest: string)
    requires FieldsExactly(text, others, rest)
    ensures FieldsExactly(PutField(first, [','] + text), [first] + others, rest)
  {
    FirstFieldRead(first, [','] + text);
    Behind([','], text);
    CleanCons(first, others);
    assert ([first] + others)[0] == first;
    if ReadFields(text).Some? {
      ConsEquals(first, ReadFields(text).value.0, first, others);
    }
  }

  lemma {:induction false} FieldsReadBack(fields: seq<Pair>, rest: string)
    requires fields != [] && At(rest, ' ')
    ensures FieldsExactly(PutField(fields[0], PutMore(fields[1..], rest)), fields, rest)
  {
    assert fields == [fields[0]] + fields[1..];
    if |fields| == 1 {
      OneFieldReadBack(fields[0], rest);
    } else {
      FieldsReadBack(fields[1..], rest);
      FieldBeforeOthers(fields[0], PutField(fields[1], PutMore(fields[1..][1..], rest)), fields[1..], rest);
    }
  }

  lemma {:induction false} ReadPlain(s: string, stops: string, rest: string)
    requires forall i :: 0 <= i < |s| ==> s[i] !in stops
    requires (rest == [] || rest[0] in stops) && '\\' !in stops
    ensures ReadToken(s + rest, "", stops) == (s, rest)
  {
    if s == [] {
      assert s + rest == rest;
    } else {
      assert (s + rest)[1..] == s[1..] + rest && s == [s[0]] + s[1..];
      ReadPlain(s[1..], stops, rest);
    }
  }

  lemma {:induction false} TimeReadBack(t: int, rest: string)
    requires rest == [] || rest[0] == '\n'
    ensures ReadToken(Decimal.ToString(t) + rest, "", "\n") == (Decimal.ToString(t), rest)
    ensures Decimal.FromString(Decimal.ToString(t)) == t
  {
    Decimal.RoundTrip(t);
    ReadPlain(Decimal.ToString(t), "\n", rest);
  }

  ghost predicate ReadsBody(e: Entity, rest: string) {
    ReadBody(PutBody(e, rest)).Some? && ReadBody(PutBody(e, rest)).value.0.0 == e.fields
  }

  // The fields, and the time behind a blank.
  lemma {:induction false} BodyRead(fields: string, t: int, rest: string)
    requires rest == [] || rest[0] == '\n'
    ensures var r, f := ReadBody([' '] + fields), ReadFields(fields);
            && (r.Some? ==> f.Some? && r.value.0.0 == f.value.0)
            && (f.Some? && f.value.1 == PutTime(t, rest) ==> r == Some(((f.value.0, t), rest)))
  {
    Behind([' '], fields);
    Behind([' '], Decimal.ToString(t) + rest);
    TimeReadBack(t, rest);
  }

  lemma BodyReadBack(e: Entity, rest: string)
    requires e.fields != [] && (rest == [] || rest[0] == '\n')
    ensures ReadsBody(e, rest) <==> CleanFields(e.fields)
    ensures CleanFields(e.fields) ==> ReadBody(PutBody(e, rest)) == Some(((e.fields, e.timestamp), rest))
  {
    BodyRead(PutField(e.fields[0], PutMore(e.fields[1..], PutTime(e.timestamp, rest))), e.timestamp, rest);
    FieldsReadBack(e.fields, PutTime(e.timestamp, rest));
  }

  ghost predicate ReadsEntity(e: Entity, rest: string) {
    ReadEntity(PutLine(e, rest)).Some? && ReadEntity(PutLine(e, rest)).value.0 == e
  }

  // An entity with a field is read back from its line exactly when it is clean.
  lemma EntityReadBack(e: Entity, rest: string)
    requires e.fields != [] && (rest == [] || rest[0] == '\n')
    ensures ReadsEntity(e, rest) <==> CleanEntity(e)
    ensures CleanEntity(e) ==> ReadEntity(PutLine(e, rest)) == Some((e, rest))
  {
    var body := PutBody(e, rest);
    TagsBegin(e.tags, body);
    NameReadBack(e.measurement, PutTags(e.tags, body));
    AfterNameReadBack(e, rest);
  }

  lemma AfterNameReadBack(e: Entity, rest: string)
    requires e.fields != [] && (rest == [] || rest[0] == '\n')
    ensures var r := ReadAfterName(e.measurement, PutTags(e.tags, PutBody(e, rest)));
            && (r.Some? && r.value.0 == e <==> CleanTags(e.tags) && CleanFields(e.fields))
            && (CleanTags(e.tags) && CleanFields(e.fields) ==> r == Some((e, rest)))
  {
    TagsReadBack(e.tags, PutBody(e, rest));
    BodyReadBack(e, rest);
  }

  // ---------------------------------------------------------------- a payload

  ghost predicate AllClean(entities: seq<Entity>) {
    forall i :: 0 <= i < |entities| ==> CleanEntity(entities[i])
  }

  ghost predicate ReadsBack(text: string, entities: seq<Entity>) {
    Decode(text) == Some(entities)
  }

  // A line with a field is not empty, and begins with a newline only if the measurement does.
  lemma LineBegins(e: Entity, rest: string)
    requires e.fields != [] && '\n' !in e.measurement
    ensures PutLine(e, rest) != [] && PutLine(e, rest)[0] != '\n'
  {
    var body := PutTags(e.tags, PutBody(e, rest));
    TagsBegin(e.tags, PutBody(e, rest));
    if e.measurement == "" {
      assert PutLine(e, rest)[0] == body[0];
    } else {
      assert PutLine(e, rest)[0] == Escaped(e.measurement, IN_NAME)[0];
    }
  }

  lemma {:induction false} TokenHasNoStop(s: string, special: string, stops: string, c: char)
    requires c in stops && c !in special
    ensures c !in ReadToken(s, special, stops).0
    decreases |s|
  {
    if s == [] {
    } else if s[0] == '\\' && |s| > 1 && s[1] in special {
      TokenHasNoStop(s[2..], special, stops, c);
    } else if s[0] !in stops {
      TokenHasNoStop(s[1..], special, stops, c);
    }
  }

  // Whatever a payload is, the first entity read from it has a field and a name of one line.
  lemma {:induction false} FirstRead(s: string, entities: seq<Entity>)
    requires ReadsBack(s, entities) && entities != []
    ensures entities[0].fields != [] && '\n' !in entities[0].measurement
    decreases |s|
  {
    if s[0] == '\n' {
      FirstRead(s[1..], entities);
    } else {
      TokenHasNoStop(s, ", ", ", \n", '\n');
    }
  }

  lemma DecodeLine(line: string, entities: seq<Entity>, e: Entity)
    requires line != [] && line[0] != '\n'
    ensures ReadsBack(['\n'] + line, [e] + entities)
            <==> && ReadEntity(line).Some? && ReadEntity(line).value.0 == e
                 && ReadsBack(ReadEntity(line).value.1, entities)
  {
    Behind(['\n'], line);
    assert Decode(['\n'] + line) == Decode(line);
    var first := ReadEntity(line);
    if first.Some? && Decode(first.value.1).Some? {
      var more := Decode(first.value.1).value;
      ConsEquals(first.value.0, more, e, entities);
    }
  }

  lemma LineReadBack(e: Entity, more: string, entities: seq<Entity>)
    requires more == [] || more[0] == '\n'
    ensures ReadsBack(['\n'] + PutLine(e, more), [e] + entities) <==> CleanEntity(e) && ReadsBack(more, entities)
  {
    var line := PutLine(e, more);
    if ReadsBack(['\n'] + line, [e] + entities) {
      FirstRead(['\n'] + line, [e] + entities);
    }
    if e.fields != [] && '\n' !in e.measurement {
      LineBegins(e, more);
      EntityReadBack(e, more);
      DecodeLine(line, entities, e);
    }
  }

  // A posted payload reads back as the entities it was built from if and only if they are all clean.
  lemma {:induction false} PayloadReadBack(entities: seq<Entity>)
    ensures ReadsBack(Payload(entities), entities) <==> AllClean(entities)
    ensures entities != [] ==> Payload(entities)[0] == '\n'
  {
    if entities != [] {
      var e, tail := entities[0], entities[1..];
      PayloadReadBack(tail);
      LineReadBack(e, Payload(tail), tail);
      assert entities == [e] + tail;
      assert AllClean(entities) <==> CleanEntity(e) && AllClean(tail);
    }
  }

  // So a payload with a field value that ends in a backslash, whatever the value and wherever it is, does not
  // read back: the backslash swallows the closing quote.
  lemma {:induction false} TrailingBackslashIsLost(entities: seq<Entity>, i: nat, k: nat)
    requires i < |entities| && k < |entities[i].fields| && !Closed(entities[i].fields[k].value)
    ensures !ReadsBack(Payload(entities), entities)
  {
    PayloadReadBack(entities);
    assert !CleanField(entities[i].fields[k]);
    assert !CleanEntity(entities[i]);
  }
}

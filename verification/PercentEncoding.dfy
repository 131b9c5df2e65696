// How queries are put into a URL: bytes outside a fixed alphabet are written as a percent sign and two
// hexadecimal digits, a space as a plus sign.

module PercentEncoding {
  import opened Seqs

  type Byte = x: int | 0 <= x < 256

  // The bytes left as they are. The source lists them one by one, with a second q where z should be.
  predicate Plain(b: Byte) {
    || 'a' as int <= b <= 'y' as int
    || 'A' as int <= b <= 'Z' as int
    || '0' as int <= b <= '9' as int
    || b == '-' as int || b == '_' as int || b == '.' as int || b == '~' as int
  }

  const SPACE: Byte := 32
  const PLUS: Byte := 43
  const PERCENT: Byte := 37

  function ToHex(x: int): Byte
    requires 0 <= x < 16
  {
    if x > 9 then x + 55 else x + 48
  }

  function EncodeByte(b: Byte): seq<Byte> {
    if Plain(b) then [b]
    else if b == SPACE then [PLUS]
    else [PERCENT, ToHex(b / 16), ToHex(b % 16)]
  }

  // Letters other than z, digits and four marks are copied, a blank becomes a plus sign, and everything else,
  // z included, a percent sign and two upper-case hexadecimal digits.
  lemma EncodedByte(b: Byte)
    ensures var c := b as char;
            EncodeByte(b)
            == if 'a' <= c < 'z' || 'A' <= c <= 'Z' || '0' <= c <= '9' || c in "-_.~" then [b]
               else if c == ' ' then ['+' as int]
               else ['%' as int, "0123456789ABCDEF"[b / 16] as int, "0123456789ABCDEF"[b % 16] as int]
  {
    HexAre(b / 16);
    HexAre(b % 16);
  }

  lemma HexAre(x: int)
    requires 0 <= x < 16
    ensures ToHex(x) as char == "0123456789ABCDEF"[x]
  {}

  function Encode(src: seq<Byte>): seq<Byte> {
    if src == [] then [] else EncodeByte(src[0]) + Encode(src[1..])
  }

  // The encoding is that of the bytes, one after the other.
  lemma {:induction false} EncodeConcat(x: seq<Byte>, y: seq<Byte>)
    ensures Encode(x + y) == Encode(x) + Encode(y)
  {
    if x == [] {
      assert x + y == y;
    } else {
      EncodeConcat(x[1..], y);
      assert (x + y)[1..] == x[1..] + y;
      Assoc(EncodeByte(x[0]), Encode(x[1..]), Encode(y));
    }
  }

  lemma {:induction false} EncodePlain(x: seq<Byte>)
    requires forall i :: 0 <= i < |x| ==> Plain(x[i])
    ensures Encode(x) == x
  {
    if x != [] {
      EncodePlain(x[1..]);
    }
  }

  // The first position at or after start that is not in the alphabet; none if there is none.
  method FindFirstNotPlain(src: seq<Byte>, start: nat) returns (pos: Option<nat>)
    requires start <= |src|
    ensures pos.Some? ==> start <= pos.value < |src| && !Plain(src[pos.value])
    ensures forall i :: start <= i < (if pos.Some? then pos.value else |src|) ==> Plain(src[i])
  {
    var i := start;
    while i < |src|
      invariant start <= i <= |src|
      invariant forall k :: start <= k < i ==> Plain(src[k])
    {
      if !Plain(src[i]) {
        return Some(i);
      }
      i := i + 1;
    }
    return None;
  }

  method UrlEncode(out: seq<Byte>, src: seq<Byte>) returns (out': seq<Byte>)
    ensures out' == out + Encode(src)
  {
    out' := out;
    var start := 0;
    var pos := FindFirstNotPlain(src, start);
    while pos.Some?
      invariant 0 <= start <= |src|
      invariant out' == out + Encode(src[..start])
      invariant pos.Some? ==> start <= pos.value < |src| && !Plain(src[pos.value])
      invariant forall i :: start <= i < (if pos.Some? then pos.value else |src|) ==> Plain(src[i])
      decreases |src| - start
    {
      var p := pos.value;
      EncodeThrough(out, src, start, p);
      out' := out' + src[start..p];
      if src[p] == SPACE {
        out' := out' + [PLUS];
      } else {
        out' := out' + [PERCENT] + [ToHex(src[p] / 16)] + [ToHex(src[p] % 16)];
      }
      start := p + 1;
      pos := FindFirstNotPlain(src, start);
    }
    EncodeStretch(src, start, |src|);
    assert src[..|src|] == src;
    out' := out' + src[start..];
  }

  lemma EncodeStretch(src: seq<Byte>, start: nat, end: nat)
    requires start <= end <= |src| && forall i :: start <= i < end ==> Plain(src[i])
    ensures Encode(src[..end]) == Encode(src[..start]) + src[start..end]
  {
    assert src[..end] == src[..start] + src[start..end];
    EncodeConcat(src[..start], src[start..end]);
    EncodePlain(src[start..end]);
  }

  lemma EncodeNext(src: seq<Byte>, p: nat)
    requires p < |src|
    ensures Encode(src[..p + 1]) == Encode(src[..p]) + EncodeByte(src[p])
  {
    assert src[..p + 1] == src[..p] + [src[p]];
    EncodeConcat(src[..p], [src[p]]);
    assert Encode([src[p]]) == EncodeByte(src[p]) + [];
  }

  lemma Appended(o: seq<Byte>, x: Byte, y: Byte, z: Byte)
    ensures o + [x, y, z] == o + [x] + [y] + [z]
  {}

  // A stretch of plain bytes and the byte behind it, appended to what is already encoded.
  lemma EncodeThrough(out: seq<Byte>, src: seq<Byte>, start: nat, p: nat)
    requires start <= p < |src| && !Plain(src[p]) && forall i :: start <= i < p ==> Plain(src[i])
    ensures var o := out + Encode(src[..start]) + src[start..p];
            out + Encode(src[..p + 1])
            == if src[p] == SPACE then o + [PLUS]
               else o + [PERCENT] + [ToHex(src[p] / 16)] + [ToHex(src[p] % 16)]
  {
    EncodeStretch(src, start, p);
    EncodeNext(src, p);
    Assoc(out, Encode(src[..start]), src[start..p]);
    Assoc(out, Encode(src[..p]), EncodeByte(src[p]));
    Appended(out + Encode(src[..p]), PERCENT, ToHex(src[p] / 16), ToHex(src[p] % 16));
  }

  // ---------------------------------------------------------------- the standard decoder

  function HexValue(b: Byte): Option<int>
  {
    if '0' as int <= b <= '9' as int then Some(b - '0' as int)
    else if 'A' as int <= b <= 'F' as int then Some(b - 'A' as int + 10)
    else if 'a' as int <= b <= 'f' as int then Some(b - 'a' as int + 10)
    else None
  }

  // Section 2.1 of RFC 3986, with the form-style plus sign for a space.
  function Decode(s: seq<Byte>): Option<seq<int>> {
    if s == [] then Some([])
    else if s[0] == PERCENT then
      if |s| < 3 || HexValue(s[1]) == None || HexValue(s[2]) == None then None
      else
        var rest := Decode(s[3..]);
        if rest == None then None
        else Some([HexValue(s[1]).value * 16 + HexValue(s[2]).value] + rest.value)
    else
      var rest := Decode(s[1..]);
      if rest == None then None
      else Some([if s[0] == PLUS then SPACE else s[0]] + rest.value)
  }

  lemma HexReadBack(x: int)
    requires 0 <= x < 16
    ensures HexValue(ToHex(x)) == Some(x)
  {}

  // The decoder, one encoded byte further.
  lemma {:induction false} ByteReadBack(b: Byte, rest: seq<Byte>)
    ensures Decode(EncodeByte(b) + rest)
            == if Decode(rest) == None then None else Some([b] + Decode(rest).value)
  {
    var e := EncodeByte(b);
    Behind(e, rest);
    if !Plain(b) && b != SPACE {
      HexReadBack(b / 16);
      HexReadBack(b % 16);
      assert (e + rest)[0] == PERCENT && (e + rest)[1] == ToHex(b / 16) && (e + rest)[2] == ToHex(b % 16);
    } else {
      assert (e + rest)[0] == e[0];
    }
  }

  // Every byte string is read back from its encoding.
  lemma {:induction false} DecodeEncode(src: seq<Byte>)
    ensures Decode(Encode(src)) == Some(src)
  {
    if src != [] {
      DecodeEncode(src[1..]);
      ByteReadBack(src[0], Encode(src[1..]));
      assert src == [src[0]] + src[1..];
    }
  }

  predicate Unreserved(b: Byte) {
    Plain(b) || b == 'z' as int
  }

  // The encoding consists of unreserved characters, percent signs and plus signs.
  lemma {:induction false} EncodedAlphabet(src: seq<Byte>)
    ensures forall i :: 0 <= i < |Encode(src)| ==>
              Unreserved(Encode(src)[i]) || Encode(src)[i] == PERCENT || Encode(src)[i] == PLUS
  {
    if src != [] {
      EncodedAlphabet(src[1..]);
    }
  }
}

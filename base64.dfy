/** `btoa` and `atob`: base64 with the standard alphabet and `=` padding
    (RFC 4648, section 4) over byte strings, where a byte string is a text whose
    characters all lie in U+0000..U+00FF. */
module Base64 {
  import opened Results

  type Byte = b: int | 0 <= b < 256
  type Sextet = d: int | 0 <= d < 64

  /** The character for a six-bit value. */
  function DigitFor(d: Sextet): (c: char)
    ensures IsBase64Char(c)
  {
    if d < 26 then ('A' as int + d) as char
    else if d < 52 then ('a' as int + (d - 26)) as char
    else if d < 62 then ('0' as int + (d - 52)) as char
    else if d == 62 then '+'
    else '/'
  }

  predicate IsBase64Char(c: char) {
    ('A' <= c <= 'Z') || ('a' <= c <= 'z') || ('0' <= c <= '9') || c == '+' || c == '/'
  }

  /** The six-bit value of a character of the alphabet. */
  function ValueOf(c: char): (d: Sextet)
    requires IsBase64Char(c)
    ensures DigitFor(d) == c
  {
    if 'A' <= c <= 'Z' then (c as int) - ('A' as int)
    else if 'a' <= c <= 'z' then (c as int) - ('a' as int) + 26
    else if '0' <= c <= '9' then (c as int) - ('0' as int) + 52
    else if c == '+' then 62
    else 63
  }

  lemma ValueOfDigit(d: Sextet)
    ensures ValueOf(DigitFor(d)) == d
  {
  }

  /** Encodes a byte string: three bytes become four characters, and a final one or
      two bytes become two or three characters followed by `==` or `=`. */
  function Encode(b: seq<Byte>): (r: string)
    ensures |r| == 4 * ((|b| + 2) / 3)
    decreases |b|
  {
    if |b| == 0 then ""
    else if |b| == 1 then
      [DigitFor(b[0] / 4), DigitFor((b[0] % 4) * 16), '=', '=']
    else if |b| == 2 then
      [DigitFor(b[0] / 4), DigitFor((b[0] % 4) * 16 + b[1] / 16), DigitFor((b[1] % 16) * 4), '=']
    else
      assert (|b| + 2) / 3 == 1 + (|b[3..]| + 2) / 3;
      Quad(b[0], b[1], b[2]) + Encode(b[3..])
  }

  /** The four characters for three bytes. */
  function Quad(a: Byte, b: Byte, c: Byte): (q: string)
    ensures |q| == 4 && forall i :: 0 <= i < 4 ==> IsBase64Char(q[i])
  {
    [DigitFor(a / 4), DigitFor((a % 4) * 16 + b / 16), DigitFor((b % 16) * 4 + c / 64), DigitFor(c % 64)]
  }

  /** The three bytes for four characters of the alphabet. */
  function Unquad(w: char, x: char, y: char, z: char): seq<Byte>
    requires IsBase64Char(w) && IsBase64Char(x) && IsBase64Char(y) && IsBase64Char(z)
  {
    [ValueOf(w) * 4 + ValueOf(x) / 16,
     (ValueOf(x) % 16) * 16 + ValueOf(y) / 4,
     (ValueOf(y) % 4) * 64 + ValueOf(z)]
  }

  lemma UnquadQuad(a: Byte, b: Byte, c: Byte)
    ensures var q := Quad(a, b, c); Unquad(q[0], q[1], q[2], q[3]) == [a, b, c]
  {
    ValueOfDigit(a / 4);
    ValueOfDigit((a % 4) * 16 + b / 16);
    ValueOfDigit((b % 16) * 4 + c / 64);
    ValueOfDigit(c % 64);
    RegroupBytes(a, b, c);
  }

  /** Decodes canonical base64 (the form `Encode` produces); `None` for anything else. */
  function Decode(s: string): Option<seq<Byte>>
    decreases |s|
  {
    if s == [] then Some([])
    else if |s| < 4 then None
    else if |s| == 4 && s[2] == '=' && s[3] == '=' then
      if IsBase64Char(s[0]) && IsBase64Char(s[1]) then
        Some([ValueOf(s[0]) * 4 + ValueOf(s[1]) / 16])
      else None
    else if |s| == 4 && s[3] == '=' then
      if IsBase64Char(s[0]) && IsBase64Char(s[1]) && IsBase64Char(s[2]) then
        Some([ValueOf(s[0]) * 4 + ValueOf(s[1]) / 16,
              (ValueOf(s[1]) % 16) * 16 + ValueOf(s[2]) / 4])
      else None
    else if IsBase64Char(s[0]) && IsBase64Char(s[1]) && IsBase64Char(s[2]) && IsBase64Char(s[3]) then
      match Decode(s[4..])
      case None => None
      case Some(rest) => Some(Unquad(s[0], s[1], s[2], s[3]) + rest)
    else None
  }

  /** The three six-bit groups of a byte pair or triple recombine into the bytes. */
  lemma RegroupBytes(a: Byte, b: Byte, c: Byte)
    ensures (a / 4) * 4 + ((a % 4) * 16 + b / 16) / 16 == a
    ensures (((a % 4) * 16 + b / 16) % 16) * 16 + ((b % 16) * 4 + c / 64) / 4 == b
    ensures (((b % 16) * 4 + c / 64) % 4) * 64 + c % 64 == c
  {
  }

  lemma DecodeEncodeOne(a: Byte)
    ensures Decode(Encode([a])) == Some([a])
  {
    ValueOfDigit(a / 4);
    ValueOfDigit((a % 4) * 16);
    RegroupBytes(a, 0, 0);
  }

  lemma DecodeEncodeTwo(a: Byte, b: Byte)
    ensures Decode(Encode([a, b])) == Some([a, b])
  {
    ValueOfDigit(a / 4);
    ValueOfDigit((a % 4) * 16 + b / 16);
    ValueOfDigit((b % 16) * 4);
    RegroupBytes(a, b, 0);
  }

  /** A leading group of four alphabet characters decodes to three bytes before the rest. */
  lemma DecodeFullQuad(q: string, r: string)
    requires |q| == 4 && forall i :: 0 <= i < 4 ==> IsBase64Char(q[i])
    requires Decode(r).Some?
    ensures Decode(q + r) == Some(Unquad(q[0], q[1], q[2], q[3]) + Decode(r).value)
  {
    var s := q + r;
    assert s[4..] == r;
    assert s[0] == q[0] && s[1] == q[1] && s[2] == q[2] && s[3] == q[3];
  }

  /** Decoding what was encoded gives the bytes back. */
  lemma {:induction false} DecodeEncode(b: seq<Byte>)
    ensures Decode(Encode(b)) == Some(b)
    decreases |b|
  {
    if |b| == 1 {
      DecodeEncodeOne(b[0]);
      assert b == [b[0]];
    } else if |b| == 2 {
      DecodeEncodeTwo(b[0], b[1]);
      assert b == [b[0], b[1]];
    } else if |b| >= 3 {
      DecodeEncode(b[3..]);
      DecodeEncodeQuad(b);
    }
  }

  /** Three leading bytes survive the round trip when the rest does. */
  lemma DecodeEncodeQuad(b: seq<Byte>)
    requires |b| >= 3 && Decode(Encode(b[3..])) == Some(b[3..])
    ensures Decode(Encode(b)) == Some(b)
  {
    assert Encode(b) == Quad(b[0], b[1], b[2]) + Encode(b[3..]);
    DecodeQuadThen(b[0], b[1], b[2], Encode(b[3..]), b[3..]);
    SplitThree(b);
  }

  lemma SplitThree<T>(s: seq<T>)
    requires |s| >= 3
    ensures s == [s[0], s[1], s[2]] + s[3..]
  {
  }

  /** The four characters of three bytes, in front of a text that decodes, decode to
      those bytes in front of what the text decodes to. */
  lemma DecodeQuadThen(a: Byte, b: Byte, c: Byte, r: string, rest: seq<Byte>)
    requires Decode(r) == Some(rest)
    ensures Decode(Quad(a, b, c) + r) == Some([a, b, c] + rest)
  {
    UnquadQuad(a, b, c);
    DecodeFullQuad(Quad(a, b, c), r);
  }

  /** The byte string a text stands for, when every character is at most U+00FF. */
  function Latin1Bytes(s: string): (r: Option<seq<Byte>>)
    ensures r.Some? <==> forall i :: 0 <= i < |s| ==> s[i] as int < 256
    ensures r.Some? ==> |r.value| == |s| && forall i :: 0 <= i < |s| ==> r.value[i] == s[i] as int
  {
    if s == [] then Some([])
    else if s[0] as int >= 256 then None
    else
      match Latin1Bytes(s[1..])
      case None => None
      case Some(rest) => Some([s[0] as int as Byte] + rest)
  }

  /** The text whose characters are the given bytes (`String.fromCharCode` of each). */
  function BytesText(b: seq<Byte>): (s: string)
    ensures |s| == |b| && forall i :: 0 <= i < |b| ==> s[i] as int == b[i]
  {
    if b == [] then "" else [b[0] as char] + BytesText(b[1..])
  }

  /** `btoa(s)`: throws `InvalidCharacterError` when a character is above U+00FF. */
  function Btoa(s: string): (r: Result<string>)
    ensures r.Throw? <==> exists i :: 0 <= i < |s| && s[i] as int >= 256
    ensures r.Throw? ==> r.failure == InvalidCharacterError
  {
    match Latin1Bytes(s)
    case None => Throw(InvalidCharacterError)
    case Some(b) => Ok(Encode(b))
  }

  /** `atob(s)` on canonical input. */
  function Atob(s: string): Option<string> {
    match Decode(s)
    case None => None
    case Some(b) => Some(BytesText(b))
  }

  /** `atob(btoa(s)) == s` for every text that `btoa` accepts. */
  lemma AtobBtoa(s: string)
    requires Btoa(s).Ok?
    ensures Atob(Btoa(s).value) == Some(s)
  {
    var b := Latin1Bytes(s).value;
    DecodeEncode(b);
    assert BytesText(b) == s;
  }

  /** Every character of `btoa`'s output is from the alphabet or is `=` padding. */
  lemma {:induction false} EncodeAlphabet(b: seq<Byte>)
    ensures forall i :: 0 <= i < |Encode(b)| ==> IsBase64Char(Encode(b)[i]) || Encode(b)[i] == '='
    decreases |b|
  {
    if |b| >= 3 {
      EncodeAlphabet(b[3..]);
    }
  }
}

/** Text as the JavaScript runtime stores it (UTF-16 code units) and the two
    conversions the literal encoder relies on: `encodeURIComponent` followed by
    turning every `%XX` escape back into one character, which together yield the
    UTF-8 bytes of the text (RFC 3629, section 3), and the inverse,
    `decodeURIComponent(escape(...))`, which reads UTF-8 bytes back into code units. */
module Utf8 {
  import opened Results
  import opened Base64
  import Text

  type Unit = u: int | 0 <= u < 0x10000

  predicate IsHighSurrogate(u: int) { 0xD800 <= u < 0xDC00 }
  predicate IsLowSurrogate(u: int) { 0xDC00 <= u < 0xE000 }
  predicate IsSurrogate(u: int) { 0xD800 <= u < 0xE000 }

  /** The code units of one character: itself, or a surrogate pair above U+FFFF. */
  function CharUnits(c: char): (r: seq<Unit>)
    ensures |r| == 1 <==> c as int < 0x10000
    ensures |r| == 1 ==> r[0] == c as int && !IsSurrogate(r[0])
    ensures |r| == 2 ==> IsHighSurrogate(r[0]) && IsLowSurrogate(r[1])
    ensures |r| == 1 || |r| == 2
  {
    var v := c as int;
    if v < 0x10000 then [v]
    else [0xD800 + (v - 0x10000) / 1024, 0xDC00 + (v - 0x10000) % 1024]
  }

  /** The UTF-16 code units of a text, which is what `split('')` splits into. */
  function Units(s: string): (r: seq<Unit>)
    ensures |r| >= |s|
  {
    if s == [] then [] else CharUnits(s[0]) + Units(s[1..])
  }

  lemma {:induction false} UnitsAppend(a: string, b: string)
    ensures Units(a + b) == Units(a) + Units(b)
    decreases |a|
  {
    if a == [] {
      assert a + b == b;
    } else {
      assert (a + b)[0] == a[0];
      assert (a + b)[1..] == a[1..] + b;
      UnitsAppend(a[1..], b);
      calc {
        Units(a + b);
        CharUnits(a[0]) + Units(a[1..] + b);
        CharUnits(a[0]) + (Units(a[1..]) + Units(b));
        (CharUnits(a[0]) + Units(a[1..])) + Units(b);
      }
    }
  }

  /** The UTF-8 bytes of one code point. */
  function CodePointBytes(cp: nat): (r: seq<Byte>)
    requires cp < 0x110000
    ensures 1 <= |r| <= 4
  {
    if cp < 0x80 then [cp]
    else if cp < 0x800 then [0xC0 + cp / 64, 0x80 + cp % 64]
    else if cp < 0x10000 then [0xE0 + cp / 4096, 0x80 + (cp / 64) % 64, 0x80 + cp % 64]
    else [0xF0 + cp / 262144, 0x80 + (cp / 4096) % 64, 0x80 + (cp / 64) % 64, 0x80 + cp % 64]
  }

  /** `encodeURIComponent(str)` with every `%XX` turned back into the byte it names:
      the UTF-8 bytes of the text, or `URIError` at a surrogate that is not part of a pair.
      (Characters that `encodeURIComponent` leaves alone are ASCII, whose UTF-8 byte is
      the character itself.) */
  function Utf8Bytes(u: seq<Unit>): (r: Result<seq<Byte>>)
    ensures r.Throw? ==> r.failure == UriError
  {
    if u == [] then Ok([])
    else if IsLowSurrogate(u[0]) then Throw(UriError)
    else if IsHighSurrogate(u[0]) then
      if |u| >= 2 && IsLowSurrogate(u[1]) then
        match Utf8Bytes(u[2..])
        case Throw(f) => Throw(f)
        case Ok(rest) => Ok(CodePointBytes(Combine(u[0], u[1])) + rest)
      else Throw(UriError)
    else
      match Utf8Bytes(u[1..])
      case Throw(f) => Throw(f)
      case Ok(rest) => Ok(CodePointBytes(u[0]) + rest)
  }

  predicate IsContinuation(b: Byte) { 0x80 <= b < 0xC0 }

  /** `decodeURIComponent(escape(bytes))`: reads UTF-8 into code units; `None` where
      the runtime would throw on a malformed sequence. */
  function DecodeUtf8(b: seq<Byte>): Option<seq<Unit>>
    decreases |b|
  {
    if b == [] then Some([])
    else if b[0] < 0x80 then
      match DecodeUtf8(b[1..])
      case None => None
      case Some(rest) => Some([b[0]] + rest)
    else if 0xC0 <= b[0] < 0xE0 && |b| >= 2 && IsContinuation(b[1]) then
      var cp := (b[0] as int - 0xC0) * 64 + (b[1] as int - 0x80);
      if cp < 0x80 then None
      else
        match DecodeUtf8(b[2..])
        case None => None
        case Some(rest) => Some([cp] + rest)
    else if 0xE0 <= b[0] < 0xF0 && |b| >= 3 && IsContinuation(b[1]) && IsContinuation(b[2]) then
      var cp := (b[0] as int - 0xE0) * 4096 + (b[1] as int - 0x80) * 64 + (b[2] as int - 0x80);
      if cp < 0x800 || IsSurrogate(cp) then None
      else
        match DecodeUtf8(b[3..])
        case None => None
        case Some(rest) => Some([cp] + rest)
    else if 0xF0 <= b[0] < 0xF8 && |b| >= 4 && IsContinuation(b[1]) && IsContinuation(b[2])
         && IsContinuation(b[3]) then
      var cp := (b[0] as int - 0xF0) * 262144 + (b[1] as int - 0x80) * 4096 + (b[2] as int - 0x80) * 64 + (b[3] as int - 0x80);
      if cp < 0x10000 || cp >= 0x110000 then None
      else
        match DecodeUtf8(b[4..])
        case None => None
        case Some(rest) =>
          Some([0xD800 + (cp - 0x10000) / 1024, 0xDC00 + (cp - 0x10000) % 1024] + rest)
    else None
  }

  /** A code point below U+0800 survives encoding then decoding. */
  lemma TwoByteForm(cp: nat)
    requires 0x80 <= cp < 0x800
    ensures var r := CodePointBytes(cp);
      0xC0 <= r[0] < 0xE0 && IsContinuation(r[1]) && (r[0] as int - 0xC0) * 64 + (r[1] as int - 0x80) == cp
  {
  }

  lemma ThreeByteForm(cp: nat)
    requires 0x800 <= cp < 0x10000
    ensures var r := CodePointBytes(cp);
      0xE0 <= r[0] < 0xF0 && IsContinuation(r[1]) && IsContinuation(r[2])
      && (r[0] as int - 0xE0) * 4096 + (r[1] as int - 0x80) * 64 + (r[2] as int - 0x80) == cp
  {
    assert cp / 4096 == (cp / 64) / 64;
  }

  lemma FourByteForm(cp: nat)
    requires 0x10000 <= cp < 0x110000
    ensures var r := CodePointBytes(cp);
      0xF0 <= r[0] < 0xF8 && IsContinuation(r[1]) && IsContinuation(r[2]) && IsContinuation(r[3])
      && (r[0] as int - 0xF0) * 262144 + (r[1] as int - 0x80) * 4096 + (r[2] as int - 0x80) * 64 + (r[3] as int - 0x80) == cp
  {
    var q := cp / 64;
    assert cp / 4096 == q / 64;
    assert cp / 262144 == (q / 64) / 64;
  }

  /** The code point a surrogate pair stands for. */
  function Combine(h: int, l: int): (cp: nat)
    requires IsHighSurrogate(h) && IsLowSurrogate(l)
    ensures 0x10000 <= cp < 0x110000
  {
    0x10000 + (h - 0xD800) * 1024 + (l - 0xDC00)
  }

  /** The code units of a code point: itself below U+10000, else its surrogate pair. */
  function CodePointUnits(cp: nat): seq<Unit>
    requires cp < 0x110000
  {
    if cp < 0x10000 then [cp] else [0xD800 + (cp - 0x10000) / 1024, 0xDC00 + (cp - 0x10000) % 1024]
  }

  /** A surrogate pair combines into a supplementary code point and splits back into the pair. */
  lemma PairForm(h: int, l: int)
    requires IsHighSurrogate(h) && IsLowSurrogate(l)
    ensures CodePointUnits(Combine(h, l)) == [h, l]
  {
  }

  /** Decoding one code point's bytes followed by more bytes. */
  lemma DecodeCodePoint(cp: nat, rest: seq<Byte>)
    requires cp < 0x110000 && !IsSurrogate(cp)
    requires DecodeUtf8(rest).Some?
    ensures DecodeUtf8(CodePointBytes(cp) + rest) == Some(CodePointUnits(cp) + DecodeUtf8(rest).value)
  {
    var b := CodePointBytes(cp) + rest;
    if cp < 0x80 {
      assert b[1..] == rest;
    } else if cp < 0x800 {
      TwoByteForm(cp);
      assert b[2..] == rest;
    } else if cp < 0x10000 {
      ThreeByteForm(cp);
      assert b[3..] == rest;
    } else {
      FourByteForm(cp);
      assert b[4..] == rest;
    }
  }

  lemma DecodePairStep(u: seq<Unit>)
    requires |u| >= 2 && IsHighSurrogate(u[0]) && IsLowSurrogate(u[1])
    requires Utf8Bytes(u[2..]).Ok? && DecodeUtf8(Utf8Bytes(u[2..]).value) == Some(u[2..])
    ensures Utf8Bytes(u).Ok? && DecodeUtf8(Utf8Bytes(u).value) == Some(u)
  {
    var cp := Combine(u[0], u[1]);
    PairForm(u[0], u[1]);
    var rest := Utf8Bytes(u[2..]).value;
    assert Utf8Bytes(u).value == CodePointBytes(cp) + rest;
    DecodeCodePoint(cp, rest);
    assert u == [u[0], u[1]] + u[2..];
  }

  lemma DecodeSingleStep(u: seq<Unit>)
    requires |u| >= 1 && !IsSurrogate(u[0])
    requires Utf8Bytes(u[1..]).Ok? && DecodeUtf8(Utf8Bytes(u[1..]).value) == Some(u[1..])
    ensures Utf8Bytes(u).Ok? && DecodeUtf8(Utf8Bytes(u).value) == Some(u)
  {
    var rest := Utf8Bytes(u[1..]).value;
    assert Utf8Bytes(u).value == CodePointBytes(u[0]) + rest;
    DecodeCodePoint(u[0], rest);
    assert u == [u[0]] + u[1..];
  }

  /** UTF-8 decoding undoes UTF-8 encoding for every text `encodeURIComponent` accepts. */
  lemma {:induction false} DecodeUtf8Bytes(u: seq<Unit>)
    requires Utf8Bytes(u).Ok?
    ensures DecodeUtf8(Utf8Bytes(u).value) == Some(u)
    decreases |u|
  {
    if u != [] {
      if IsHighSurrogate(u[0]) {
        DecodeUtf8Bytes(u[2..]);
        DecodePairStep(u);
      } else {
        DecodeUtf8Bytes(u[1..]);
        DecodeSingleStep(u);
      }
    }
  }

  /** The code units of a well-formed text never make `encodeURIComponent` throw. */
  lemma {:induction false} UnitsEncode(s: string)
    ensures Utf8Bytes(Units(s)).Ok?
  {
    if s != [] {
      UnitsEncode(s[1..]);
      var u := Units(s);
      var cu := CharUnits(s[0]);
      assert u == cu + Units(s[1..]);
      if |cu| == 1 {
        assert u[1..] == Units(s[1..]);
      } else {
        assert u[2..] == Units(s[1..]);
      }
    }
  }

  /** A unit sequence that starts with a low surrogate after any number of
      non-surrogates makes `encodeURIComponent` throw. */
  lemma {:induction false} LowSurrogateFirstThrows(u: seq<Unit>, k: nat)
    requires k < |u| && IsLowSurrogate(u[k])
    requires forall i :: 0 <= i < k ==> !IsSurrogate(u[i])
    ensures Utf8Bytes(u).Throw?
    decreases k
  {
    if k > 0 {
      LowSurrogateFirstThrows(u[1..], k - 1);
    }
  }

  /** A sequence without surrogates always encodes. */
  lemma {:induction false} NoSurrogateEncodes(u: seq<Unit>)
    requires forall i :: 0 <= i < |u| ==> !IsSurrogate(u[i])
    ensures Utf8Bytes(u).Ok?
    decreases |u|
  {
    if u != [] {
      NoSurrogateEncodes(u[1..]);
    }
  }

  /** `safeBtoa(str)`: base64 of the UTF-8 bytes of the text's code units. */
  function SafeBtoa(u: seq<Unit>): (r: Result<string>)
    ensures r.Throw? <==> Utf8Bytes(u).Throw?
  {
    match Utf8Bytes(u)
    case Throw(f) => Throw(f)
    case Ok(b) => Ok(Encode(b))
  }

  /** What the emitted `decodeURIComponent(escape(atob(B)))` evaluates to. */
  function DecodeEmitted(b64: string): Option<seq<Unit>> {
    match Decode(b64)
    case None => None
    case Some(b) => DecodeUtf8(b)
  }

  /** The emitted decoder gives back the code units `safeBtoa` encoded. */
  lemma SafeBtoaRoundTrip(u: seq<Unit>)
    requires SafeBtoa(u).Ok?
    ensures DecodeEmitted(SafeBtoa(u).value) == Some(u)
  {
    DecodeEncode(Utf8Bytes(u).value);
    DecodeUtf8Bytes(u);
  }

  /** A text with no character above U+FFFF is one code unit per character, none a surrogate. */
  lemma {:induction false} BmpUnits(s: string)
    requires forall i :: 0 <= i < |s| ==> s[i] as int < 0x10000
    ensures |Units(s)| == |s|
    ensures forall i :: 0 <= i < |s| ==> Units(s)[i] == s[i] as int && !IsSurrogate(Units(s)[i])
  {
    if s != [] {
      BmpUnits(s[1..]);
    }
  }

  /** The reversed code units of a text, built character by character. */
  function ReversedUnits(s: string): seq<Unit> {
    if s == [] then [] else ReversedUnits(s[1..]) + Text.Reverse(CharUnits(s[0]))
  }

  lemma ReverseAppend<T>(a: seq<T>, b: seq<T>)
    ensures Text.Reverse(a + b) == Text.Reverse(b) + Text.Reverse(a)
  {
  }

  lemma {:induction false} ReversedUnitsIsReverse(s: string)
    ensures Text.Reverse(Units(s)) == ReversedUnits(s)
  {
    if s != [] {
      ReversedUnitsIsReverse(s[1..]);
      ReverseAppend(CharUnits(s[0]), Units(s[1..]));
    }
  }

  /** In the reversal of a text's code units, the first surrogate met, at `k`, is the
      low half of the last supplementary character. */
  lemma {:induction false} ReversedFirstSurrogateIsLow(s: string) returns (k: nat)
    requires exists i :: 0 <= i < |s| && s[i] as int >= 0x10000
    ensures k < |ReversedUnits(s)| && IsLowSurrogate(ReversedUnits(s)[k])
    ensures forall j :: 0 <= j < k ==> !IsSurrogate(ReversedUnits(s)[j])
  {
    var rest := ReversedUnits(s[1..]);
    var u := ReversedUnits(s);
    assert u == rest + Text.Reverse(CharUnits(s[0]));
    if exists i :: 0 <= i < |s[1..]| && s[1..][i] as int >= 0x10000 {
      k := ReversedFirstSurrogateIsLow(s[1..]);
      assert u[k] == rest[k];
      forall j | 0 <= j < k ensures !IsSurrogate(u[j]) {
        assert u[j] == rest[j];
      }
    } else {
      k := |rest|;
      LastWideFirstLow(s);
    }
  }

  /** When only the first character of a text is above U+FFFF, the first surrogate of
      the reversed code units is that character's low half, after the units of the rest. */
  lemma LastWideFirstLow(s: string)
    requires exists i :: 0 <= i < |s| && s[i] as int >= 0x10000
    requires !exists i :: 0 <= i < |s[1..]| && s[1..][i] as int >= 0x10000
    ensures var k := |ReversedUnits(s[1..])|;
      && k < |ReversedUnits(s)| && IsLowSurrogate(ReversedUnits(s)[k])
      && forall j :: 0 <= j < k ==> !IsSurrogate(ReversedUnits(s)[j])
  {
    var rest := ReversedUnits(s[1..]);
    var u := ReversedUnits(s);
    assert u == rest + Text.Reverse(CharUnits(s[0]));
    assert s[0] as int >= 0x10000 by {
      var i :| 0 <= i < |s| && s[i] as int >= 0x10000;
      if i > 0 { assert s[1..][i - 1] == s[i]; }
    }
    BmpUnits(s[1..]);
    ReversedUnitsIsReverse(s[1..]);
    var k := |rest|;
    assert u[k] == CharUnits(s[0])[1];
    forall j | 0 <= j < k ensures !IsSurrogate(u[j]) {
      assert u[j] == rest[j];
    }
  }

  /** Encoding the reversed code units of a literal throws `URIError` exactly when the
      literal holds a character above U+FFFF: reversal turns each surrogate pair around. */
  lemma ReversedUnitsThrow(s: string)
    ensures SafeBtoa(Text.Reverse(Units(s))).Throw? <==> exists i :: 0 <= i < |s| && s[i] as int >= 0x10000
  {
    var r := Text.Reverse(Units(s));
    ReversedUnitsIsReverse(s);
    if exists i :: 0 <= i < |s| && s[i] as int >= 0x10000 {
      var k := ReversedFirstSurrogateIsLow(s);
      LowSurrogateFirstThrows(r, k);
    } else {
      BmpUnits(s);
      NoSurrogateEncodes(r);
    }
  }
}

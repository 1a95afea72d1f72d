/** Character classes and string utilities shared by every pass: the JavaScript
    notions of white space and line terminator, `trim`, `split` on one character,
    `join`, reversal, and decimal and hexadecimal numerals. */
module Text {

  /** Characters that end a line for `.` and the multiline `$` of a regular expression. */
  predicate IsLineTerminator(c: char) {
    c == '\n' || c == '\r' || c == '\U{2028}' || c == '\U{2029}'
  }

  /** The class `\s` of a regular expression, which is also what `String.prototype.trim` removes. */
  predicate IsSpace(c: char) {
    c == '\t' || c == '\n' || c == '\U{000B}' || c == '\U{000C}' || c == '\r' || c == ' '
    || c == '\U{00A0}' || c == '\U{1680}' || ('\U{2000}' <= c <= '\U{200A}')
    || c == '\U{2028}' || c == '\U{2029}' || c == '\U{202F}' || c == '\U{205F}'
    || c == '\U{3000}' || c == '\U{FEFF}'
  }

  /** The class `\w` of a regular expression, which decides where `\b` holds. */
  predicate IsWordChar(c: char) {
    ('a' <= c <= 'z') || ('A' <= c <= 'Z') || ('0' <= c <= '9') || c == '_'
  }

  predicate IsDigit(c: char) {
    '0' <= c <= '9'
  }

  predicate AllSpace(s: string) {
    forall i :: 0 <= i < |s| ==> IsSpace(s[i])
  }

  /** Number of leading white-space characters. */
  function LeadingSpace(s: string): (n: nat)
    ensures n <= |s|
    ensures AllSpace(s[..n])
    ensures n < |s| ==> !IsSpace(s[n])
  {
    if s == [] || !IsSpace(s[0]) then 0
    else
      var m := LeadingSpace(s[1..]);
      assert s[1..][..m] == s[1..m + 1];
      1 + m
  }

  /** Number of trailing white-space characters. */
  function TrailingSpace(s: string): (n: nat)
    ensures n <= |s|
    ensures AllSpace(s[|s| - n..])
    ensures n < |s| ==> !IsSpace(s[|s| - n - 1])
  {
    if s == [] || !IsSpace(s[|s| - 1]) then 0
    else
      var m := TrailingSpace(s[..|s| - 1]);
      1 + m
  }

  /** `String.prototype.trim`: the slice of `s` left after removing white space at both ends. */
  function Trim(s: string): (r: string)
    ensures exists i, j :: 0 <= i <= j <= |s| && r == s[i..j] && AllSpace(s[..i]) && AllSpace(s[j..])
    ensures r != [] ==> !IsSpace(r[0]) && !IsSpace(r[|r| - 1])
    ensures r == [] <==> AllSpace(s)
  {
    var i := LeadingSpace(s);
    var t := s[i..];
    var n := TrailingSpace(t);
    assert t[|t| - n..] == s[|s| - n..];
    assert s[i..|s| - n] == t[..|t| - n];
    if i == |s| then
      assert s[..i] == s;
      s[i..i]
    else
      assert s[i] == t[0];
      assert !IsSpace(s[i]);
      t[..|t| - n]
  }

  /** `s.split(c)` for a one-character separator. */
  function Split(s: string, c: char): (parts: seq<string>)
    ensures |parts| >= 1
    ensures forall k :: 0 <= k < |parts| ==> c !in parts[k]
  {
    if c !in s then [s]
    else
      var i := IndexOf(s, c);
      [s[..i]] + Split(s[i + 1..], c)
  }

  /** The position of the first occurrence of `c` in `s`. */
  function IndexOf(s: string, c: char): (i: nat)
    requires c in s
    ensures i < |s| && s[i] == c && c !in s[..i]
  {
    if s[0] == c then 0 else 1 + IndexOf(s[1..], c)
  }

  /** `parts.join(sep)`. */
  function Join(parts: seq<string>, sep: string): string {
    if parts == [] then ""
    else if |parts| == 1 then parts[0]
    else parts[0] + sep + Join(parts[1..], sep)
  }

  /** Splitting on `c` and joining with `c` gives the text back. */
  lemma {:induction false} JoinSplit(s: string, c: char)
    ensures Join(Split(s, c), [c]) == s
  {
    if c in s {
      var i := IndexOf(s, c);
      JoinSplit(s[i + 1..], c);
      JoinSplitFirst(s, c);
      Around(s, i);
    }
  }

  /** The first part, the separator, and the rest joined again. */
  lemma JoinSplitFirst(s: string, c: char)
    requires c in s
    ensures var i := IndexOf(s, c);
      Join(Split(s, c), [c]) == s[..i] + [c] + Join(Split(s[i + 1..], c), [c])
  {
    var i := IndexOf(s, c);
    var parts := Split(s, c);
    assert parts[1..] == Split(s[i + 1..], c);
  }

  /** A sequence is what comes before an element, the element and what comes after. */
  lemma Around<T>(s: seq<T>, i: nat)
    requires i < |s|
    ensures s == s[..i] + [s[i]] + s[i + 1..]
  {
  }

  /** Number of occurrences of `c` in `s`. */
  function Count(s: string, c: char): nat {
    if s == [] then 0 else (if s[0] == c then 1 else 0) + Count(s[1..], c)
  }

  lemma {:induction false} CountAppend(a: string, b: string, c: char)
    ensures Count(a + b, c) == Count(a, c) + Count(b, c)
    decreases |a|
  {
    if a == [] {
      assert a + b == b;
    } else {
      assert (a + b)[0] == a[0];
      assert (a + b)[1..] == a[1..] + b;
      CountAppend(a[1..], b, c);
    }
  }

  /** There is one more part than there are separators. */
  lemma {:induction false} SplitLength(s: string, c: char)
    ensures |Split(s, c)| == Count(s, c) + 1
  {
    if c in s {
      var i := IndexOf(s, c);
      SplitLength(s[i + 1..], c);
      NotInCount(s[..i], c);
      assert s == s[..i] + ([c] + s[i + 1..]);
      CountAppend(s[..i], [c] + s[i + 1..], c);
      assert ([c] + s[i + 1..])[1..] == s[i + 1..];
    } else {
      NotInCount(s, c);
    }
  }

  lemma {:induction false} NotInCount(s: string, c: char)
    requires c !in s
    ensures Count(s, c) == 0
    decreases |s|
  {
    if s != [] {
      NotInCount(s[1..], c);
    }
  }

  function Reverse<T>(s: seq<T>): (r: seq<T>)
    ensures |r| == |s|
    ensures forall i :: 0 <= i < |s| ==> r[i] == s[|s| - 1 - i]
  {
    if s == [] then [] else Reverse(s[1..]) + [s[0]]
  }

  /** Reversing twice gives the sequence back. */
  lemma ReverseReverse<T>(s: seq<T>)
    ensures Reverse(Reverse(s)) == s
  {
  }

  /** The decimal digit for `d`. */
  function DigitChar(d: nat): (c: char)
    requires d < 10
    ensures IsDigit(c) && (c as int) - ('0' as int) == d
  {
    ('0' as int + d) as char
  }

  /** `String(n)` for a natural number: decimal, no leading zero. */
  function Decimal(n: nat): (r: string)
    ensures r != []
    ensures forall i :: 0 <= i < |r| ==> IsDigit(r[i])
    ensures |r| > 1 ==> r[0] != '0'
  {
    if n < 10 then [DigitChar(n)] else Decimal(n / 10) + [DigitChar(n % 10)]
  }

  /** `parseInt` of a run of decimal digits. */
  function DigitsValue(s: string): nat
    requires forall i :: 0 <= i < |s| ==> IsDigit(s[i])
  {
    if s == [] then 0
    else DigitsValue(s[..|s| - 1]) * 10 + DigitOf(s[|s| - 1])
  }

  function DigitOf(c: char): nat
    requires IsDigit(c)
  {
    (c as int) - ('0' as int)
  }

  /** Reading back the decimal numeral gives the number. */
  lemma {:induction false} DecimalValue(n: nat)
    ensures DigitsValue(Decimal(n)) == n
  {
    if n >= 10 {
      DecimalValue(n / 10);
      var d := Decimal(n / 10) + [DigitChar(n % 10)];
      assert d[..|d| - 1] == Decimal(n / 10);
    }
  }

  /** Distinct numbers have distinct numerals. */
  lemma DecimalInjective(m: nat, n: nat)
    requires Decimal(m) == Decimal(n)
    ensures m == n
  {
    DecimalValue(m);
    DecimalValue(n);
  }

  /** The lower-case hexadecimal digit for `d`, as `d.toString(16)` writes it. */
  function HexChar(d: nat): (c: char)
    requires d < 16
  {
    if d < 10 then DigitChar(d) else ('a' as int + (d - 10)) as char
  }

  predicate IsHexChar(c: char) {
    IsDigit(c) || ('a' <= c <= 'f')
  }

  lemma HexCharIsHex(d: nat)
    requires d < 16
    ensures IsHexChar(HexChar(d))
  {
  }

  predicate AllDigits(s: string) {
    forall i :: 0 <= i < |s| ==> IsDigit(s[i])
  }

  /** `s.startsWith(w)`. */
  predicate StartsWith(s: string, w: string) {
    |w| <= |s| && s[..|w|] == w
  }

  /** `s.includes(w)`. */
  predicate Contains(s: string, w: string)
    decreases |s|
  {
    StartsWith(s, w) || (s != [] && Contains(s[1..], w))
  }

  /** What occurs in a suffix occurs in the whole text. */
  lemma {:induction false} ContainsSuffix(s: string, j: nat, w: string)
    requires j <= |s|
    ensures Contains(s[j..], w) ==> Contains(s, w)
    decreases j
  {
    if j > 0 {
      assert s[1..][j - 1..] == s[j..];
      ContainsSuffix(s[1..], j - 1, w);
    }
  }

  lemma ConcatAssoc<T>(x: seq<T>, y: seq<T>, z: seq<T>)
    ensures x + (y + z) == (x + y) + z
  {
  }

  lemma Assoc3(x: string, y: string, z: string)
    ensures x + y + z == x + (y + z)
  {
  }

  lemma Assoc4(w: string, x: string, y: string, z: string)
    ensures w + x + y + z == w + (x + y + z)
  {
  }

  lemma AppendEmpty(x: string)
    ensures "" + x == x && x + "" == x
  {
  }

  /** A prefix of a text is a prefix of any extension of it. */
  lemma StartsWithAppend(a: string, b: string, w: string)
    requires StartsWith(a, w)
    ensures StartsWith(a + b, w)
  {
    assert (a + b)[..|w|] == a[..|w|];
  }

  /** The last `k` characters of `b` end `a + b` too. */
  lemma SuffixOf(a: string, b: string, k: nat)
    requires k <= |b|
    ensures (a + b)[|a + b| - k..] == b[|b| - k..]
  {
  }

  /** What occurs in either half of a text occurs in the whole. */
  lemma {:induction false} ContainsAppend(a: string, b: string, w: string)
    ensures Contains(a, w) ==> Contains(a + b, w)
    ensures Contains(b, w) ==> Contains(a + b, w)
    decreases |a|
  {
    if a == [] {
      assert a + b == b;
    } else {
      ContainsAppend(a[1..], b, w);
      assert (a + b)[1..] == a[1..] + b;
      if StartsWith(a, w) {
        assert (a + b)[..|w|] == a[..|w|];
      }
    }
  }

  /** A text with a first character `c` starts with `w` exactly when `c` is the first
      character of `w` and the rest starts with the rest of `w`. */
  lemma ConsStartsWith(c: char, f: string, w: string)
    requires w != []
    ensures StartsWith([c] + f, w) <==> c == w[0] && StartsWith(f, w[1..])
  {
    if |w| <= |f| + 1 {
      assert ([c] + f)[..|w|] == [c] + f[..|w| - 1];
    }
  }

  /** Joining parts that do not contain `c` with `c` and splitting on `c` gives the
      parts back. */
  lemma {:induction false} SplitJoin(parts: seq<string>, c: char)
    requires |parts| >= 1
    requires forall k :: 0 <= k < |parts| ==> c !in parts[k]
    ensures Split(Join(parts, [c]), c) == parts
    decreases |parts|
  {
    if |parts| > 1 {
      var p := parts[0];
      var rest := Join(parts[1..], [c]);
      var s := p + [c] + rest;
      assert Join(parts, [c]) == s;
      assert s[|p|] == c && s[..|p|] == p;
      var i := IndexOf(s, c);
      assert i <= |p| ==> s[i] in s[..|p|] + [c];
      assert s[i + 1..] == rest;
      SplitJoin(parts[1..], c);
      assert parts == [p] + parts[1..];
    }
  }
}

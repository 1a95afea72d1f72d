/** `encodeStrings` of obfuscator.js: every string literal is moved into an array of
    unquoted base64 entries, `_0xstrings`, and replaced by a reference to its slot; the array,
    a decoding function and (optionally) a shuffle statement are put in front. */
module StringArray {
  import opened Results
  import opened Text
  import opened Base64
  import opened Lexer

  /** The reference that replaces literal `i`. */
  function Ref(i: nat): string {
    "_0xstrings[" + Decimal(i) + "]"
  }

  function Refs(m: nat): (r: seq<string>)
    ensures |r| == m && forall i :: 0 <= i < m ==> r[i] == Ref(i)
  {
    seq(m, (i: int) requires 0 <= i => Ref(i))
  }

  /** The array entry for one literal: its base64, reversed when rotating. `btoa`
      throws on the literal exactly when it holds a character above U+00FF. */
  function Entry(lit: string, rotate: bool): (r: Result<string>)
    ensures r.Throw? <==> exists i :: 0 <= i < |lit| && lit[i] as int >= 256
    ensures r.Throw? ==> r.failure == InvalidCharacterError
  {
    match Btoa(lit)
    case Throw(f) => Throw(f)
    case Ok(b) => Ok(if rotate then Reverse(b) else b)
  }

  /** `strings.map(...)`: the entries in order, or the exception of the first literal
      `btoa` rejects. */
  function Entries(lits: seq<string>, rotate: bool): (r: Result<seq<string>>)
    ensures r.Ok? ==> |r.value| == |lits|
  {
    if lits == [] then Ok([])
    else
      match Entry(lits[0], rotate)
      case Throw(f) => Throw(f)
      case Ok(e) =>
        match Entries(lits[1..], rotate)
        case Throw(f) => Throw(f)
        case Ok(es) => Ok([e] + es)
  }

  const DecodeFunctionHead := "function _0xdecode(str) { "
  const PlainDecodeBody := "return atob(str);"
  const RotateDecodeBody := "return atob(str.split(\"\").reverse().join(\"\"));"
  const ShuffleLine := "_0xstrings=_0xstrings.sort(()=>Math.random()-0.5);\n"

  /** What the emitted `_0xdecode` computes for an entry. */
  function Decoder(rotate: bool, e: string): Option<string> {
    Atob(if rotate then Reverse(e) else e)
  }

  /** The text put in front of the code when there is at least one literal. */
  function ArrayCode(es: seq<string>, rotate: bool, shuffle: bool): string {
    "const _0xstrings=[" + Join(es, ",") + "];\n"
    + DecodeFunctionHead + (if rotate then RotateDecodeBody else PlainDecodeBody) + " }\n"
    + (if shuffle && |es| > 1 then ShuffleLine else "")
  }

  /** `encodeStrings(code, options)` with `rotate` and `shuffle` the truth of
      `options.stringArrayRotate` and `options.stringArrayShuffle`. */
  function EncodedStrings(code: string, rotate: bool, shuffle: bool): Result<string> {
    var ps := Scan(StringLiteral, None, code);
    var lits := Matches(ps);
    var body := Fill(ps, Refs(|lits|));
    if lits == [] then Ok(body)
    else
      match Entries(lits, rotate)
      case Throw(f) => Throw(f)
      case Ok(es) => Ok(ArrayCode(es, rotate, shuffle) + body)
  }

  /** `encodeStrings(code, options)`: the replace, then the `+=` building of the array
      text in front of the result. */
  method EncodeStrings(code: string, rotate: bool, shuffle: bool) returns (r: Result<string>)
    ensures r == EncodedStrings(code, rotate, shuffle)
  {
    var body, strings := ReplaceLiterals(code);
    ghost var ps := Scan(StringLiteral, None, code);
    assert strings == Matches(ps) && body == Fill(ps, Refs(|strings|));
    var arrayCode := "";
    if |strings| > 0 {
      var entries := Entries(strings, rotate);
      if entries.Throw? {
        assert entries == Throw(entries.failure);
        return Throw(entries.failure);
      }
      arrayCode := BuildArrayCode(entries.value, rotate, shuffle);
    } else {
      assert arrayCode + body == body;
    }
    r := Ok(arrayCode + body);
  }

  /** The replace whose callback pushes the literal and returns the reference numbered
      by `strIndex++`. */
  method ReplaceLiterals(code: string) returns (body: string, strings: seq<string>)
    ensures var ps := Scan(StringLiteral, None, code);
      strings == Matches(ps) && body == Fill(ps, Refs(|strings|))
  {
    var ps := Scan(StringLiteral, None, code);
    strings := [];
    var strIndex := 0;
    body := "";
    var i := 0;
    while i < |ps|
      invariant 0 <= i <= |ps|
      invariant strings == Matches(ps[..i]) && strIndex == |strings|
      invariant body == Fill(ps[..i], Refs(strIndex))
    {
      LiteralStep(ps, i, strIndex);
      match ps[i] {
        case Plain(c) =>
          body := body + [c];
        case Found(m, _) =>
          strings := strings + [m];
          body := body + Ref(strIndex);
          strIndex := strIndex + 1;
      }
      i := i + 1;
    }
    assert ps[..i] == ps;
  }

  /** One more piece of the replace: a stepped-over character is copied; a literal is
      pushed and replaced by the next reference. */
  lemma LiteralStep(ps: seq<Piece>, i: nat, n: nat)
    requires i < |ps| && n == |Matches(ps[..i])|
    ensures ps[i].Plain? ==>
      Matches(ps[..i + 1]) == Matches(ps[..i]) && Fill(ps[..i + 1], Refs(n)) == Fill(ps[..i], Refs(n)) + [ps[i].c]
    ensures ps[i].Found? ==>
      Matches(ps[..i + 1]) == Matches(ps[..i]) + [ps[i].text] && Fill(ps[..i + 1], Refs(n + 1)) == Fill(ps[..i], Refs(n)) + Ref(n)
  {
    assert ps[..i + 1] == ps[..i] + [ps[i]];
    MatchesAppend(ps[..i], [ps[i]]);
    assert Refs(n + 1) == Refs(n) + [Ref(n)];
    FillStep(ps, i, Refs(n), Ref(n));
  }

  /** The `+=` building of the array declaration, the decoder and the shuffle line. */
  method BuildArrayCode(entries: seq<string>, rotate: bool, shuffle: bool) returns (arrayCode: string)
    ensures arrayCode == ArrayCode(entries, rotate, shuffle)
  {
    arrayCode := "const _0xstrings=[";
    arrayCode := arrayCode + Join(entries, ",");
    arrayCode := arrayCode + "];\n";
    arrayCode := arrayCode + DecodeFunctionHead;
    if rotate {
      arrayCode := arrayCode + RotateDecodeBody;
    } else {
      arrayCode := arrayCode + PlainDecodeBody;
    }
    arrayCode := arrayCode + " }\n";
    if shuffle && |entries| > 1 {
      arrayCode := arrayCode + ShuffleLine;
    }
  }

  /** With no literal in the code the pass returns the code unchanged. */
  lemma NoLiteralsUnchanged(code: string, rotate: bool, shuffle: bool)
    requires Matches(Scan(StringLiteral, None, code)) == []
    ensures EncodedStrings(code, rotate, shuffle) == Ok(code)
  {
    var ps := Scan(StringLiteral, None, code);
    assert Refs(0) == Matches(ps);
    FillMatches(ps);
    FlattenScan(StringLiteral, None, code);
  }

  /** `btoa` rejects a literal exactly when it holds a character above U+00FF. */
  lemma {:induction false} EntriesThrow(lits: seq<string>, rotate: bool)
    ensures Entries(lits, rotate).Throw? <==>
      exists i, j :: 0 <= i < |lits| && 0 <= j < |lits[i]| && lits[i][j] as int >= 256
  {
    if lits != [] {
      EntriesThrow(lits[1..], rotate);
      if Entry(lits[0], rotate).Ok? && Entries(lits[1..], rotate).Ok? {
        forall i, j | 0 <= i < |lits| && 0 <= j < |lits[i]|
          ensures lits[i][j] as int < 256
        {
          if i > 0 {
            assert lits[i] == lits[1..][i - 1];
          }
        }
      }
    }
  }

  /** The pass fails exactly when some literal holds a character above U+00FF. */
  lemma EncodedStringsThrow(code: string, rotate: bool, shuffle: bool)
    ensures var lits := Matches(Scan(StringLiteral, None, code));
      EncodedStrings(code, rotate, shuffle).Throw? <==>
      exists i, j :: 0 <= i < |lits| && 0 <= j < |lits[i]| && lits[i][j] as int >= 256
  {
    var lits := Matches(Scan(StringLiteral, None, code));
    EntriesThrow(lits, rotate);
    if lits == [] {
      assert EncodedStrings(code, rotate, shuffle).Ok?;
    }
  }

  /** Base64, reversed or not, holds no comma. */
  lemma EntryNoComma(lit: string, rotate: bool)
    requires Entry(lit, rotate).Ok?
    ensures ',' !in Entry(lit, rotate).value
  {
    var b := Latin1Bytes(lit).value;
    EncodeAlphabet(b);
    var e := Encode(b);
    if rotate {
      assert forall i :: 0 <= i < |e| ==> Reverse(e)[i] == e[|e| - 1 - i];
    }
  }

  /** An entry holds no quote character of any kind: it is emitted between `[`, `,` and `]`
      as a bare token, not as a JavaScript string literal. */
  lemma EntryUnquoted(lit: string, rotate: bool)
    requires Entry(lit, rotate).Ok?
    ensures var e := Entry(lit, rotate).value; '\'' !in e && '"' !in e && '`' !in e
  {
    var b := Latin1Bytes(lit).value;
    EncodeAlphabet(b);
    var e := Encode(b);
    if rotate {
      assert forall i :: 0 <= i < |e| ==> Reverse(e)[i] == e[|e| - 1 - i];
    }
  }

  /** Entry i of the array is the entry of literal i. */
  lemma {:induction false} EntryAt(lits: seq<string>, rotate: bool, i: nat)
    requires Entries(lits, rotate).Ok? && i < |lits|
    ensures Entry(lits[i], rotate) == Ok(Entries(lits, rotate).value[i])
    decreases |lits|
  {
    assert Entries(lits, rotate).value
      == [Entry(lits[0], rotate).value] + Entries(lits[1..], rotate).value;
    if i > 0 {
      EntryAt(lits[1..], rotate, i - 1);
      assert lits[1..][i - 1] == lits[i];
    }
  }

  /** No item of the emitted array is quoted. */
  lemma EntriesUnquoted(lits: seq<string>, rotate: bool)
    requires Entries(lits, rotate).Ok?
    ensures var es := Entries(lits, rotate).value;
      forall i :: 0 <= i < |es| ==> '\'' !in es[i] && '"' !in es[i] && '`' !in es[i]
  {
    forall i | 0 <= i < |lits|
      ensures var e := Entries(lits, rotate).value[i]; '\'' !in e && '"' !in e && '`' !in e
    {
      EntryAt(lits, rotate, i);
      EntryUnquoted(lits[i], rotate);
    }
  }

  /** One entry is one comma-separated item, and the emitted decoder, applied to it,
      would give its literal back. */
  lemma EntryDecodes(lit: string, rotate: bool)
    requires Entry(lit, rotate).Ok?
    ensures var e := Entry(lit, rotate).value; ',' !in e && Decoder(rotate, e) == Some(lit)
  {
    EntryNoComma(lit, rotate);
    AtobBtoa(lit);
    ReverseReverse(Btoa(lit).value);
  }

  /** Every entry is one comma-separated item of the array, and the emitted decoder,
      applied to entry i, would give literal i back, quotes included. */
  lemma EntriesDecode(lits: seq<string>, rotate: bool)
    requires Entries(lits, rotate).Ok?
    ensures var es := Entries(lits, rotate).value;
      (forall i :: 0 <= i < |es| ==> ',' !in es[i] && Decoder(rotate, es[i]) == Some(lits[i]))
  {
    forall i | 0 <= i < |lits|
      ensures var e := Entries(lits, rotate).value[i]; ',' !in e && Decoder(rotate, e) == Some(lits[i])
    {
      EntryAt(lits, rotate, i);
      EntryDecodes(lits[i], rotate);
    }
  }

  /** With k > 0 literals: the output is the array of k entries, the decoder and the
      optional shuffle line, followed by the code with literal i replaced by
      `_0xstrings[i]`. Splitting the array text on commas gives the k entries back, and
      the model's inverse, `Decoder` on entry i put back at reference i, restores the
      code. The emitted program itself does neither: its entries are unquoted
      (`EntriesUnquoted`) and the references never call `_0xdecode`. */
  lemma EncodedStringsDecode(code: string, rotate: bool, shuffle: bool)
    requires EncodedStrings(code, rotate, shuffle).Ok?
    requires Matches(Scan(StringLiteral, None, code)) != []
    ensures var ps := Scan(StringLiteral, None, code);
      var lits := Matches(ps);
      var es := Entries(lits, rotate).value;
      && |es| == |lits|
      && EncodedStrings(code, rotate, shuffle).value == ArrayCode(es, rotate, shuffle) + Fill(ps, Refs(|lits|))
      && Split(Join(es, ","), ',') == es
      && (forall i :: 0 <= i < |es| ==> Decoder(rotate, es[i]) == Some(lits[i]))
      && Fill(ps, lits) == code
  {
    var ps := Scan(StringLiteral, None, code);
    var lits := Matches(ps);
    EntriesDecode(lits, rotate);
    SplitJoin(Entries(lits, rotate).value, ',');
    FillMatches(ps);
    FlattenScan(StringLiteral, None, code);
  }

  /** The array text ends with the shuffle statement exactly when shuffling was asked
      for and there are at least two entries. */
  lemma ShuffleLineOnlyWhenAsked(es: seq<string>, rotate: bool, shuffle: bool)
    ensures var a := ArrayCode(es, rotate, shuffle);
      (|a| >= |ShuffleLine| && a[|a| - |ShuffleLine|..] == ShuffleLine) <==> shuffle && |es| > 1
  {
    var a := ArrayCode(es, rotate, shuffle);
    if !(shuffle && |es| > 1) {
      var x := "const _0xstrings=[" + Join(es, ",") + "];\n"
        + DecodeFunctionHead + (if rotate then RotateDecodeBody else PlainDecodeBody);
      assert a == x + " }\n";
      assert a[|a| - 2] == '}';
      assert ShuffleLine[|ShuffleLine| - 2] == ';';
      if |a| >= |ShuffleLine| {
        assert a[|a| - |ShuffleLine|..][|ShuffleLine| - 2] == a[|a| - 2];
      }
    }
  }
}

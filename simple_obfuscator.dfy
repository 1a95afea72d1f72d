/** `obfuscateCode()` of script.js: the trimmed input, when there is any, goes through
    three passes, each run on that same code, and their outputs are joined under a
    two-line banner; the whole text is trimmed again. A pass that throws makes the
    button report the failure instead. */
module SimpleObfuscator {
  import opened Results
  import opened Text
  import opened Naming
  import Renamer
  import LiteralCodec
  import Dispatch
  import CompactFlow
  import Lexer

  /** What the page shows: a request for code, the failure, or the obfuscated text. */
  datatype Report = NeedsCode | Failed(failure: Failure) | Done(text: string)

  /** The two banner lines of the template literal, without the line breaks around
      them. */
  const FirstLine := "// Obfuscated with JS Obfuscator (terrizev)"
  const SecondLine := "// GitHub: terrizev | Contact: 256784670936"
  const Title := FirstLine + "\n" + SecondLine

  const Banner := "\n" + Title + "\n"

  /** The template literal before `.trim()`. */
  function Template(strings: string, mangled: string, flattened: string): string {
    Banner + strings + "\n" + mangled + "\n" + flattened + "\n"
  }

  /** The mangler of script.js keeps names shorter than two characters and draws six
      hexadecimal digits for the others. */
  const ShortNamesKept := Renamer.KeepShorter(2)

  /** `obfuscateCode()` on the input's value; `None` when the oracle runs out. */
  function Obfuscated(input: string, oracle: seq<nat>): Option<Report> {
    var code := Trim(input);
    if code == "" then Some(NeedsCode)
    else
      match LiteralCodec.Wrapped(code, LiteralCodec.AtobOnly)
      case Throw(f) => Some(Failed(f))
      case Ok(strings) =>
        match Renamer.RenamedCode(ShortNamesKept, SixHex, code, oracle)
        case None => None
        case Some((mangled, _)) =>
          Some(Done(Trim(Template(strings, mangled, Dispatch.Flattened(CompactFlow.CompactLayout(false), code)))))
  }

  // ---------------------------------------------------------------------------
  // Properties

  /** The page asks for code exactly when the input is white space only, and draws
      nothing then. */
  lemma NeedsCodeIffBlank(input: string, oracle: seq<nat>)
    ensures Obfuscated(input, oracle) == Some(NeedsCode) <==> AllSpace(input)
  {
  }

  /** The obfuscation fails exactly when the input holds code and one of its string
      literals, quotes included, has a character `btoa` rejects (above U+00FF); the
      failure is then `InvalidCharacterError`, whatever the oracle. */
  lemma FailsIffWideLiteral(input: string, oracle: seq<nat>)
    ensures var lits := Lexer.Matches(Lexer.Scan(Lexer.StringLiteral, None, Trim(input)));
      (exists f :: Obfuscated(input, oracle) == Some(Failed(f))) <==>
        !AllSpace(input) && exists i, k :: 0 <= i < |lits| && 0 <= k < |lits[i]| && lits[i][k] as int >= 256
    ensures forall f :: Obfuscated(input, oracle) == Some(Failed(f)) ==> f == InvalidCharacterError
  {
    var code := Trim(input);
    var lits := Lexer.Matches(Lexer.Scan(Lexer.StringLiteral, None, code));
    LiteralCodec.WrappedThrow(code, LiteralCodec.AtobOnly);
    if LiteralCodec.Wrapped(code, LiteralCodec.AtobOnly).Throw? {
      WrappedThrowsInvalid(code);
    }
    assert (exists i :: 0 <= i < |lits| && LiteralCodec.Rejects(LiteralCodec.AtobOnly, lits[i]))
      <==> exists i, k :: 0 <= i < |lits| && 0 <= k < |lits[i]| && lits[i][k] as int >= 256;
  }

  /** `btoa` throws nothing but `InvalidCharacterError`. */
  lemma WrappedThrowsInvalid(code: string)
    requires LiteralCodec.Wrapped(code, LiteralCodec.AtobOnly).Throw?
    ensures LiteralCodec.Wrapped(code, LiteralCodec.AtobOnly).failure == InvalidCharacterError
  {
    var lits := Lexer.Matches(Lexer.Scan(Lexer.StringLiteral, None, code));
    AtobOnlyFailure(lits);
  }

  lemma AtobOnlyFailure(lits: seq<string>)
    requires LiteralCodec.Replacements(LiteralCodec.AtobOnly, lits).Throw?
    ensures LiteralCodec.Replacements(LiteralCodec.AtobOnly, lits).failure == InvalidCharacterError
  {
    var i := LiteralCodec.RejectedLiteral(LiteralCodec.AtobOnly, lits);
  }

  /** The three passes all see the trimmed code, not each other's output: whenever the
      page shows a result, it is the trimmed template over the outputs of the passes run
      on the trimmed input, and the mangler's draws are the only ones taken. */
  lemma DoneFromOriginal(input: string, oracle: seq<nat>, text: string)
    requires Obfuscated(input, oracle) == Some(Done(text))
    ensures var code := Trim(input);
      && code != ""
      && LiteralCodec.Wrapped(code, LiteralCodec.AtobOnly).Ok?
      && Renamer.RenamedCode(ShortNamesKept, SixHex, code, oracle).Some?
      && text == Trim(Template(LiteralCodec.Wrapped(code, LiteralCodec.AtobOnly).value,
                               Renamer.RenamedCode(ShortNamesKept, SixHex, code, oracle).value.0,
                               Dispatch.Flattened(CompactFlow.CompactLayout(false), code)))
  {
  }

  /** The result opens with the two banner lines: the trim removes only the line break
      in front of them. */
  lemma DoneOpensWithBanner(input: string, oracle: seq<nat>, text: string)
    requires Obfuscated(input, oracle) == Some(Done(text))
    ensures StartsWith(text, Title)
  {
    DoneFromOriginal(input, oracle, text);
    var code := Trim(input);
    TrimTitle(LiteralCodec.Wrapped(code, LiteralCodec.AtobOnly).value,
              Renamer.RenamedCode(ShortNamesKept, SixHex, code, oracle).value.0,
              Dispatch.Flattened(CompactFlow.CompactLayout(false), code));
  }

  /** Trimming the template keeps the two banner lines in front, whatever the passes
      produced. */
  lemma TrimTitle(strings: string, mangled: string, flattened: string)
    ensures StartsWith(Trim(Template(strings, mangled, flattened)), Title)
  {
    var s := Template(strings, mangled, flattened);
    var L := |Title|;
    assert FirstLine[0] == '/' && SecondLine[|SecondLine| - 1] == '6';
    assert Title[0] == FirstLine[0] && Title[L - 1] == SecondLine[|SecondLine| - 1];
    assert s == "\n" + Title + ("\n" + strings + "\n" + mangled + "\n" + flattened + "\n");
    assert s[1..L + 1] == Title;
    TrimAfterSpace(s, Title);
  }

  /** A word that follows one white-space character and neither starts nor ends with
      white space survives the trim at the front of the text. */
  lemma TrimAfterSpace(s: string, w: string)
    requires 0 < |w| < |s| && IsSpace(s[0]) && s[1..|w| + 1] == w
    requires !IsSpace(w[0]) && !IsSpace(w[|w| - 1])
    ensures StartsWith(Trim(s), w)
  {
    var L := |w|;
    var t := s[1..];
    assert t[0] == w[0] && t[L - 1] == w[L - 1];
    assert LeadingSpace(s) == 1 + LeadingSpace(t) == 1;
    var n := TrailingSpace(t);
    assert forall k :: |t| - n <= k < |t| ==> IsSpace(t[k]) by {
      forall k | |t| - n <= k < |t|
        ensures IsSpace(t[k])
      {
        assert t[|t| - n..][k - (|t| - n)] == t[k];
      }
    }
    assert |t| - n >= L;
    assert Trim(s) == t[..|t| - n];
  }

  // ---------------------------------------------------------------------------
  // The imperative code

  /** `obfuscateCode()`: trim, check, then build the template inside the `try`. */
  method ObfuscateCode(input: string, oracle: seq<nat>) returns (r: Option<Report>)
    ensures r == Obfuscated(input, oracle)
  {
    var code := Trim(input);
    if code == "" {
      return Some(NeedsCode);
    }
    var strings := LiteralCodec.Wrapped(code, LiteralCodec.AtobOnly);
    if strings.Throw? {
      return Some(Failed(strings.failure));
    }
    var mangled := Renamer.RenamedCode(ShortNamesKept, SixHex, code, oracle);
    if mangled.None? {
      return None;
    }
    var flattened := CompactFlow.FlattenCompact(code, false);
    var obfuscated := Banner + strings.value + "\n" + mangled.value.0 + "\n" + flattened + "\n";
    r := Some(Done(Trim(obfuscated)));
  }
}

/** The literal encoders of script.js (`obfuscateStrings`) and public/script.js
    (`encodeStrings`): every string literal the pattern finds is replaced, in place, by
    an expression that decodes a base64 payload back into the literal. script.js wraps
    `btoa(match)` in `atob("...")`; public/script.js wraps `safeBtoa(match)` in
    `decodeURIComponent(escape(atob('...'))` or, in its advanced form, encodes the
    reversed code units and reverses them again after decoding. */
module LiteralCodec {
  import opened Results
  import opened Text
  import opened Base64
  import opened Lexer
  import Utf8

  /** The three wrappings: script.js, then public/script.js plain and advanced. */
  datatype Wrapping = AtobOnly | Utf8Standard | Utf8Advanced

  /** The text in front of the payload, cut at the brackets that
      `StandardUnbalanced` and `AdvancedUnbalanced` count. */
  function Head(w: Wrapping): string {
    match w
    case AtobOnly => "atob" + "(" + "\""
    case Utf8Standard => "decodeURIComponent" + "(" + "escape" + "(" + "atob" + "(" + "'"
    case Utf8Advanced => "(function()" + "{" + " return " + "decodeURIComponent(" + "escape(atob('"
  }

  /** The text after the payload, cut the same way. */
  function Tail(w: Wrapping): string {
    match w
    case AtobOnly => "\"" + ")"
    case Utf8Standard => "'" + ")" + ")"
    case Utf8Advanced => "')) " + "}" + ").split('')" + ".reverse()" + ".join('') " + "}" + ")()"
  }

  /** The literals a wrapping cannot encode: `btoa` throws on a character above U+00FF;
      `encodeURIComponent` never throws on the code units of a text, but throws on the
      reversed code units of a text with a character above U+FFFF, whose surrogate pair
      reversal turns around. */
  predicate Rejects(w: Wrapping, lit: string) {
    match w
    case AtobOnly => exists i :: 0 <= i < |lit| && lit[i] as int >= 256
    case Utf8Standard => false
    case Utf8Advanced => exists i :: 0 <= i < |lit| && lit[i] as int >= 0x10000
  }

  /** The base64 payload of one literal. */
  function Payload(w: Wrapping, lit: string): (r: Result<string>)
    ensures r.Throw? <==> Rejects(w, lit)
  {
    match w
    case AtobOnly => Btoa(lit)
    case Utf8Standard =>
      Utf8.UnitsEncode(lit);
      Utf8.SafeBtoa(Utf8.Units(lit))
    case Utf8Advanced =>
      Utf8.ReversedUnitsThrow(lit);
      Utf8.SafeBtoa(Reverse(Utf8.Units(lit)))
  }

  /** The callback: the payload between the wrapping's head and tail. */
  function Wrap(w: Wrapping, lit: string): (r: Result<string>)
    ensures r.Throw? <==> Rejects(w, lit)
  {
    match Payload(w, lit)
    case Throw(f) => Throw(f)
    case Ok(b) => Ok(Head(w) + b + Tail(w))
  }

  /** `replace` with a callback: the callback runs on the matches in order, and the first
      exception it throws escapes from the whole call. */
  function Collect(f: string -> Result<string>, lits: seq<string>): (r: Result<seq<string>>)
    ensures r.Ok? ==> |r.value| == |lits|
  {
    if lits == [] then Ok([])
    else
      match Collect(f, lits[..|lits| - 1])
      case Throw(e) => Throw(e)
      case Ok(reps) =>
        match f(lits[|lits| - 1])
        case Throw(e) => Throw(e)
        case Ok(rep) => Ok(reps + [rep])
  }

  /** The callback a wrapping passes to `replace`. */
  function Callback(w: Wrapping): string -> Result<string> {
    lit => Wrap(w, lit)
  }

  /** The callbacks run on the literals in order: the replacements, or the exception of
      the first literal that throws. */
  function Replacements(w: Wrapping, lits: seq<string>): Result<seq<string>> {
    Collect(Callback(w), lits)
  }

  /** `code.replace(stringRegex, callback)`. */
  function Wrapped(code: string, w: Wrapping): Result<string> {
    var ps := Scan(StringLiteral, None, code);
    match Replacements(w, Matches(ps))
    case Throw(f) => Throw(f)
    case Ok(reps) => Ok(Fill(ps, reps))
  }

  /** What the payload between the head and the tail of `rep` decodes to, as code units:
      `atob` of it, or `decodeURIComponent(escape(atob(...)))`, reversed again in the
      advanced form; `None` when `rep` is not a wrapped payload or does not decode. This
      is the decoding the wrappers are written for: the wrapper text of public/script.js
      is itself not balanced (`StandardUnbalanced`, `AdvancedUnbalanced`), so it does not evaluate as written. */
  function Unwrap(w: Wrapping, rep: string): Option<seq<Utf8.Unit>> {
    var h, t := Head(w), Tail(w);
    if |rep| < |h| + |t| || rep[..|h|] != h || rep[|rep| - |t|..] != t then None
    else
      var b := rep[|h|..|rep| - |t|];
      match w
      case AtobOnly => (match Atob(b) case None => None case Some(s) => Some(Utf8.Units(s)))
      case Utf8Standard => Utf8.DecodeEmitted(b)
      case Utf8Advanced => (match Utf8.DecodeEmitted(b) case None => None case Some(u) => Some(Reverse(u)))
  }

  // ---------------------------------------------------------------------------
  // Properties

  /** The head, the payload and the tail can be told apart again. */
  lemma Middle(h: string, b: string, t: string)
    ensures var rep := h + b + t;
      && |rep| >= |h| + |t| && rep[..|h|] == h && rep[|rep| - |t|..] == t
      && rep[|h|..|rep| - |t|] == b
  {
    var rep := h + b + t;
    assert rep[..|h|] == h;
    assert rep[|rep| - |t|..] == t;
    assert rep[|h|..|rep| - |t|] == b;
  }

  /** The payload of every emitted replacement decodes to the code units of the literal
      it replaced. */
  lemma WrapRoundTrip(w: Wrapping, lit: string)
    requires Wrap(w, lit).Ok?
    ensures Unwrap(w, Wrap(w, lit).value) == Some(Utf8.Units(lit))
  {
    var b := Payload(w, lit).value;
    Middle(Head(w), b, Tail(w));
    match w
    case AtobOnly =>
      AtobBtoa(lit);
    case Utf8Standard =>
      Utf8.SafeBtoaRoundTrip(Utf8.Units(lit));
    case Utf8Advanced =>
      Utf8.SafeBtoaRoundTrip(Reverse(Utf8.Units(lit)));
      ReverseReverse(Utf8.Units(lit));
  }

  /** `btoa` writes no parenthesis and no brace. */
  lemma EncodedNoBrackets(b: seq<Byte>)
    ensures '(' !in Encode(b) && ')' !in Encode(b) && '{' !in Encode(b) && '}' !in Encode(b)
  {
    EncodeAlphabet(b);
  }

  /** A payload holds no parenthesis and no brace. */
  lemma PayloadNoBrackets(w: Wrapping, lit: string)
    requires Payload(w, lit).Ok?
    ensures var b := Payload(w, lit).value; '(' !in b && ')' !in b && '{' !in b && '}' !in b
  {
    match w
    case AtobOnly =>
      EncodedNoBrackets(Latin1Bytes(lit).value);
    case Utf8Standard =>
      EncodedNoBrackets(Utf8.Utf8Bytes(Utf8.Units(lit)).value);
    case Utf8Advanced =>
      EncodedNoBrackets(Utf8.Utf8Bytes(Reverse(Utf8.Units(lit))).value);
  }

  predicate NoParens(s: string) { '(' !in s && ')' !in s }

  predicate NoBraces(s: string) { '{' !in s && '}' !in s }

  /** The words between the brackets of the wrappers hold none of them. */
  lemma ParenFreeWords()
    ensures NoParens("decodeURIComponent") && NoParens("escape") && NoParens("atob")
    ensures NoParens("'") && NoParens("\"")
  {
  }

  lemma BraceFreeHeadWords()
    ensures NoBraces("(function()") && NoBraces(" return ") && NoBraces("decodeURIComponent(")
  {
  }

  lemma BraceFreeTailWords()
    ensures NoBraces("escape(atob('") && NoBraces("')) ") && NoBraces(")()")
    ensures NoBraces(").split('')") && NoBraces(".reverse()") && NoBraces(".join('') ")
  {
  }

  /** Counting over a wrapper whose words hold no bracket. */
  lemma AtobOnlyParens(fn: string, q: string, b: string)
    requires NoParens(fn) && NoParens(q) && NoParens(b)
    ensures var m := multiset((fn + "(" + q) + b + (q + ")")); m['('] == 1 && m[')'] == 1
  {
  }

  /** The characters of a replacement are those of its head, payload and tail. */
  lemma Tally(h: string, b: string, t: string)
    ensures multiset(h + b + t) == multiset(h) + multiset(b) + multiset(t)
  {
  }

  lemma StandardTailParens(q: string)
    requires NoParens(q)
    ensures var m := multiset(q + ")" + ")"); m['('] == 0 && m[')'] == 2
  {
  }

  lemma StandardHeadParens(dec: string, esc: string, fn: string, q: string)
    requires NoParens(dec) && NoParens(esc) && NoParens(fn) && NoParens(q)
    ensures var m := multiset(dec + "(" + esc + "(" + fn + "(" + q); m['('] == 3 && m[')'] == 0
  {
  }

  lemma AdvancedHeadBraces(fn: string, ret: string, dec: string, esc: string)
    requires NoBraces(fn) && NoBraces(ret) && NoBraces(dec) && NoBraces(esc)
    ensures var m := multiset(fn + "{" + ret + dec + esc); m['{'] == 1 && m['}'] == 0
  {
  }

  lemma AdvancedTailBraces(close: string, split: string, rev: string, join: string, call: string)
    requires NoBraces(close) && NoBraces(split) && NoBraces(rev) && NoBraces(join) && NoBraces(call)
    ensures var m := multiset(close + "}" + split + rev + join + "}" + call); m['{'] == 0 && m['}'] == 2
  {
  }

  lemma OneBraceShort(h: string, b: string, t: string)
    requires multiset(h)['{'] == 1 && multiset(h)['}'] == 0 && NoBraces(b)
    requires multiset(t)['{'] == 0 && multiset(t)['}'] == 2
    ensures multiset(h + b + t)['}'] == multiset(h + b + t)['{'] + 1
  {
    Tally(h, b, t);
  }

  /** The emitted replacements, whose payloads hold no bracket, are not all balanced
      JavaScript. script.js's `atob("...")` is balanced. */
  lemma AtobOnlyBalanced(lit: string, rep: string)
    requires Wrap(AtobOnly, lit) == Ok(rep)
    ensures multiset(rep)['('] == multiset(rep)[')']
  {
    var b := Payload(AtobOnly, lit).value;
    PayloadNoBrackets(AtobOnly, lit);
    ParenFreeWords();
    AtobOnlyParens("atob", "\"", b);
  }

  /** public/script.js's plain form opens three parentheses and closes two. */
  lemma StandardUnbalanced(lit: string, rep: string)
    requires Wrap(Utf8Standard, lit) == Ok(rep)
    ensures multiset(rep)['('] == multiset(rep)[')'] + 1
  {
    var b := Payload(Utf8Standard, lit).value;
    PayloadNoBrackets(Utf8Standard, lit);
    ParenFreeWords();
    StandardHeadParens("decodeURIComponent", "escape", "atob", "'");
    StandardTailParens("'");
    Tally(Head(Utf8Standard), b, Tail(Utf8Standard));
  }

  /** public/script.js's advanced form closes the function body while
      `decodeURIComponent(` is still open, so it has one `}` more than it has `{`. */
  lemma AdvancedUnbalanced(lit: string, rep: string)
    requires Wrap(Utf8Advanced, lit) == Ok(rep)
    ensures multiset(rep)['}'] == multiset(rep)['{'] + 1
  {
    var b := Payload(Utf8Advanced, lit).value;
    PayloadNoBrackets(Utf8Advanced, lit);
    BraceFreeHeadWords();
    BraceFreeTailWords();
    var h, t := Head(Utf8Advanced), Tail(Utf8Advanced);
    AdvancedHeadBraces("(function()", " return ", "decodeURIComponent(", "escape(atob('");
    assert multiset(h)['{'] == 1 && multiset(h)['}'] == 0;
    AdvancedTailBraces("')) ", ").split('')", ".reverse()", ".join('') ", ")()");
    assert multiset(t)['{'] == 0 && multiset(t)['}'] == 2;
    assert rep == h + b + t;
    OneBraceShort(h, b, t);
  }

  /** One step of `replace`: the last match's replacement follows those of the matches
      before it, and either one throwing makes the whole throw. */
  lemma CollectLast(f: string -> Result<string>, lits: seq<string>)
    requires lits != []
    ensures var front, last := lits[..|lits| - 1], lits[|lits| - 1];
      && (Collect(f, lits).Throw? <==> Collect(f, front).Throw? || f(last).Throw?)
      && (Collect(f, lits).Ok? ==> Collect(f, lits).value == Collect(f, front).value + [f(last).value])
  {
  }

  /** When `replace` throws, it throws what the callback threw on some match. */
  lemma {:induction false} CollectThrowing(f: string -> Result<string>, lits: seq<string>) returns (i: nat)
    requires Collect(f, lits).Throw?
    ensures i < |lits| && f(lits[i]) == Throw(Collect(f, lits).failure)
    decreases |lits|
  {
    var front := lits[..|lits| - 1];
    CollectLast(f, lits);
    if Collect(f, front).Throw? {
      i := CollectThrowing(f, front);
      assert front[i] == lits[i];
    } else {
      i := |lits| - 1;
    }
  }

  /** When `replace` returns, the replacement of each match is what the callback
      returned for it. */
  lemma {:induction false} CollectEntries(f: string -> Result<string>, lits: seq<string>, i: nat)
    requires Collect(f, lits).Ok? && i < |lits|
    ensures f(lits[i]) == Ok(Collect(f, lits).value[i])
    decreases |lits|
  {
    var front := lits[..|lits| - 1];
    CollectLast(f, lits);
    if i < |front| {
      CollectEntries(f, front, i);
      assert front[i] == lits[i];
    }
  }

  /** When the callbacks throw, some literal is one the wrapping rejects, and its
      exception is the one that escapes. */
  lemma RejectedLiteral(w: Wrapping, lits: seq<string>) returns (i: nat)
    requires Replacements(w, lits).Throw?
    ensures i < |lits| && Rejects(w, lits[i])
    ensures Wrap(w, lits[i]) == Throw(Replacements(w, lits).failure)
  {
    i := CollectThrowing(Callback(w), lits);
  }

  /** The callbacks throw exactly when some literal is one the wrapping rejects. */
  lemma ReplacementsThrow(w: Wrapping, lits: seq<string>)
    ensures Replacements(w, lits).Throw? <==> exists i :: 0 <= i < |lits| && Rejects(w, lits[i])
  {
    if Replacements(w, lits).Throw? {
      var i := RejectedLiteral(w, lits);
    } else {
      forall i | 0 <= i < |lits|
        ensures !Rejects(w, lits[i])
      {
        ReplacementsEntries(w, lits, i);
      }
    }
  }

  /** The replacement of each literal is its emitted expression. */
  lemma ReplacementsEntries(w: Wrapping, lits: seq<string>, i: nat)
    requires Replacements(w, lits).Ok? && i < |lits|
    ensures Wrap(w, lits[i]) == Ok(Replacements(w, lits).value[i])
  {
    CollectEntries(Callback(w), lits, i);
  }

  /** The pass fails exactly when some literal is one the wrapping rejects. */
  lemma WrappedThrow(code: string, w: Wrapping)
    ensures var lits := Matches(Scan(StringLiteral, None, code));
      Wrapped(code, w).Throw? <==> exists i :: 0 <= i < |lits| && Rejects(w, lits[i])
  {
    var lits := Matches(Scan(StringLiteral, None, code));
    assert Wrapped(code, w).Throw? <==> Replacements(w, lits).Throw?;
    if Replacements(w, lits).Throw? {
      var i := RejectedLiteral(w, lits);
      assert Wrapped(code, w).Throw?;
      assert exists j :: 0 <= j < |lits| && Rejects(w, lits[j]);
    } else {
      forall i | 0 <= i < |lits|
        ensures !Rejects(w, lits[i])
      {
        ReplacementsEntries(w, lits, i);
      }
    }
  }

  /** The pass keeps every character outside the literals and puts in place of each
      literal its own wrapped payload, which decodes back to the literal. */
  lemma WrappedRoundTrip(code: string, w: Wrapping)
    requires Wrapped(code, w).Ok?
    ensures var ps := Scan(StringLiteral, None, code);
      exists reps: seq<string> ::
        && |reps| == |Matches(ps)| && Wrapped(code, w).value == Fill(ps, reps)
        && forall i :: 0 <= i < |reps| ==>
             Wrap(w, Matches(ps)[i]) == Ok(reps[i]) && Unwrap(w, reps[i]) == Some(Utf8.Units(Matches(ps)[i]))
  {
    var ps := Scan(StringLiteral, None, code);
    var reps := Replacements(w, Matches(ps)).value;
    forall i | 0 <= i < |reps|
      ensures Wrap(w, Matches(ps)[i]) == Ok(reps[i]) && Unwrap(w, reps[i]) == Some(Utf8.Units(Matches(ps)[i]))
    {
      ReplacementsEntries(w, Matches(ps), i);
      WrapRoundTrip(w, Matches(ps)[i]);
    }
  }

  /** Code without literals comes back unchanged. */
  lemma NoLiteralsUnchanged(code: string, w: Wrapping)
    requires Matches(Scan(StringLiteral, None, code)) == []
    ensures Wrapped(code, w) == Ok(code)
  {
    var ps := Scan(StringLiteral, None, code);
    FillMatches(ps);
    FlattenScan(StringLiteral, None, code);
  }
}

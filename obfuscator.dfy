/** `obfuscate(code, options)` of obfuscator.js: the configurable pipeline. The tokens
    are shielded first, but the shielded text is never handed on: every pass works on
    the original code. The passes then run in a fixed order (string array, control flow,
    dead code, mangling, debug guard, domain lock, restoring), each behind its option
    except the mangling, and the header comment goes in front. */
module Obfuscator {
  import opened Results
  import opened Text
  import TokenShield
  import StringArray
  import Dispatch
  import ControlFlow
  import DeadCode
  import Mangler
  import Lexer

  /** The options object, its keys in the order they are listed in the header. */
  datatype Options = Options(
    transformLevel: string,
    stringArray: bool,
    stringArrayRotate: bool,
    stringArrayShuffle: bool,
    controlFlowFlattening: bool,
    deadCodeInjection: bool,
    debugProtection: bool,
    domainLock: bool,
    preserveFlow: bool)

  // ---------------------------------------------------------------------------
  // The two guards

  /** The text `addDebugProtection` puts in front of the code. */
  const DebugGuard :=
    "try {\n"
    + "        const _0xdebugProtect = () => { \n"
    + "            function _0xdebugFn() { \n"
    + "                return function(){}.constructor(\"debugger\").apply(\"state\");\n"
    + "            }\n"
    + "            setInterval(_0xdebugFn, 4000);\n"
    + "        };\n"
    + "        _0xdebugProtect();\n"
    + "    } catch(e) {}\n"
    + "    "

  /** The text `addDomainLock` puts in front of the code. */
  const DomainGuard :=
    "if(!/^https?:\\/\\/(localhost|127\\.0\\.0\\.1|example\\.com)(:[0-9]+)?\\//.test(location.href)) {\n"
    + "        document.body.innerHTML = '<h1>Access Denied</h1><p>This code can only run on authorized domains.</p>';\n"
    + "        throw new Error(\"Domain not authorized\");\n"
    + "    }\n"
    + "    "

  /** `addDebugProtection(code)`: the guard, then the code unchanged. */
  function AddDebugProtection(code: string): (r: string)
    ensures |r| == |code| + |DebugGuard| && r[|r| - |code|..] == code
  {
    DebugGuard + code
  }

  /** `addDomainLock(code)`: the location check, then the code unchanged. */
  function AddDomainLock(code: string): (r: string)
    ensures |r| == |code| + |DomainGuard| && r[|r| - |code|..] == code
  {
    DomainGuard + code
  }

  /** Each guard is a fixed prefix: what it adds does not depend on the code. */
  lemma GuardsArePrefixes(code: string)
    ensures AddDebugProtection(code) == AddDebugProtection("") + code
    ensures AddDomainLock(code) == AddDomainLock("") + code
  {
    assert DebugGuard + "" == DebugGuard;
    assert DomainGuard + "" == DomainGuard;
  }

  // ---------------------------------------------------------------------------
  // The header comment

  function BoolText(b: bool): string {
    if b then "true" else "false"
  }

  /** `Object.entries(options)`: every key with its value as `${value}` writes it. */
  function OptionEntries(o: Options): (es: seq<(string, string)>)
    ensures |es| == 9
  {
    [ ("transformLevel", o.transformLevel),
      ("stringArray", BoolText(o.stringArray)),
      ("stringArrayRotate", BoolText(o.stringArrayRotate)),
      ("stringArrayShuffle", BoolText(o.stringArrayShuffle)),
      ("controlFlowFlattening", BoolText(o.controlFlowFlattening)),
      ("deadCodeInjection", BoolText(o.deadCodeInjection)),
      ("debugProtection", BoolText(o.debugProtection)),
      ("domainLock", BoolText(o.domainLock)),
      ("preserveFlow", BoolText(o.preserveFlow)) ]
  }

  function OptionLine(e: (string, string)): string {
    " *   " + e.0 + ": " + e.1 + "\n"
  }

  /** The option lines, in entry order. */
  function OptionLines(es: seq<(string, string)>): string {
    if es == [] then "" else OptionLines(es[..|es| - 1]) + OptionLine(es[|es| - 1])
  }

  function HeaderOpening(level: string): string {
    "/**\n * Heavy JS Obfuscator (terrizev)\n" + " * Obfuscation level: " + level + "\n" + " * Options:\n"
  }

  const HeaderClosing := " * GitHub: terrizev\n" + " * Contact: 256784670936\n */\n\n"

  function HeaderText(o: Options): string {
    HeaderOpening(o.transformLevel) + OptionLines(OptionEntries(o)) + HeaderClosing
  }

  /** Every option line occurs among the option lines. */
  lemma {:induction false} OptionLinesContain(es: seq<(string, string)>, i: nat)
    requires i < |es|
    ensures Contains(OptionLines(es), OptionLine(es[i]))
    decreases |es|
  {
    var front := es[..|es| - 1];
    var last := OptionLine(es[|es| - 1]);
    assert OptionLines(es) == OptionLines(front) + last;
    if i == |es| - 1 {
      assert last[..|last|] == last;
      ContainsAppend(OptionLines(front), last, last);
    } else {
      assert front[i] == es[i];
      OptionLinesContain(front, i);
      ContainsAppend(OptionLines(front), last, OptionLine(es[i]));
    }
  }

  /** The header opens a documentation comment. */
  lemma HeaderOpens(o: Options)
    ensures StartsWith(HeaderText(o), "/**\n")
  {
    var title := "/**\n * Heavy JS Obfuscator (terrizev)\n";
    var w := "/**\n";
    assert title[0] == '/' && title[1] == '*' && title[2] == '*' && title[3] == '\n';
    var a := title + " * Obfuscation level: ";
    StartsWithAppend(title, " * Obfuscation level: ", w);
    StartsWithAppend(a, o.transformLevel, w);
    StartsWithAppend(a + o.transformLevel, "\n", w);
    var opening := HeaderOpening(o.transformLevel);
    StartsWithAppend(a + o.transformLevel + "\n", " * Options:\n", w);
    StartsWithAppend(opening, OptionLines(OptionEntries(o)), w);
    StartsWithAppend(opening + OptionLines(OptionEntries(o)), HeaderClosing, w);
  }

  /** The header names the level on a line of its own. */
  lemma HeaderNamesLevel(o: Options)
    ensures Contains(HeaderText(o), " * Obfuscation level: " + o.transformLevel + "\n")
  {
    var title := "/**\n * Heavy JS Obfuscator (terrizev)\n";
    var caption := " * Obfuscation level: ";
    var level := o.transformLevel;
    var line := caption + level + "\n";
    Assoc3(title, caption, level);
    Assoc3(title, caption + level, "\n");
    assert line[..|line|] == line;
    ContainsAppend(title, line, line);
    var opening := HeaderOpening(level);
    ContainsAppend(title + caption + level + "\n", " * Options:\n", line);
    ContainsAppend(opening, OptionLines(OptionEntries(o)), line);
    ContainsAppend(opening + OptionLines(OptionEntries(o)), HeaderClosing, line);
  }

  /** The header ends by closing the comment (` *` and `/`), then a blank line. */
  lemma HeaderCloses(o: Options)
    ensures var h := HeaderText(o); |h| >= 5 && h[|h| - 5..] == " */\n\n"
  {
    var contact := " * Contact: 256784670936\n */\n\n";
    var n := |contact|;
    assert n >= 5 && contact[n - 5] == ' ' && contact[n - 4] == '*' && contact[n - 3] == '/'
      && contact[n - 2] == '\n' && contact[n - 1] == '\n';
    assert contact[n - 5..] == " */\n\n";
    var front := HeaderOpening(o.transformLevel) + OptionLines(OptionEntries(o));
    Assoc3(front, " * GitHub: terrizev\n", contact);
    SuffixOf(front + " * GitHub: terrizev\n", contact, 5);
  }

  /** The header lists every option key with its value, in entry order. */
  lemma HeaderListsOptions(o: Options)
    ensures forall i :: 0 <= i < 9 ==> Contains(HeaderText(o), OptionLine(OptionEntries(o)[i]))
  {
    var opening := HeaderOpening(o.transformLevel);
    var lines := OptionLines(OptionEntries(o));
    assert HeaderText(o) == opening + (lines + HeaderClosing);
    forall i | 0 <= i < 9
      ensures Contains(HeaderText(o), OptionLine(OptionEntries(o)[i]))
    {
      var w := OptionLine(OptionEntries(o)[i]);
      OptionLinesContain(OptionEntries(o), i);
      ContainsAppend(lines, HeaderClosing, w);
      ContainsAppend(opening, lines + HeaderClosing, w);
    }
  }

  /** `generateHeaderComment(options)`: the `+=` building, the option lines coming
      from the loop over `Object.entries`. */
  method GenerateHeaderComment(options: Options) returns (header: string)
    ensures header == HeaderText(options)
  {
    header := "/**\n * Heavy JS Obfuscator (terrizev)\n";
    header := header + " * Obfuscation level: " + options.transformLevel + "\n";
    header := header + " * Options:\n";
    header := AppendOptionLines(header, OptionEntries(options));
    header := header + " * GitHub: terrizev\n";
    header := header + " * Contact: 256784670936\n */\n\n";
  }

  /** `for (const [key, value] of entries) header += ...`. */
  method AppendOptionLines(start: string, entries: seq<(string, string)>) returns (header: string)
    ensures header == start + OptionLines(entries)
  {
    header := start;
    var i := 0;
    while i < |entries|
      invariant 0 <= i <= |entries|
      invariant header == start + OptionLines(entries[..i])
    {
      assert entries[..i + 1][..i] == entries[..i];
      header := header + OptionLine(entries[i]);
      i := i + 1;
    }
    assert entries[..i] == entries;
  }

  // ---------------------------------------------------------------------------
  // The pipeline

  /** The code after the string array and the control-flow passes. */
  function Prepared(code: string, o: Options): Result<string> {
    var encoded := if o.stringArray then StringArray.EncodedStrings(code, o.stringArrayRotate, o.stringArrayShuffle) else Ok(code);
    match encoded
    case Throw(f) => Throw(f)
    case Ok(s) => Ok(if o.controlFlowFlattening then Dispatch.Flattened(ControlFlow.LevelLayout(o.transformLevel), s) else s)
  }

  /** The dead code (when asked for), then the mangling, with the draws of `oracle`;
      `None` when the draws run out. */
  function Randomized(s: string, o: Options, oracle: seq<nat>): Option<string> {
    var padded := if o.deadCodeInjection then DeadCode.Injected(s, oracle) else Some((s, oracle));
    match padded
    case None => None
    case Some((t, rest)) => Mangler.Mangled(t, o.transformLevel, rest)
  }

  /** The guards, the domain lock outermost. */
  function Guarded(s: string, o: Options): string {
    var d := if o.debugProtection then AddDebugProtection(s) else s;
    if o.domainLock then AddDomainLock(d) else d
  }

  /** `restoreTokens` with the tables `preserveTokens` filled from the original code. */
  function Restored(s: string, code: string, o: Options): string {
    if o.preserveFlow then
      var p := TokenShield.Preserve(code, true);
      TokenShield.RestoreTokens(s, p.comments, p.strings)
    else s
  }

  /** `obfuscatedCode` before `restoreTokens`. */
  function Unrestored(code: string, o: Options, oracle: seq<nat>): Option<Result<string>> {
    match Prepared(code, o)
    case Throw(f) => Some(Throw(f))
    case Ok(s) =>
      match Randomized(s, o, oracle)
      case None => None
      case Some(m) => Some(Ok(Guarded(m, o)))
  }

  /** `obfuscatedCode` at the end of `obfuscate`, before the header. */
  function Body(code: string, o: Options, oracle: seq<nat>): Option<Result<string>> {
    match Unrestored(code, o, oracle)
    case Some(Ok(g)) => Some(Ok(Restored(g, code, o)))
    case u => u
  }

  /** `obfuscate(code, options)`: the header in front of the body; `Throw` for the
      exception the string array pass raises, `None` when the draws run out. */
  function Obfuscated(code: string, o: Options, oracle: seq<nat>): Option<Result<string>> {
    match Body(code, o, oracle)
    case None => None
    case Some(Throw(f)) => Some(Throw(f))
    case Some(Ok(b)) => Some(Ok(HeaderText(o) + b))
  }

  /** `obfuscate(code, options)`, reassigning `obfuscatedCode` pass by pass. */
  method Obfuscate(code: string, options: Options, oracle: seq<nat>) returns (r: Option<Result<string>>)
    ensures r == Obfuscated(code, options, oracle)
  {
    var preservedTokens := TokenShield.PreserveTokens(code, options.preserveFlow);
    var prepared := PrepareCode(code, options);
    if prepared.Throw? {
      assert Unrestored(code, options, oracle) == Some(Throw(prepared.failure));
      return Some(Throw(prepared.failure));
    }
    var obfuscatedCode := prepared.value;
    var randomized := RandomizeCode(obfuscatedCode, options, oracle);
    if randomized.None? {
      assert Unrestored(code, options, oracle) == None;
      return None;
    }
    assert Unrestored(code, options, oracle) == Some(Ok(Guarded(randomized.value, options)));
    obfuscatedCode := FinishCode(randomized.value, code, options, preservedTokens);
    var header := GenerateHeaderComment(options);
    r := Some(Ok(header + obfuscatedCode));
  }

  /** The guards, then `restoreTokens` with the tables `preserveTokens` filled. */
  method FinishCode(m: string, ghost code: string, options: Options, preservedTokens: TokenShield.Preserved)
    returns (obfuscatedCode: string)
    requires preservedTokens == TokenShield.Preserve(code, options.preserveFlow)
    ensures obfuscatedCode == Restored(Guarded(m, options), code, options)
  {
    obfuscatedCode := m;
    if options.debugProtection {
      obfuscatedCode := AddDebugProtection(obfuscatedCode);
    }
    if options.domainLock {
      obfuscatedCode := AddDomainLock(obfuscatedCode);
    }
    if options.preserveFlow {
      obfuscatedCode := TokenShield.RestoreTokens(obfuscatedCode, preservedTokens.comments, preservedTokens.strings);
    }
  }

  /** The string array pass (which may throw), then the control-flow pass. */
  method PrepareCode(code: string, options: Options) returns (r: Result<string>)
    ensures r == Prepared(code, options)
  {
    var obfuscatedCode := code;
    if options.stringArray {
      var encoded := StringArray.EncodeStrings(obfuscatedCode, options.stringArrayRotate, options.stringArrayShuffle);
      if encoded.Throw? {
        return Throw(encoded.failure);
      }
      obfuscatedCode := encoded.value;
    }
    if options.controlFlowFlattening {
      obfuscatedCode := ControlFlow.FlattenControlFlow(obfuscatedCode, options.transformLevel);
    }
    r := Ok(obfuscatedCode);
  }

  /** The dead-code pass, then the mangling, each taking its draws from what is left. */
  method RandomizeCode(s: string, options: Options, oracle: seq<nat>) returns (r: Option<string>)
    ensures r == Randomized(s, options, oracle)
  {
    var obfuscatedCode := s;
    var rest := oracle;
    if options.deadCodeInjection {
      var injected := DeadCode.InjectDeadCode(obfuscatedCode, rest);
      if injected.None? {
        return None;
      }
      obfuscatedCode, rest := injected.value.0, injected.value.1;
    }
    r := Mangler.MangleIdentifiers(obfuscatedCode, options.transformLevel, rest);
  }

  // ---------------------------------------------------------------------------
  // Properties of the pipeline

  /** `obfuscate` throws exactly when the string array pass is on and one of the
      literals has a character `btoa` refuses. */
  lemma ThrowsOnlyFromStringArray(code: string, o: Options, oracle: seq<nat>)
    ensures var r := Obfuscated(code, o, oracle);
      var lits := Lexer.Matches(Lexer.Scan(Lexer.StringLiteral, None, code));
      (r.Some? && r.value.Throw?) <==>
      (o.stringArray && exists i, j :: 0 <= i < |lits| && 0 <= j < |lits[i]| && lits[i][j] as int >= 256)
  {
    StringArray.EncodedStringsThrow(code, o.stringArrayRotate, o.stringArrayShuffle);
    ThrowsFromPrepared(code, o, oracle);
  }

  /** Only the passes before the random ones can throw. */
  lemma ThrowsFromPrepared(code: string, o: Options, oracle: seq<nat>)
    ensures (Obfuscated(code, o, oracle).Some? && Obfuscated(code, o, oracle).value.Throw?) <==> Prepared(code, o).Throw?
  {
    assert (Unrestored(code, o, oracle).Some? && Unrestored(code, o, oracle).value.Throw?) <==> Prepared(code, o).Throw?;
  }

  /** With every option off, mangling still runs, and it is the only pass. */
  lemma ManglingAlwaysRuns(code: string, level: string, oracle: seq<nat>)
    ensures var off := Options(level, false, false, false, false, false, false, false, false);
      Obfuscated(code, off, oracle) ==
        match Mangler.Mangled(code, level, oracle)
        case None => None
        case Some(m) => Some(Ok(HeaderText(off) + m))
  {
  }

  /** With every option off and no declared name of three characters or more, the
      body is the code itself. */
  lemma AllOffShortNames(code: string, level: string, oracle: seq<nat>)
    requires forall d :: d in Mangler.Declarations(code) ==> |d.name| < 3
    ensures var off := Options(level, false, false, false, false, false, false, false, false);
      Obfuscated(code, off, oracle) == Some(Ok(HeaderText(off) + code))
  {
    Mangler.ShortNamesUnchanged(code, level, oracle);
  }

  /** What the guards put in front: the domain lock, then the debug guard. */
  function GuardPrefix(o: Options): string {
    (if o.domainLock then DomainGuard else "") + (if o.debugProtection then DebugGuard else "")
  }

  /** The guards only prefix: the text they wrap comes out unchanged at the end. */
  lemma GuardedIsPrefixed(s: string, o: Options)
    ensures Guarded(s, o) == GuardPrefix(o) + s
  {
    var dom := if o.domainLock then DomainGuard else "";
    var dbg := if o.debugProtection then DebugGuard else "";
    AppendEmpty(dom);
    AppendEmpty(dbg);
    AppendEmpty(s);
    Assoc3(dom, dbg, s);
  }

  /** Two option sets that agree on the passes before the guards give the same text
      to the guards. */
  lemma SamePasses(code: string, o: Options, o': Options, oracle: seq<nat>)
    requires o.transformLevel == o'.transformLevel && o.stringArray == o'.stringArray
    requires o.stringArrayRotate == o'.stringArrayRotate && o.stringArrayShuffle == o'.stringArrayShuffle
    requires o.controlFlowFlattening == o'.controlFlowFlattening && o.deadCodeInjection == o'.deadCodeInjection
    ensures Prepared(code, o) == Prepared(code, o')
    ensures Prepared(code, o).Ok? ==> Randomized(Prepared(code, o).value, o, oracle) == Randomized(Prepared(code, o).value, o', oracle)
  {
  }

  /** The guards put their fixed prefix in front of a finished body. */
  function PrefixedBody(u: Option<Result<string>>, o: Options): Option<Result<string>> {
    match u
    case Some(Ok(s)) => Some(Ok(GuardPrefix(o) + s))
    case _ => u
  }

  /** The guards wrap whatever the other passes produced: the domain lock first, then
      the debug guard, then that output unchanged. */
  lemma GuardsWrapBody(code: string, o: Options, oracle: seq<nat>)
    requires !o.preserveFlow
    ensures Body(code, o, oracle) == PrefixedBody(Body(code, o.(debugProtection := false, domainLock := false), oracle), o)
  {
    var plain := o.(debugProtection := false, domainLock := false);
    GuardsWrapUnrestored(code, o, plain, oracle);
  }

  lemma GuardsWrapUnrestored(code: string, o: Options, plain: Options, oracle: seq<nat>)
    requires plain == o.(debugProtection := false, domainLock := false)
    ensures Unrestored(code, o, oracle) == PrefixedBody(Unrestored(code, plain, oracle), o)
  {
    SamePasses(code, o, plain, oracle);
    match Prepared(code, o)
    case Throw(_) =>
    case Ok(s) =>
      match Randomized(s, o, oracle)
      case None =>
      case Some(m) =>
        GuardedIsPrefixed(m, o);
        GuardedIsPrefixed(m, plain);
        AppendEmpty(m);
  }

  /** The final `restoreTokens` with the tables filled from `code`, applied to a
      finished body. */
  function RestoredBody(b: Option<Result<string>>, code: string): Option<Result<string>> {
    match b
    case Some(Ok(s)) =>
      var p := TokenShield.Preserve(code, true);
      Some(Ok(TokenShield.RestoreTokens(s, p.comments, p.strings)))
    case _ => b
  }

  /** `preserveFlow` changes nothing but the final `restoreTokens`: the shielded text
      is never handed to the passes, which see the same code either way. */
  lemma PreserveFlowOnlyRestores(code: string, o: Options, oracle: seq<nat>)
    ensures Body(code, o.(preserveFlow := true), oracle) == RestoredBody(Body(code, o.(preserveFlow := false), oracle), code)
  {
    var plain := o.(preserveFlow := false);
    var flowing := o.(preserveFlow := true);
    UnrestoredIgnoresFlow(code, plain, flowing, oracle);
  }

  /** The passes before `restoreTokens` do not look at `preserveFlow`. */
  lemma UnrestoredIgnoresFlow(code: string, o: Options, o': Options, oracle: seq<nat>)
    requires o' == o.(preserveFlow := o'.preserveFlow)
    ensures Unrestored(code, o, oracle) == Unrestored(code, o', oracle)
  {
    SamePasses(code, o, o', oracle);
  }
}

/** `obfuscateCode(code, level)` of public/script.js: a header naming the level, then
    the output of each pass the level selects, every pass run on the original code and
    its output appended to the previous ones. */
module WebObfuscator {
  import opened Results
  import opened Text
  import opened Naming
  import Renamer
  import LiteralCodec
  import Dispatch
  import CompactFlow
  import WebDeadCode

  // ---------------------------------------------------------------------------
  // The level name

  /** The `names` table of `formatLevelName`. */
  const LevelNames: map<string, string> := map[
    "low" := "Level 1: Low",
    "hard" := "Level 2: Hard",
    "hardest" := "Level 3: Hardest",
    "most-hardest" := "Level 4: Extreme"]

  /** `names[level] || level`: the label of a known level, any other level as it is. */
  function FormatLevelName(level: string): (r: string)
    ensures r != level <==> level in LevelNames
    ensures level in LevelNames ==> r == LevelNames[level]
  {
    if level in LevelNames then LevelNames[level] else level
  }

  /** The four levels get four different labels. */
  lemma LevelNamesDistinct(a: string, b: string)
    requires a in LevelNames && b in LevelNames && a != b
    ensures FormatLevelName(a) != FormatLevelName(b)
  {
    assert LevelNames["hardest"][6] != LevelNames["most-hardest"][6];
  }

  // ---------------------------------------------------------------------------
  // The passes

  /** The passes of `obfuscateCode`: `mangleVariables(code, complexity)`,
      `encodeStrings(code, advanced)`, `flattenControlFlow(code)`,
      `addDeadCode(code, heavy)` and `addDebugProtection()`. */
  datatype Pass = Mangle(complexity: nat) | Encode(advanced: bool) | Flatten | AddDead(heavy: bool) | Debug

  /** The passes each level runs, in order; a level the switch does not list runs none. */
  function Passes(level: string): seq<Pass> {
    if level == "low" then [Mangle(1)]
    else if level == "hard" then [Mangle(2), Encode(false)]
    else if level == "hardest" then [Mangle(3), Encode(false), Flatten, AddDead(false)]
    else if level == "most-hardest" then [Mangle(4), Encode(true), Flatten, AddDead(true), Debug]
    else []
  }

  /** The global names `mangleVariables` leaves alone. */
  const Preserved := Renamer.KeepNames(["window", "document", "console", "alert", "fetch", "setTimeout", "setInterval"])

  /** The name each complexity draws: `_`, the first character and a number below 100 at
      1, `_0x` and six hexadecimal digits at 2, `_0x` and `complexity + 4` hexadecimal
      digits above. */
  function ComplexityScheme(complexity: nat): Scheme {
    if complexity == 1 then Initial
    else if complexity == 2 then SixHex
    else HexRun(complexity + 4)
  }

  function Wrapping(advanced: bool): LiteralCodec.Wrapping {
    if advanced then LiteralCodec.Utf8Advanced else LiteralCodec.Utf8Standard
  }

  /** The text `addDebugProtection` returns. */
  const DebugProtection :=
    "\n\n// Debug protection\n"
    + "try { \n"
    + "  const _0xdebug = () => { \n"
    + "    setInterval(() => { \n"
    + "      debugger; \n"
    + "    }, 4000); \n"
    + "  }; \n"
    + "  _0xdebug(); \n"
    + "} catch(e) {} \n"

  /** The text one pass returns for the original code and the draws left after it;
      `None` when the oracle runs out, `Throw` when the pass throws. */
  function Output(p: Pass, code: string, oracle: seq<nat>): Option<Result<(string, seq<nat>)>> {
    match p
    case Mangle(c) =>
      (match Renamer.RenamedCode(Preserved, ComplexityScheme(c), code, oracle)
       case None => None
       case Some((t, rest)) => Some(Ok((t, rest))))
    case Encode(advanced) =>
      (match LiteralCodec.Wrapped(code, Wrapping(advanced))
       case Throw(f) => Some(Throw(f))
       case Ok(t) => Some(Ok((t, oracle))))
    case Flatten => Some(Ok((Dispatch.Flattened(CompactFlow.CompactLayout(true), code), oracle)))
    case AddDead(heavy) =>
      (match WebDeadCode.DeadCodeAdded(code, heavy, oracle)
       case None => None
       case Some((t, rest)) => Some(Ok((t, rest))))
    case Debug => Some(Ok((DebugProtection, oracle)))
  }

  /** The text built so far and the draws left; once a pass has thrown or the oracle
      has run out, that outcome stays. */
  type Progress = Option<Result<(string, seq<nat>)>>

  /** What each pass returns on the original code. */
  function Outputs(code: string): (Pass, seq<nat>) -> Progress {
    (p, oracle) => Output(p, code, oracle)
  }

  /** `obfuscated += pass(code)`. */
  function Then(st: Progress, p: Pass, out: (Pass, seq<nat>) -> Progress): Progress {
    match st
    case Some(Ok((text, oracle))) =>
      (match out(p, oracle)
       case Some(Ok((t, rest))) => Some(Ok((text + t, rest)))
       case other => other)
    case other => other
  }

  /** The passes run in order. */
  function After(st: Progress, ps: seq<Pass>, out: (Pass, seq<nat>) -> Progress): Progress
    decreases |ps|
  {
    if ps == [] then st else Then(After(st, ps[..|ps| - 1], out), ps[|ps| - 1], out)
  }

  function Header(level: string): string {
    "/**\n * Obfuscated with MaxTech Obfuscator\n" + " * Level: " + FormatLevelName(level) + "\n"
    + " * GitHub: terrizev\n * Contact: 256784670936\n */\n\n"
  }

  /** The switch of `obfuscateCode` written out, one `obfuscated += pass(code)` after
      the other. */
  function Switch(level: string, st: Progress, code: string): Progress {
    var out := Outputs(code);
    if level == "low" then Then(st, Mangle(1), out)
    else if level == "hard" then Then(Then(st, Mangle(2), out), Encode(false), out)
    else if level == "hardest" then
      Then(Then(Then(Then(st, Mangle(3), out), Encode(false), out), Flatten, out), AddDead(false), out)
    else if level == "most-hardest" then
      Then(Then(Then(Then(Then(st, Mangle(4), out), Encode(true), out), Flatten, out), AddDead(true), out), Debug, out)
    else st
  }

  /** `obfuscateCode(code, level)`; `None` when the oracle runs out. */
  function Obfuscated(code: string, level: string, oracle: seq<nat>): Option<Result<string>> {
    match After(Some(Ok((Header(level), oracle))), Passes(level), Outputs(code))
    case None => None
    case Some(Throw(f)) => Some(Throw(f))
    case Some(Ok((text, _))) => Some(Ok(text))
  }

  // ---------------------------------------------------------------------------
  // Properties

  /** The switch runs the passes of the level in order. */
  lemma SwitchRunsPasses(level: string, st: Progress, code: string)
    ensures Switch(level, st, code) == After(st, Passes(level), Outputs(code))
  {
    var out := Outputs(code);
    var ps := Passes(level);
    if ps != [] {
      assert ps[..1][..0] == [];
      assert After(st, ps[..1], out) == Then(st, ps[0], out);
    }
    if |ps| >= 2 {
      assert ps[..2][..1] == ps[..1];
      assert After(st, ps[..2], out) == Then(After(st, ps[..1], out), ps[1], out);
    }
    if |ps| >= 4 {
      assert ps[..3][..2] == ps[..2] && ps[..4][..3] == ps[..3];
      assert After(st, ps[..4], out) == Then(Then(After(st, ps[..2], out), ps[2], out), ps[3], out);
    }
    if |ps| == 5 {
      assert ps[..5][..4] == ps[..4];
    }
    assert ps[..|ps|] == ps;
  }

  /** A level the switch does not list gives the header alone, and draws nothing. */
  lemma UnknownLevelHeaderOnly(code: string, level: string, oracle: seq<nat>)
    requires level !in LevelNames
    ensures Obfuscated(code, level, oracle) == Some(Ok(Header(level)))
    ensures Header(level) == "/**\n * Obfuscated with MaxTech Obfuscator\n" + " * Level: " + level + "\n"
      + " * GitHub: terrizev\n * Contact: 256784670936\n */\n\n"
  {
    assert Passes(level) == [];
  }

  /** The header names the level, by its label when it is a known one, on a line of
      its own. */
  lemma HeaderNamesLevel(level: string)
    ensures Contains(Header(level), " * Level: " + FormatLevelName(level) + "\n")
  {
    var title := "/**\n * Obfuscated with MaxTech Obfuscator\n";
    var caption := " * Level: ";
    var name := FormatLevelName(level);
    var line := caption + name + "\n";
    Assoc3(title, caption, name);
    Assoc3(title, caption + name, "\n");
    assert line[..|line|] == line;
    ContainsAppend(title, line, line);
    ContainsAppend(title + caption + name + "\n", " * GitHub: terrizev\n * Contact: 256784670936\n */\n\n", line);
  }

  /** Exactly the four listed levels run passes, and every one of them mangles first. */
  lemma PassesOfLevels(level: string)
    ensures Passes(level) != [] <==> level in LevelNames
    ensures Passes(level) != [] ==> Passes(level)[0].Mangle?
  {
  }

  function Concat(ts: seq<string>): string {
    if ts == [] then "" else Concat(ts[..|ts| - 1]) + ts[|ts| - 1]
  }

  /** Pass `i` returned `ts[i]` and left `os[i + 1]` of the draws `os[i]` it was given. */
  predicate Chain(ps: seq<Pass>, out: (Pass, seq<nat>) -> Progress, ts: seq<string>, os: seq<seq<nat>>) {
    && |ts| == |ps| && |os| == |ps| + 1
    && forall i :: 0 <= i < |ps| ==> out(ps[i], os[i]) == Some(Ok((ts[i], os[i + 1])))
  }

  /** A thrown pass or an exhausted oracle stops the passes that follow. */
  lemma {:induction false} AfterStuck(st: Progress, ps: seq<Pass>, out: (Pass, seq<nat>) -> Progress)
    requires st.None? || st.value.Throw?
    ensures After(st, ps, out) == st
    decreases |ps|
  {
    if ps != [] {
      AfterStuck(st, ps[..|ps| - 1], out);
    }
  }

  /** A finished run is what came before followed by the pass outputs, each pass given
      the draws the previous one left. */
  lemma {:induction false} AfterChain(text: string, oracle: seq<nat>, ps: seq<Pass>, out: (Pass, seq<nat>) -> Progress)
    requires After(Some(Ok((text, oracle))), ps, out).Some?
    requires After(Some(Ok((text, oracle))), ps, out).value.Ok?
    ensures exists ts, os :: (Chain(ps, out, ts, os) && os[0] == oracle
      && After(Some(Ok((text, oracle))), ps, out).value.value == (text + Concat(ts), os[|ps|]))
    decreases |ps|
  {
    var start: Progress := Some(Ok((text, oracle)));
    if ps == [] {
      var ts: seq<string>, os := [], [oracle];
      assert Chain(ps, out, ts, os) && text + Concat(ts) == text;
    } else {
      var front := ps[..|ps| - 1];
      var before := After(start, front, out);
      if before.None? || before.value.Throw? {
        assert false;
      }
      AfterChain(text, oracle, front, out);
      var ts', os' :| Chain(front, out, ts', os') && os'[0] == oracle
        && before.value.value == (text + Concat(ts'), os'[|front|]);
      var (t, rest) := out(ps[|ps| - 1], os'[|front|]).value.value;
      var ts, os := ts' + [t], os' + [rest];
      assert ts[..|ts| - 1] == ts';
      assert Chain(ps, out, ts, os) by {
        forall i | 0 <= i < |ps|
          ensures out(ps[i], os[i]) == Some(Ok((ts[i], os[i + 1])))
        {
          if i < |front| {
            assert ps[i] == front[i];
          }
        }
      }
      assert text + Concat(ts) == text + Concat(ts') + t;
    }
  }

  /** A run throws only with the exception one of its passes threw. */
  lemma {:induction false} AfterThrows(text: string, oracle: seq<nat>, ps: seq<Pass>, out: (Pass, seq<nat>) -> Progress, f: Failure)
    requires After(Some(Ok((text, oracle))), ps, out) == Some(Throw(f))
    ensures exists i, o :: 0 <= i < |ps| && out(ps[i], o) == Some(Throw(f))
    decreases |ps|
  {
    var start: Progress := Some(Ok((text, oracle)));
    var front := ps[..|ps| - 1];
    var before := After(start, front, out);
    if before == Some(Throw(f)) {
      AfterThrows(text, oracle, front, out, f);
      var i, o :| 0 <= i < |front| && out(front[i], o) == Some(Throw(f));
      assert ps[i] == front[i];
    } else if before.None? || before.value.Throw? {
      assert false;
    } else {
      assert out(ps[|ps| - 1], before.value.value.1) == Some(Throw(f));
    }
  }

  /** A finished result is the header followed by the output of every pass of the
      level, each pass run on the original code with the draws the previous one left. */
  lemma ObfuscatedConcatenates(code: string, level: string, oracle: seq<nat>)
    requires Obfuscated(code, level, oracle).Some? && Obfuscated(code, level, oracle).value.Ok?
    ensures exists ts, os ::
      && Chain(Passes(level), Outputs(code), ts, os) && os[0] == oracle
      && Obfuscated(code, level, oracle).value.value == Header(level) + Concat(ts)
  {
    AfterChain(Header(level), oracle, Passes(level), Outputs(code));
  }

  /** Only `encodeStrings` throws. */
  lemma OutputThrows(p: Pass, code: string, oracle: seq<nat>, f: Failure)
    requires Output(p, code, oracle) == Some(Throw(f))
    ensures p.Encode? && LiteralCodec.Wrapped(code, Wrapping(p.advanced)) == Throw(f)
  {
  }

  /** `obfuscateCode` throws only at the levels that encode strings, and only with the
      exception the encoding of the original code throws. */
  lemma ThrowsOnlyWhenEncoding(code: string, level: string, oracle: seq<nat>, f: Failure)
    requires Obfuscated(code, level, oracle) == Some(Throw(f))
    ensures level == "hard" || level == "hardest" || level == "most-hardest"
    ensures LiteralCodec.Wrapped(code, Wrapping(level == "most-hardest")) == Throw(f)
  {
    var ps := Passes(level);
    AfterThrows(Header(level), oracle, ps, Outputs(code), f);
    var i, o :| 0 <= i < |ps| && Outputs(code)(ps[i], o) == Some(Throw(f));
    OutputThrows(ps[i], code, o, f);
    EncodingLevels(level, i);
  }

  /** The levels whose passes include `encodeStrings`, and which of them encodes in the
      advanced way. */
  lemma EncodingLevels(level: string, i: nat)
    requires i < |Passes(level)| && Passes(level)[i].Encode?
    ensures level == "hard" || level == "hardest" || level == "most-hardest"
    ensures Passes(level)[i].advanced <==> level == "most-hardest"
  {
  }

  // ---------------------------------------------------------------------------
  // The imperative code

  /** `obfuscateCode(code, level)`: the header, then the switch. */
  method ObfuscateCode(code: string, level: string, oracle: seq<nat>) returns (r: Option<Result<string>>)
    ensures r == Obfuscated(code, level, oracle)
  {
    var obfuscated := "/**\n * Obfuscated with MaxTech Obfuscator\n";
    obfuscated := obfuscated + " * Level: " + FormatLevelName(level) + "\n";
    obfuscated := obfuscated + " * GitHub: terrizev\n * Contact: 256784670936\n */\n\n";
    var st: Progress := Some(Ok((obfuscated, oracle)));
    if level == "low" {
      st := Append(st, Mangle(1), code);
    } else if level == "hard" {
      st := Append(st, Mangle(2), code);
      st := Append(st, Encode(false), code);
    } else if level == "hardest" {
      st := Append(st, Mangle(3), code);
      st := Append(st, Encode(false), code);
      st := Append(st, Flatten, code);
      st := Append(st, AddDead(false), code);
    } else if level == "most-hardest" {
      st := Append(st, Mangle(4), code);
      st := Append(st, Encode(true), code);
      st := Append(st, Flatten, code);
      st := Append(st, AddDead(true), code);
      st := Append(st, Debug, code);
    }
    SwitchRunsPasses(level, Some(Ok((obfuscated, oracle))), code);
    match st {
      case None => r := None;
      case Some(Throw(f)) => r := Some(Throw(f));
      case Some(Ok((text, _))) => r := Some(Ok(text));
    }
  }

  /** `obfuscated += pass(code)`, once nothing has thrown and the oracle lasts. */
  method Append(st: Progress, p: Pass, code: string) returns (r: Progress)
    ensures r == Then(st, p, Outputs(code))
  {
    if st.None? || st.value.Throw? {
      return st;
    }
    var (obfuscated, oracle) := st.value.value;
    var out := RunPass(p, code, oracle);
    match out {
      case Some(Ok((t, rest))) => r := Some(Ok((obfuscated + t, rest)));
      case _ => r := out;
    }
  }

  /** One pass on the original code. */
  method RunPass(p: Pass, code: string, oracle: seq<nat>) returns (r: Option<Result<(string, seq<nat>)>>)
    ensures r == Output(p, code, oracle)
  {
    match p {
      case Mangle(c) =>
        var m := Renamer.RenamedCode(Preserved, ComplexityScheme(c), code, oracle);
        r := if m.None? then None else Some(Ok(m.value));
      case Encode(advanced) =>
        var e := LiteralCodec.Wrapped(code, Wrapping(advanced));
        r := if e.Throw? then Some(Throw(e.failure)) else Some(Ok((e.value, oracle)));
      case Flatten =>
        var t := CompactFlow.FlattenCompact(code, true);
        r := Some(Ok((t, oracle)));
      case AddDead(heavy) =>
        var d := WebDeadCode.AddDeadCode(code, heavy, oracle);
        r := if d.None? then None else Some(Ok(d.value));
      case Debug =>
        r := Some(Ok((DebugProtection, oracle)));
    }
  }
}

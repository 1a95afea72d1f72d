/** `flattenControlFlow` of obfuscator.js: every function whose body (up to its first
    closing brace) holds at least two statements is rewritten as a state machine, one
    `case` per statement, in the multi-line layout, with trimmed statements, an extra
    `case i.1` arm per statement at the levels `high` and `extreme`, and a closing
    `case n` arm that returns. */
module ControlFlow {
  import opened Results
  import opened Text
  import opened Lexer
  import opened Dispatch

  /** Extra arms are emitted at the two top levels only. */
  predicate Spread(level: string) {
    level == "high" || level == "extreme"
  }

  function LevelLayout(level: string): Layout {
    Layout(Spaced, true, if Spread(level) then 1 else 0, true, true)
  }

  /** `flattenControlFlow(code, level)`: the global replace of the function pattern,
      calling the callback on every match in order. */
  method FlattenControlFlow(code: string, level: string) returns (r: string)
    ensures r == Flattened(LevelLayout(level), code)
  {
    ghost var layout := LevelLayout(level);
    var ps := Scan(FunctionDef, None, code);
    ScanGrouped(FunctionDef, None, code);
    r := "";
    ghost var reps: seq<string> := [];
    var i := 0;
    while i < |ps|
      invariant 0 <= i <= |ps|
      invariant reps == Rewrites(layout, ps[..i])
      invariant r == Fill(ps[..i], reps)
    {
      RewritesStep(layout, ps, i);
      match ps[i] {
        case Plain(c) =>
          FillStep(ps, i, reps, "");
          r := r + [c];
        case Found(m, g) =>
          var replaced := FlattenFunction(m, g[0], g[1], g[2], level);
          assert g == [g[0], g[1], g[2]];
          FillStep(ps, i, reps, replaced);
          reps := reps + [replaced];
          r := r + replaced;
      }
      i := i + 1;
    }
    assert ps[..i] == ps;
  }

  /** The callback for one matched function: the match when it has fewer than two
      statements, otherwise the function with the same name and parameters around the
      switch. */
  method FlattenFunction(m: string, fnName: string, params: string, body: string, level: string)
    returns (r: string)
    ensures r == Rewrite(LevelLayout(level), m, [fnName, params, body])
  {
    var statements := Statements(body);
    if |statements| < 2 {
      return m;
    }
    var newBody := SwitchBody(statements, level);
    r := "function " + fnName + "(" + params + "){" + newBody + "}";
  }

  /** The `newBody` text: the head, the arms of the statements, `case k: return;` and
      the closing braces. */
  method SwitchBody(statements: seq<string>, level: string) returns (newBody: string)
    ensures newBody == NewBody(LevelLayout(level), statements)
  {
    newBody := "var _0xstate=0;\n";
    newBody := newBody + "while(true){\n";
    newBody := newBody + "  switch(_0xstate){\n";
    var cases := EmitCases(statements, level);
    newBody := newBody + cases;
    newBody := newBody + CaseLine(Spaced, Case(|statements|));
    newBody := newBody + ReturnLine(Spaced);
    ghost var arms := newBody;
    newBody := newBody + "  }\n";
    newBody := newBody + "}\n";
    NewBodyText(LevelLayout(level), statements);
    Assoc3(arms, "  }\n", "}\n");
  }

  /** `statements.forEach(...)`: the arms of every statement, in order. */
  method EmitCases(statements: seq<string>, level: string) returns (text: string)
    ensures var layout := LevelLayout(level);
      text == RenderArms(Spaced, Groups(Emitted(layout, statements), 0, layout.extra, true))
  {
    ghost var layout := LevelLayout(level);
    text := "";
    var i := 0;
    assert Emitted(layout, statements[..0]) == [];
    while i < |statements|
      invariant 0 <= i <= |statements|
      invariant text == RenderArms(Spaced, Groups(Emitted(layout, statements[..i]), 0, layout.extra, true))
    {
      var arm := EmitCase(statements[i], i, level);
      BodyStep(layout, statements, i);
      text := text + arm;
      i := i + 1;
    }
    assert statements[..i] == statements;
  }

  /** The arms of statement `i`: its own, and the fractional one at the top levels. */
  method EmitCase(stmt: string, i: nat, level: string) returns (arm: string)
    ensures arm == RenderArms(Spaced, Group(Trim(stmt), i, LevelLayout(level).extra, true))
  {
    arm := CaseLine(Spaced, Case(i)) + StmtLine(Spaced, Trim(stmt)) + NextLine(Spaced, i + 1) + BreakLine(Spaced);
    SingleGroupText(Spaced, Trim(stmt), i, true);
    if Spread(level) {
      ghost var single := arm;
      var c := CaseLine(Spaced, CaseFraction(i, 1));
      var n := NextLine(Spaced, i + 1);
      var b := BreakLine(Spaced);
      arm := arm + c + n + b;
      GroupGrowText(Spaced, Trim(stmt), i, 0, true);
      JumpArmText(Spaced, CaseFraction(i, 1), i + 1);
      Assoc4(single, c, n, b);
    }
  }
}

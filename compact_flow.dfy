/** `flattenControlFlow` of public/script.js and of script.js: the same rewrite as in
    obfuscator.js, written on one line, with the statements kept untrimmed and the
    switch closed by `default:return;`. The public/script.js version adds two arms
    `case i.1:break;case i.2:break;` after every statement's arm; the script.js version
    adds none. */
module CompactFlow {
  import opened Results
  import opened Text
  import opened Lexer
  import opened Dispatch

  /** The number of fractional arms per statement. */
  function FractionCount(fractionArms: bool): nat {
    if fractionArms then 2 else 0
  }

  function CompactLayout(fractionArms: bool): Layout {
    Layout(Compact, false, FractionCount(fractionArms), false, false)
  }

  /** `code.replace(functionRegex, callback)`, the callback run on every match in order. */
  method FlattenCompact(code: string, fractionArms: bool) returns (r: string)
    ensures r == Flattened(CompactLayout(fractionArms), code)
  {
    ghost var layout := CompactLayout(fractionArms);
    var ps := Scan(FunctionDef, None, code);
    ScanGrouped(FunctionDef, None, code);
    r := "";
    ghost var reps: seq<string> := [];
    var i := 0;
    while i < |ps|
      invariant 0 <= i <= |ps|
      invariant reps == Rewrites(layout, ps[..i])
      invariant r == Fill(ps[..i], reps)
    {
      RewritesStep(layout, ps, i);
      match ps[i] {
        case Plain(c) =>
          FillStep(ps, i, reps, "");
          r := r + [c];
        case Found(m, g) =>
          var replaced := CompactFunction(m, g[0], g[1], g[2], fractionArms);
          assert g == [g[0], g[1], g[2]];
          FillStep(ps, i, reps, replaced);
          reps := reps + [replaced];
          r := r + replaced;
      }
      i := i + 1;
    }
    assert ps[..i] == ps;
  }

  /** The callback: the match itself below two statements, otherwise the function
      around the one-line switch. */
  method CompactFunction(m: string, name: string, params: string, body: string, fractionArms: bool)
    returns (r: string)
    ensures r == Rewrite(CompactLayout(fractionArms), m, [name, params, body])
  {
    var statements := Statements(body);
    if |statements| < 2 {
      return m;
    }
    var newBody := "var _0xstate=0;while(true){switch(_0xstate){";
    var cases := CompactCases(statements, fractionArms);
    newBody := newBody + cases;
    newBody := newBody + "default:" + "return;" + "}}";
    CompactText(m, name, params, body, fractionArms, cases);
    r := "function " + name + "(" + params + "){" + newBody + "}";
  }

  /** The rewrite of a function with at least two statements, spelled out in the
      compact layout. */
  lemma CompactText(m: string, name: string, params: string, body: string, fractionArms: bool, cases: string)
    requires |Statements(body)| >= 2
    requires var layout := CompactLayout(fractionArms);
      cases == RenderArms(Compact, Groups(Emitted(layout, Statements(body)), 0, layout.extra, false))
    ensures Rewrite(CompactLayout(fractionArms), m, [name, params, body])
      == "function " + name + "(" + params + "){"
         + ("var _0xstate=0;while(true){switch(_0xstate){" + cases + "default:" + "return;" + "}}") + "}"
  {
    NewBodyText(CompactLayout(fractionArms), Statements(body));
  }

  /** `statements.forEach((stmt, i) => { newBody += ... })`. */
  method CompactCases(statements: seq<string>, fractionArms: bool) returns (text: string)
    ensures var layout := CompactLayout(fractionArms);
      text == RenderArms(Compact, Groups(Emitted(layout, statements), 0, layout.extra, false))
  {
    ghost var layout := CompactLayout(fractionArms);
    text := "";
    var i := 0;
    assert Emitted(layout, statements[..0]) == [];
    while i < |statements|
      invariant 0 <= i <= |statements|
      invariant text == RenderArms(Compact, Groups(Emitted(layout, statements[..i]), 0, layout.extra, false))
    {
      var arm := CompactCase(statements[i], i, fractionArms);
      BodyStep(layout, statements, i);
      text := text + arm;
      i := i + 1;
    }
    assert statements[..i] == statements;
  }

  /** The arms of statement `i`: `case i:` with the untrimmed statement, then the two
      idle fractional arms when asked for. */
  method CompactCase(stmt: string, i: nat, fractionArms: bool) returns (arm: string)
    ensures arm == RenderArms(Compact, Group(stmt, i, FractionCount(fractionArms), false))
  {
    arm := CaseLine(Compact, Case(i)) + StmtLine(Compact, stmt) + NextLine(Compact, i + 1) + BreakLine(Compact);
    SingleGroupText(Compact, stmt, i, false);
    if fractionArms {
      var first := CaseLine(Compact, CaseFraction(i, 1)) + BreakLine(Compact);
      arm := arm + first;
      GroupGrowText(Compact, stmt, i, 0, false);
      IdleArmText(Compact, CaseFraction(i, 1));
      var second := CaseLine(Compact, CaseFraction(i, 2)) + BreakLine(Compact);
      arm := arm + second;
      GroupGrowText(Compact, stmt, i, 1, false);
      IdleArmText(Compact, CaseFraction(i, 2));
    }
  }

  /** A rewritten function runs its statements, untrimmed, in order from state 0 and
      then reaches `default:return;`; fractional arms exist exactly in the
      public/script.js version, and no state the arms assign ever selects them. */
  lemma CompactRewriteRuns(m: string, groups: seq<string>, fractionArms: bool)
    requires |groups| == 3 && |Statements(groups[2])| >= 2
    ensures var stmts := Statements(groups[2]);
      var arms := Arms(CompactLayout(fractionArms), stmts);
      && Run(arms, 0, |stmts| + 1) == Some(stmts)
      && Run(arms, 0, |stmts|) == None
      && (HasFraction(arms) <==> fractionArms)
      && arms[|arms| - 1] == Arm(Default, Return)
  {
    var layout := CompactLayout(fractionArms);
    RewriteRunsInOrder(layout, m, groups);
    MachineFractionArms(layout, Statements(groups[2]));
  }
}

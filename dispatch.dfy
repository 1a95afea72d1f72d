/** The state machine the control-flow flatteners emit: `var _0xstate=0;` followed by
    `while(true){ switch(_0xstate){ ... } }`, each arm either running a statement and
    assigning the next state before `break`, or returning. The emitted code is not run
    by the obfuscator; this module gives the arms a meaning so that the order in which
    the flattened function executes its statements can be stated. */
module Dispatch {
  import opened Results
  import opened Text
  import opened Lexer

  /** `case n:`, a `case` with a non-integer label just above `n` (`n.1`, `n.2` or
      `n + 0.1`; `tenths` tells them apart), or `default:`. */
  datatype Label = Case(n: nat) | CaseFraction(n: nat, tenths: nat) | Default

  /** An arm's statements: an optional statement, an optional `_0xstate = next;` and
      `break;` — or `return;`. */
  datatype Body = Proceed(stmt: Option<string>, next: Option<nat>) | Return

  datatype Arm = Arm(key: Label, body: Body)

  /** The body of the first arm labelled `case state:`. A fractional label is never
      strictly equal to an integral state. */
  function FirstCase(arms: seq<Arm>, state: nat): (r: Option<Body>)
    ensures r.Some? <==> exists i :: 0 <= i < |arms| && arms[i].key == Case(state)
  {
    if arms == [] then None
    else if arms[0].key == Case(state) then Some(arms[0].body)
    else
      var r := FirstCase(arms[1..], state);
      assert forall i :: 1 <= i < |arms| ==> arms[i] == arms[1..][i - 1];
      r
  }

  /** The body of the first `default:` arm. */
  function DefaultBody(arms: seq<Arm>): (r: Option<Body>)
    ensures r.Some? <==> exists i :: 0 <= i < |arms| && arms[i].key == Default
  {
    if arms == [] then None
    else if arms[0].key == Default then Some(arms[0].body)
    else
      var r := DefaultBody(arms[1..]);
      assert forall i :: 1 <= i < |arms| ==> arms[i] == arms[1..][i - 1];
      r
  }

  /** What `switch(state)` selects: the matching `case`, otherwise `default:`;
      `None` when neither exists, in which case the switch does nothing. */
  function Select(arms: seq<Arm>, state: nat): Option<Body> {
    match FirstCase(arms, state)
    case Some(b) => Some(b)
    case None => DefaultBody(arms)
  }

  /** The statements the loop runs from `state` within `fuel` rounds of the
      `while(true)`; `None` when it has not returned by then. */
  function Run(arms: seq<Arm>, state: nat, fuel: nat): Option<seq<string>>
    decreases fuel
  {
    if fuel == 0 then None
    else
      match Select(arms, state)
      case None => None
      case Some(Return) => Some([])
      case Some(Proceed(stmt, next)) =>
        var state' := if next.Some? then next.value else state;
        match Run(arms, state', fuel - 1)
        case None => None
        case Some(rest) => Some((if stmt.Some? then [stmt.value] else []) + rest)
  }

  /** The arms emitted for statement `i`: `case i:` running it and moving to `i + 1`,
      then `extra` arms with fractional labels that only `break`, after moving to `i + 1`
      when `extraNext` holds. */
  function Group(stmt: string, i: nat, extra: nat, extraNext: bool): (g: seq<Arm>)
    ensures |g| == 1 + extra && g[0] == Arm(Case(i), Proceed(Some(stmt), Some(i + 1)))
    ensures forall e :: 1 <= e < |g| ==> g[e].key == CaseFraction(i, e)
  {
    [Arm(Case(i), Proceed(Some(stmt), Some(i + 1)))]
    + seq(extra, (e: int) requires 0 <= e =>
        Arm(CaseFraction(i, e + 1), Proceed(None, if extraNext then Some(i + 1) else None)))
  }

  /** The groups for `stmts`, the first being numbered `from`. */
  function Groups(stmts: seq<string>, from: nat, extra: nat, extraNext: bool): seq<Arm>
    decreases |stmts|
  {
    if stmts == [] then [] else Group(stmts[0], from, extra, extraNext) + Groups(stmts[1..], from + 1, extra, extraNext)
  }

  /** The whole switch: the groups, then `case k: return;` (`finalCase`) or
      `default: return;`. */
  function Machine(stmts: seq<string>, extra: nat, extraNext: bool, finalCase: bool): seq<Arm> {
    Groups(stmts, 0, extra, extraNext) + [Arm(if finalCase then Case(|stmts|) else Default, Return)]
  }

  lemma {:induction false} FirstCaseAppend(a: seq<Arm>, b: seq<Arm>, state: nat)
    ensures FirstCase(a + b, state) == if FirstCase(a, state).Some? then FirstCase(a, state) else FirstCase(b, state)
    decreases |a|
  {
    if a == [] {
      assert a + b == b;
    } else {
      assert (a + b)[1..] == a[1..] + b;
      FirstCaseAppend(a[1..], b, state);
    }
  }

  lemma {:induction false} DefaultBodyAppend(a: seq<Arm>, b: seq<Arm>)
    ensures DefaultBody(a + b) == if DefaultBody(a).Some? then DefaultBody(a) else DefaultBody(b)
    decreases |a|
  {
    if a == [] {
      assert a + b == b;
    } else {
      assert (a + b)[1..] == a[1..] + b;
      DefaultBodyAppend(a[1..], b);
    }
  }

  /** Within the groups, `case i:` is the arm emitted for statement `i - from`, and no
      other integral label occurs; there is no `default:`. */
  lemma {:induction false} GroupsSelect(stmts: seq<string>, from: nat, extra: nat, extraNext: bool, state: nat)
    ensures FirstCase(Groups(stmts, from, extra, extraNext), state)
         == if from <= state < from + |stmts| then Some(Proceed(Some(stmts[state - from]), Some(state + 1))) else None
    ensures DefaultBody(Groups(stmts, from, extra, extraNext)).None?
    decreases |stmts|
  {
    if stmts != [] {
      var g := Group(stmts[0], from, extra, extraNext);
      var rest := Groups(stmts[1..], from + 1, extra, extraNext);
      GroupsSelect(stmts[1..], from + 1, extra, extraNext, state);
      FirstCaseAppend(g, rest, state);
      DefaultBodyAppend(g, rest);
      GroupSelect(stmts[0], from, extra, extraNext, state);
      assert Groups(stmts, from, extra, extraNext) == g + rest;
      if state == from {
        assert FirstCase(g + rest, state) == Some(Proceed(Some(stmts[0]), Some(state + 1)));
      } else if from < state < from + |stmts| {
        assert stmts[1..][state - (from + 1)] == stmts[state - from];
        assert FirstCase(g + rest, state) == FirstCase(rest, state);
      } else {
        assert FirstCase(g + rest, state) == None;
      }
    }
  }

  /** One group answers only to `case from:`. */
  lemma GroupSelect(stmt: string, from: nat, extra: nat, extraNext: bool, state: nat)
    ensures FirstCase(Group(stmt, from, extra, extraNext), state)
         == if state == from then Some(Proceed(Some(stmt), Some(from + 1))) else None
    ensures DefaultBody(Group(stmt, from, extra, extraNext)).None?
  {
    var g := Group(stmt, from, extra, extraNext);
    assert g == [g[0]] + g[1..];
    FirstCaseAppend([g[0]], g[1..], state);
    DefaultBodyAppend([g[0]], g[1..]);
    assert [g[0]][1..] == [];
    assert forall e :: 0 <= e < |g[1..]| ==> g[1..][e].key == CaseFraction(from, e + 1);
  }

  /** Which arm the whole switch selects for each integral state below and at `k`. */
  lemma MachineSelect(stmts: seq<string>, extra: nat, extraNext: bool, finalCase: bool, state: nat)
    requires state <= |stmts|
    ensures Select(Machine(stmts, extra, extraNext, finalCase), state)
         == if state < |stmts| then Some(Proceed(Some(stmts[state]), Some(state + 1))) else Some(Return)
  {
    var gs := Groups(stmts, 0, extra, extraNext);
    var key := if finalCase then Case(|stmts|) else Default;
    GroupsSelect(stmts, 0, extra, extraNext, state);
    SelectBeforeReturn(gs, key, state);
  }

  /** Appending the closing arm to arms without `default:`. */
  lemma SelectBeforeReturn(gs: seq<Arm>, key: Label, state: nat)
    requires DefaultBody(gs).None?
    ensures Select(gs + [Arm(key, Return)], state)
         == if FirstCase(gs, state).Some? then FirstCase(gs, state)
            else if key == Case(state) || key == Default then Some(Return) else None
  {
    FirstCaseAppend(gs, [Arm(key, Return)], state);
    DefaultBodyAppend(gs, [Arm(key, Return)]);
    ReturnArm(key, state);
  }

  /** The closing arm alone. */
  lemma ReturnArm(key: Label, state: nat)
    ensures FirstCase([Arm(key, Return)], state) == if key == Case(state) then Some(Return) else None
    ensures DefaultBody([Arm(key, Return)]) == if key == Default then Some(Return) else None
  {
    assert [Arm(key, Return)][1..] == [];
  }

  /** From state `j`, the machine runs statements `j`, `j + 1`, ... in order and then
      returns, taking one round per statement plus one for the return. */
  lemma {:induction false} RunFrom(stmts: seq<string>, extra: nat, extraNext: bool, finalCase: bool, j: nat)
    requires j <= |stmts|
    ensures Run(Machine(stmts, extra, extraNext, finalCase), j, |stmts| - j + 1) == Some(stmts[j..])
    ensures Run(Machine(stmts, extra, extraNext, finalCase), j, |stmts| - j) == None
    decreases |stmts| - j
  {
    var arms := Machine(stmts, extra, extraNext, finalCase);
    MachineSelect(stmts, extra, extraNext, finalCase, j);
    if j < |stmts| {
      RunFrom(stmts, extra, extraNext, finalCase, j + 1);
      var k := |stmts| - j;
      assert Select(arms, j) == Some(Proceed(Some(stmts[j]), Some(j + 1)));
      assert Run(arms, j, k + 1) == Some([stmts[j]] + stmts[j + 1..]);
      assert Run(arms, j, k) == None;
      assert stmts[j..] == [stmts[j]] + stmts[j + 1..];
    } else {
      assert Select(arms, j) == Some(Return);
      assert Run(arms, j, 1) == Some([]);
      assert stmts[j..] == [];
    }
  }

  /** Started in state 0, the flattened function executes its statements exactly in the
      original order and then returns, after `k + 1` rounds and not before. */
  lemma RunInOrder(stmts: seq<string>, extra: nat, extraNext: bool, finalCase: bool)
    ensures Run(Machine(stmts, extra, extraNext, finalCase), 0, |stmts| + 1) == Some(stmts)
    ensures Run(Machine(stmts, extra, extraNext, finalCase), 0, |stmts|) == None
  {
    RunFrom(stmts, extra, extraNext, finalCase, 0);
    assert stmts[0..] == stmts;
  }

  lemma {:induction false} GroupsSnoc(stmts: seq<string>, x: string, from: nat, extra: nat, extraNext: bool)
    ensures Groups(stmts + [x], from, extra, extraNext)
         == Groups(stmts, from, extra, extraNext) + Group(x, from + |stmts|, extra, extraNext)
    decreases |stmts|
  {
    if stmts == [] {
      assert stmts + [x] == [x];
      assert [x][1..] == [];
    } else {
      assert (stmts + [x])[1..] == stmts[1..] + [x];
      GroupsSnoc(stmts[1..], x, from + 1, extra, extraNext);
    }
  }

  // ---------------------------------------------------------------------------
  // The statements of a body and the text of the switch

  /** `parts.filter(s => s.trim())`: the parts holding something other than white space,
      in order. */
  function NonBlank(parts: seq<string>): (r: seq<string>)
    ensures forall s :: s in r <==> s in parts && !AllSpace(s)
  {
    if parts == [] then []
    else if AllSpace(parts[0]) then NonBlank(parts[1..])
    else [parts[0]] + NonBlank(parts[1..])
  }

  /** `body.split(';').filter(s => s.trim())`. */
  function Statements(body: string): (r: seq<string>)
    ensures forall i :: 0 <= i < |r| ==> ';' !in r[i] && !AllSpace(r[i])
  {
    var parts := Split(body, ';');
    var r := NonBlank(parts);
    assert forall i :: 0 <= i < |r| ==> r[i] in parts;
    r
  }

  /** The multi-line layout of obfuscator.js, or the one-line layout of the other two. */
  datatype Style = Spaced | Compact

  /** How a flattener writes its switch: the layout, whether statements are trimmed,
      the extra arms per statement and how the switch ends. */
  datatype Layout = Layout(style: Style, trim: bool, extra: nat, extraNext: bool, finalCase: bool)

  function LabelText(l: Label): string {
    match l
    case Case(n) => Decimal(n)
    case CaseFraction(n, t) => Decimal(n) + "." + Decimal(t)
    case Default => "default"
  }

  /** The line that opens an arm. */
  function CaseLine(style: Style, l: Label): string {
    if l.Default? then (if style == Spaced then "    default:\n" else "default:")
    else if style == Spaced then "    case " + LabelText(l) + ":\n"
    else "case " + LabelText(l) + ":"
  }

  function StmtLine(style: Style, stmt: string): string {
    if style == Spaced then "      " + stmt + ";\n" else stmt + ";"
  }

  function NextLine(style: Style, n: nat): string {
    if style == Spaced then "      _0xstate = " + Decimal(n) + ";\n" else "_0xstate=" + Decimal(n) + ";"
  }

  function BreakLine(style: Style): string {
    if style == Spaced then "      break;\n" else "break;"
  }

  function ReturnLine(style: Style): string {
    if style == Spaced then "      return;\n" else "return;"
  }

  /** The text of one arm: its label, then its statement, its jump and `break`, or
      `return`. */
  function RenderArm(style: Style, a: Arm): string {
    match a.body
    case Return => CaseLine(style, a.key) + ReturnLine(style)
    case Proceed(Some(s), Some(n)) => CaseLine(style, a.key) + StmtLine(style, s) + NextLine(style, n) + BreakLine(style)
    case Proceed(Some(s), None) => CaseLine(style, a.key) + StmtLine(style, s) + BreakLine(style)
    case Proceed(None, Some(n)) => CaseLine(style, a.key) + NextLine(style, n) + BreakLine(style)
    case Proceed(None, None) => CaseLine(style, a.key) + BreakLine(style)
  }

  // The text of each kind of arm the flatteners emit.

  lemma StmtArmText(st: Style, l: Label, x: string, n: nat)
    ensures RenderArm(st, Arm(l, Proceed(Some(x), Some(n)))) == CaseLine(st, l) + StmtLine(st, x) + NextLine(st, n) + BreakLine(st)
  {
  }

  lemma JumpArmText(st: Style, l: Label, n: nat)
    ensures RenderArm(st, Arm(l, Proceed(None, Some(n)))) == CaseLine(st, l) + NextLine(st, n) + BreakLine(st)
  {
  }

  lemma IdleArmText(st: Style, l: Label)
    ensures RenderArm(st, Arm(l, Proceed(None, None))) == CaseLine(st, l) + BreakLine(st)
  {
  }

  lemma ReturnArmText(st: Style, l: Label)
    ensures RenderArm(st, Arm(l, Return)) == CaseLine(st, l) + ReturnLine(st)
  {
  }

  /** A group without extra arms is the statement's own arm. */
  lemma SingleGroupText(st: Style, x: string, i: nat, extraNext: bool)
    ensures RenderArms(st, Group(x, i, 0, extraNext))
         == CaseLine(st, Case(i)) + StmtLine(st, x) + NextLine(st, i + 1) + BreakLine(st)
  {
    var g := Group(x, i, 0, extraNext);
    assert g == [Arm(Case(i), Proceed(Some(x), Some(i + 1)))];
    StmtArmText(st, Case(i), x, i + 1);
  }

  /** One more extra arm adds its text at the end of the group. */
  lemma GroupGrowText(st: Style, x: string, i: nat, extra: nat, extraNext: bool)
    ensures RenderArms(st, Group(x, i, extra + 1, extraNext))
         == RenderArms(st, Group(x, i, extra, extraNext))
            + RenderArm(st, Arm(CaseFraction(i, extra + 1), Proceed(None, if extraNext then Some(i + 1) else None)))
  {
    var a := Arm(CaseFraction(i, extra + 1), Proceed(None, if extraNext then Some(i + 1) else None));
    assert Group(x, i, extra + 1, extraNext) == Group(x, i, extra, extraNext) + [a];
    RenderAppend(st, Group(x, i, extra, extraNext), [a]);
    assert RenderArms(st, [a]) == RenderArm(st, a) + RenderArms(st, []);
  }

  function RenderArms(style: Style, arms: seq<Arm>): string {
    if arms == [] then "" else RenderArm(style, arms[0]) + RenderArms(style, arms[1..])
  }

  lemma {:induction false} RenderAppend(style: Style, a: seq<Arm>, b: seq<Arm>)
    ensures RenderArms(style, a + b) == RenderArms(style, a) + RenderArms(style, b)
    decreases |a|
  {
    if a == [] {
      assert a + b == b;
    } else {
      assert (a + b)[1..] == a[1..] + b;
      RenderAppend(style, a[1..], b);
    }
  }

  function Head(style: Style): string {
    if style == Spaced then "var _0xstate=0;\n" + "while(true){\n" + "  switch(_0xstate){\n"
    else "var _0xstate=0;while(true){switch(_0xstate){"
  }

  function Tail(style: Style): string {
    if style == Spaced then "  }\n" + "}\n" else "}}"
  }

  /** The statements as the arms run them. */
  function Emitted(layout: Layout, stmts: seq<string>): (r: seq<string>)
    ensures |r| == |stmts|
    ensures forall i :: 0 <= i < |stmts| ==> r[i] == if layout.trim then Trim(stmts[i]) else stmts[i]
  {
    if layout.trim then seq(|stmts|, (i: int) requires 0 <= i < |stmts| => Trim(stmts[i])) else stmts
  }

  function Arms(layout: Layout, stmts: seq<string>): seq<Arm> {
    Machine(Emitted(layout, stmts), layout.extra, layout.extraNext, layout.finalCase)
  }

  /** The new function body. */
  function NewBody(layout: Layout, stmts: seq<string>): string {
    Head(layout.style) + RenderArms(layout.style, Arms(layout, stmts)) + Tail(layout.style)
  }

  /** The callback: a match whose body has fewer than two statements is kept,
      otherwise the function is rewritten around the switch. */
  function Rewrite(layout: Layout, m: string, groups: seq<string>): string
    requires |groups| == 3
  {
    var stmts := Statements(groups[2]);
    if |stmts| < 2 then m
    else "function " + groups[0] + "(" + groups[1] + "){" + NewBody(layout, stmts) + "}"
  }

  function Rewrites(layout: Layout, ps: seq<Piece>): (r: seq<string>)
    requires Grouped(ps, 3)
    ensures |r| == |Matches(ps)|
  {
    if ps == [] then []
    else
      GroupedTail(ps, 3);
      match ps[0]
      case Plain(_) => Rewrites(layout, ps[1..])
      case Found(m, g) => [Rewrite(layout, m, g)] + Rewrites(layout, ps[1..])
  }

  /** `code.replace(functionRegex, callback)`. */
  function Flattened(layout: Layout, code: string): string {
    var ps := Scan(FunctionDef, None, code);
    ScanGrouped(FunctionDef, None, code);
    Fill(ps, Rewrites(layout, ps))
  }

  /** Every match with fewer than two statements is kept as it is. */
  predicate AllShort(ps: seq<Piece>) {
    forall j :: 0 <= j < |ps| && ps[j].Found? && |ps[j].groups| == 3 ==> |Statements(ps[j].groups[2])| < 2
  }

  lemma {:induction false} ShortRewrites(layout: Layout, ps: seq<Piece>)
    requires Grouped(ps, 3) && AllShort(ps)
    ensures Rewrites(layout, ps) == Matches(ps)
    decreases |ps|
  {
    if ps != [] {
      GroupedTail(ps, 3);
      assert AllShort(ps[1..]) by {
        forall j | 0 <= j < |ps[1..]| && ps[1..][j].Found? && |ps[1..][j].groups| == 3
          ensures |Statements(ps[1..][j].groups[2])| < 2
        {
          assert ps[1..][j] == ps[j + 1];
        }
      }
      ShortRewrites(layout, ps[1..]);
    }
  }

  /** When no function body in the code holds two statements, the code is unchanged. */
  lemma FlattenedKeepsShort(layout: Layout, code: string)
    requires AllShort(Scan(FunctionDef, None, code))
    ensures Flattened(layout, code) == code
  {
    var ps := Scan(FunctionDef, None, code);
    ScanGrouped(FunctionDef, None, code);
    ShortRewrites(layout, ps);
    FillMatches(ps);
    FlattenScan(FunctionDef, None, code);
  }

  /** A rewritten function keeps its name and parameters, and its new body is a switch
      that, run from state 0, executes the statements in their original order and then
      returns, after exactly one round per statement plus one. */
  lemma RewriteRunsInOrder(layout: Layout, m: string, groups: seq<string>)
    requires |groups| == 3 && |Statements(groups[2])| >= 2
    ensures var stmts := Statements(groups[2]);
      var arms := Arms(layout, stmts);
      && Rewrite(layout, m, groups) == "function " + groups[0] + "(" + groups[1] + "){" + NewBody(layout, stmts) + "}"
      && NewBody(layout, stmts) == Head(layout.style) + RenderArms(layout.style, arms) + Tail(layout.style)
      && Run(arms, 0, |stmts| + 1) == Some(Emitted(layout, stmts))
      && Run(arms, 0, |stmts|) == None
  {
    var stmts := Statements(groups[2]);
    RunInOrder(Emitted(layout, stmts), layout.extra, layout.extraNext, layout.finalCase);
  }

  /** Some arm has a non-integer label. */
  predicate HasFraction(arms: seq<Arm>) {
    exists i :: 0 <= i < |arms| && arms[i].key.CaseFraction?
  }

  lemma HasFractionAppend(a: seq<Arm>, b: seq<Arm>)
    ensures HasFraction(a + b) <==> HasFraction(a) || HasFraction(b)
  {
    if HasFraction(a + b) {
      var i :| 0 <= i < |a + b| && (a + b)[i].key.CaseFraction?;
      if i < |a| {
        assert a[i] == (a + b)[i];
      } else {
        assert b[i - |a|] == (a + b)[i];
      }
    }
    if HasFraction(b) {
      var i :| 0 <= i < |b| && b[i].key.CaseFraction?;
      assert (a + b)[i + |a|] == b[i];
    }
    if HasFraction(a) {
      var i :| 0 <= i < |a| && a[i].key.CaseFraction?;
      assert (a + b)[i] == a[i];
    }
  }

  lemma {:induction false} FractionArms(stmts: seq<string>, from: nat, extra: nat, extraNext: bool)
    ensures HasFraction(Groups(stmts, from, extra, extraNext)) <==> extra > 0 && stmts != []
    decreases |stmts|
  {
    if stmts != [] {
      var g := Group(stmts[0], from, extra, extraNext);
      var rest := Groups(stmts[1..], from + 1, extra, extraNext);
      FractionArms(stmts[1..], from + 1, extra, extraNext);
      HasFractionAppend(g, rest);
      if extra > 0 {
        assert g[1].key.CaseFraction?;
      } else {
        assert g == [g[0]];
      }
    }
  }

  /** Arms with a non-integer label are emitted exactly when the layout asks for extra
      arms and there is at least one statement. */
  lemma MachineFractionArms(layout: Layout, stmts: seq<string>)
    ensures HasFraction(Arms(layout, stmts)) <==> layout.extra > 0 && stmts != []
  {
    var e := Emitted(layout, stmts);
    var gs := Groups(e, 0, layout.extra, layout.extraNext);
    var arms := Arms(layout, stmts);
    FractionArms(e, 0, layout.extra, layout.extraNext);
    var last := arms[|arms| - 1];
    assert arms == gs + [last];
    HasFractionAppend(gs, [last]);
    assert !HasFraction([last]);
  }

  // ---------------------------------------------------------------------------
  // Steps of the loops that build the text

  lemma EmittedSnoc(layout: Layout, stmts: seq<string>, i: nat)
    requires i < |stmts|
    ensures Emitted(layout, stmts[..i + 1]) == Emitted(layout, stmts[..i]) + [Emitted(layout, stmts)[i]]
  {
    var a := Emitted(layout, stmts[..i + 1]);
    var b := Emitted(layout, stmts[..i]) + [Emitted(layout, stmts)[i]];
    forall k | 0 <= k < |a|
      ensures a[k] == b[k]
    {
      if k < i {
        assert stmts[..i + 1][k] == stmts[..i][k];
      }
    }
  }

  /** One more statement adds its group of arms at the end of the text. */
  lemma BodyStep(layout: Layout, stmts: seq<string>, i: nat)
    requires i < |stmts|
    ensures RenderArms(layout.style, Groups(Emitted(layout, stmts[..i + 1]), 0, layout.extra, layout.extraNext))
         == RenderArms(layout.style, Groups(Emitted(layout, stmts[..i]), 0, layout.extra, layout.extraNext))
            + RenderArms(layout.style, Group(Emitted(layout, stmts)[i], i, layout.extra, layout.extraNext))
  {
    var e := Emitted(layout, stmts[..i]);
    var x := Emitted(layout, stmts)[i];
    EmittedSnoc(layout, stmts, i);
    GroupsSnoc(e, x, 0, layout.extra, layout.extraNext);
    RenderAppend(layout.style, Groups(e, 0, layout.extra, layout.extraNext), Group(x, i, layout.extra, layout.extraNext));
  }

  /** After the last statement the closing arm completes the arms. */
  lemma BodyEnd(layout: Layout, stmts: seq<string>)
    ensures var arms := Arms(layout, stmts);
      RenderArms(layout.style, arms)
      == RenderArms(layout.style, Groups(Emitted(layout, stmts), 0, layout.extra, layout.extraNext))
         + RenderArm(layout.style, arms[|arms| - 1])
  {
    var gs := Groups(Emitted(layout, stmts), 0, layout.extra, layout.extraNext);
    var arms := Arms(layout, stmts);
    var last := arms[|arms| - 1];
    assert arms == gs + [last];
    RenderAppend(layout.style, gs, [last]);
    assert RenderArms(layout.style, [last]) == RenderArm(layout.style, last) + RenderArms(layout.style, []);
  }

  /** The arms are the groups followed by the closing arm. */
  lemma ArmsText(layout: Layout, stmts: seq<string>)
    ensures var st := layout.style;
      RenderArms(st, Arms(layout, stmts))
      == RenderArms(st, Groups(Emitted(layout, stmts), 0, layout.extra, layout.extraNext))
         + CaseLine(st, if layout.finalCase then Case(|stmts|) else Default) + ReturnLine(st)
  {
    var st := layout.style;
    var arms := Arms(layout, stmts);
    var l := if layout.finalCase then Case(|stmts|) else Default;
    BodyEnd(layout, stmts);
    ReturnArmText(st, l);
    assert arms[|arms| - 1] == Arm(l, Return);
  }

  lemma Regroup(h: string, r: string, c: string, x: string, t: string, a: string)
    requires a == r + c + x
    ensures h + a + t == h + r + c + x + t
  {
  }

  /** The new body is the head, the groups of arms, the closing arm and the tail. */
  lemma NewBodyText(layout: Layout, stmts: seq<string>)
    ensures var st := layout.style;
      NewBody(layout, stmts)
      == Head(st) + RenderArms(st, Groups(Emitted(layout, stmts), 0, layout.extra, layout.extraNext))
         + CaseLine(st, if layout.finalCase then Case(|stmts|) else Default) + ReturnLine(st) + Tail(st)
  {
    var st := layout.style;
    ArmsText(layout, stmts);
    Regroup(Head(st), RenderArms(st, Groups(Emitted(layout, stmts), 0, layout.extra, layout.extraNext)),
      CaseLine(st, if layout.finalCase then Case(|stmts|) else Default), ReturnLine(st), Tail(st),
      RenderArms(st, Arms(layout, stmts)));
  }

  /** One more piece of the replace: a match adds its rewrite. */
  lemma RewritesStep(layout: Layout, ps: seq<Piece>, i: nat)
    requires Grouped(ps, 3) && i < |ps|
    ensures Grouped(ps[..i], 3) && Grouped(ps[..i + 1], 3)
    ensures ps[i].Plain? ==> Rewrites(layout, ps[..i + 1]) == Rewrites(layout, ps[..i])
    ensures ps[i].Found? ==> |ps[i].groups| == 3 && Rewrites(layout, ps[..i + 1]) == Rewrites(layout, ps[..i]) + [Rewrite(layout, ps[i].text, ps[i].groups)]
  {
    GroupedPrefix(ps, i, 3);
    GroupedPrefix(ps, i + 1, 3);
    assert ps[..i + 1] == ps[..i] + [ps[i]];
    RewritesAppend(layout, ps[..i], [ps[i]]);
  }

  lemma {:induction false} RewritesAppend(layout: Layout, a: seq<Piece>, b: seq<Piece>)
    requires Grouped(a, 3) && Grouped(b, 3)
    ensures Grouped(a + b, 3)
    ensures Rewrites(layout, a + b) == Rewrites(layout, a) + Rewrites(layout, b)
    decreases |a|
  {
    GroupedAppend(a, b, 3);
    if a == [] {
      assert a + b == b;
    } else {
      var ab := a + b;
      assert ab[0] == a[0] && ab[1..] == a[1..] + b;
      RewritesFront(layout, a);
      RewritesFront(layout, ab);
      RewritesAppend(layout, a[1..], b);
      if a[0].Found? {
        ConcatAssoc([Rewrite(layout, a[0].text, a[0].groups)], Rewrites(layout, a[1..]), Rewrites(layout, b));
      }
    }
  }

  /** The rewrites of a nonempty sequence of pieces: the first piece's, then the rest. */
  lemma RewritesFront(layout: Layout, ps: seq<Piece>)
    requires Grouped(ps, 3) && ps != []
    ensures Grouped(ps[1..], 3)
    ensures ps[0].Plain? ==> Rewrites(layout, ps) == Rewrites(layout, ps[1..])
    ensures ps[0].Found? ==>
      |ps[0].groups| == 3 && Rewrites(layout, ps) == [Rewrite(layout, ps[0].text, ps[0].groups)] + Rewrites(layout, ps[1..])
  {
    GroupedTail(ps, 3);
  }
}

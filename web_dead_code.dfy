/** `addDeadCode` and `generateDeadCode` of public/script.js. One draw per line decides
    whether dead code goes in before that line (above 0.9, or above 0.7 when heavy); the
    chosen lines are then visited from the last to the first, and each receives a block
    generated afresh for it: one to three turns (three to seven when heavy) of two
    `var` statements, each heavy turn followed by a `try`/`catch` around a method call. */
module WebDeadCode {
  import opened Results
  import opened Text
  import opened Splice

  const Vars: seq<string> := ["a", "b", "c", "x", "y", "z", "i", "j", "k", "n", "m", "p", "q", "r", "s", "t", "u", "v"]
  const Ops: seq<string> := ["+", "-", "*", "/", "%", "&", "|", "^", "<<", ">>", ">>>"]
  const Funcs: seq<string> := ["toString", "valueOf", "charAt", "slice", "split", "join", "reverse"]

  /** The text of one turn from its choices. */
  function TurnOf(v1: string, v2: string, op: string, func: string, num: nat, x: nat, heavy: bool): string {
    "var " + v1 + "=" + Decimal(num) + ";var " + v2 + "=" + v1 + op + Decimal(x) + ";"
    + (if heavy then "try{" + v2 + "." + func + "();}catch(e){};" else "")
  }

  /** One turn of the loop from its six draws: two variables, an operator, a method,
      the number, then the operand. */
  function TurnText(ds: seq<nat>, heavy: bool): string
    requires |ds| == 6
  {
    TurnOf(Vars[ds[0] % 18], Vars[ds[1] % 18], Ops[ds[2] % 11], Funcs[ds[3] % 7], ds[4] % 1000, ds[5] % 100, heavy)
  }

  /** The texts of `count` turns, six draws a turn. */
  function Turns(count: nat, ds: seq<nat>, heavy: bool): (r: seq<string>)
    requires |ds| >= 6 * count
    ensures |r| == count
  {
    if count == 0 then []
    else Turns(count - 1, ds, heavy) + [TurnText(ds[6 * (count - 1)..6 * count], heavy)]
  }

  function Concat(ts: seq<string>): string {
    if ts == [] then "" else Concat(ts[..|ts| - 1]) + ts[|ts| - 1]
  }

  /** How many turns the first draw asks for. */
  function TurnCount(heavy: bool, d: nat): (count: nat)
    ensures heavy ==> 3 <= count <= 7
    ensures !heavy ==> 1 <= count <= 3
  {
    if heavy then 3 + d % 5 else 1 + d % 3
  }

  /** `generateDeadCode(heavy)` and the draws left after it; `None` when the oracle runs
      out. */
  function DeadCodeFor(heavy: bool, oracle: seq<nat>): Option<(string, seq<nat>)> {
    if |oracle| < 1 then None
    else
      var count := TurnCount(heavy, oracle[0]);
      if |oracle| < 1 + 6 * count then None
      else Some((Concat(Turns(count, oracle[1..], heavy)), oracle[1 + 6 * count..]))
  }

  /** The blocks for `k` points, generated one after the other. */
  function Blocks(heavy: bool, k: nat, oracle: seq<nat>): (r: Option<(seq<string>, seq<nat>)>)
    ensures r.Some? ==> |r.value.0| == k
  {
    if k == 0 then Some(([], oracle))
    else
      match Blocks(heavy, k - 1, oracle)
      case None => None
      case Some((bs, rest)) =>
        match DeadCodeFor(heavy, rest)
        case None => None
        case Some((b, rest')) => Some((bs + [b], rest'))
  }

  /** The block each line receives: the `j`-th block generated goes to the `j`-th point
      from the end. */
  function Placed(n: nat, p: seq<nat>, bs: seq<string>): (r: seq<string>)
    requires |bs| <= |p| && forall j :: 0 <= j < |p| ==> p[j] < n
    ensures |r| == n
  {
    if bs == [] then seq(n, _ => "")
    else Placed(n, p, bs[..|bs| - 1])[p[|p| - |bs|] := bs[|bs| - 1]]
  }

  /** The threshold of the line draws in tenths: `Math.random() > 0.7` when heavy,
      `Math.random() > 0.9` otherwise. */
  function Tenths(heavy: bool): nat {
    if heavy then 7 else 9
  }

  /** `addDeadCode(code, heavy)` and the draws left after it; `None` when the oracle runs
      out. */
  function DeadCodeAdded(code: string, heavy: bool, oracle: seq<nat>): Option<(string, seq<nat>)> {
    var lines := Split(code, '\n');
    if |oracle| < |lines| then None
    else
      var h := Hits(oracle[..|lines|], Tenths(heavy));
      match Woven(lines, h, heavy, oracle[|lines|..])
      case None => None
      case Some((woven, rest)) => Some((Join(woven, "\n"), rest))
  }

  /** The lines with the generated blocks spliced in before the chosen ones. */
  function Woven(lines: seq<string>, h: seq<bool>, heavy: bool, oracle: seq<nat>): Option<(seq<string>, seq<nat>)>
    requires |h| == |lines|
  {
    var p := Points(h);
    match Blocks(heavy, |p|, oracle)
    case None => None
    case Some((bs, rest)) => Some((Weave(lines, h, Placed(|lines|, p, bs)), rest))
  }

  // ---------------------------------------------------------------------------
  // Properties

  /** One turn: two `var` statements over the fixed names, operators and numbers, then,
      exactly when heavy, a `try`/`catch` around one of the fixed methods. */
  predicate IsTurn(t: string, heavy: bool) {
    exists v1, v2, op, func, num: nat, x: nat ::
      && v1 in Vars && v2 in Vars && op in Ops && func in Funcs && num < 1000 && x < 100
      && t == TurnOf(v1, v2, op, func, num, x, heavy)
  }

  /** Turn `i` of the block is the text of its six draws, and has the shape of a turn. */
  lemma TurnsAreTurns(count: nat, ds: seq<nat>, heavy: bool, i: nat)
    requires |ds| >= 6 * count && i < count
    ensures Turns(count, ds, heavy)[i] == TurnText(ds[6 * i..6 * i + 6], heavy)
    ensures IsTurn(Turns(count, ds, heavy)[i], heavy)
  {
    TurnsEntry(count, ds, heavy, i);
    TextIsTurn(ds[6 * i..6 * i + 6], heavy);
  }

  lemma {:induction false} TurnsEntry(count: nat, ds: seq<nat>, heavy: bool, i: nat)
    requires |ds| >= 6 * count && i < count
    ensures Turns(count, ds, heavy)[i] == TurnText(ds[6 * i..6 * i + 6], heavy)
  {
    TurnsLast(count, ds, heavy);
    if i < count - 1 {
      TurnsEntry(count - 1, ds, heavy, i);
    }
  }

  lemma TurnsLast(count: nat, ds: seq<nat>, heavy: bool)
    requires 0 < count && |ds| >= 6 * count
    ensures Turns(count, ds, heavy) == Turns(count - 1, ds, heavy) + [TurnText(ds[6 * (count - 1)..6 * count], heavy)]
  {
  }

  lemma TextIsTurn(d: seq<nat>, heavy: bool)
    requires |d| == 6
    ensures IsTurn(TurnText(d, heavy), heavy)
  {
    var v1, v2, op, func := Vars[d[0] % 18], Vars[d[1] % 18], Ops[d[2] % 11], Funcs[d[3] % 7];
    assert v1 in Vars && v2 in Vars && op in Ops && func in Funcs;
    assert TurnText(d, heavy) == TurnOf(v1, v2, op, func, d[4] % 1000, d[5] % 100, heavy);
  }

  lemma TurnsStep(i: nat, ds: seq<nat>, heavy: bool)
    requires |ds| >= 6 * (i + 1)
    ensures Concat(Turns(i + 1, ds, heavy)) == Concat(Turns(i, ds, heavy)) + TurnText(ds[6 * i..6 * i + 6], heavy)
  {
    var ts := Turns(i + 1, ds, heavy);
    var t := TurnText(ds[6 * i..6 * i + 6], heavy);
    assert ts == Turns(i, ds, heavy) + [t];
    assert ts[..|ts| - 1] == Turns(i, ds, heavy) && ts[|ts| - 1] == t;
  }

  /** A generated block is one to three turns, or three to seven when heavy, and takes
      one draw for the count and six per turn; it is `None` exactly when the oracle
      is too short for that. */
  lemma DeadCodeShape(heavy: bool, oracle: seq<nat>)
    ensures DeadCodeFor(heavy, oracle).None? <==>
      |oracle| < 1 || |oracle| < 1 + 6 * TurnCount(heavy, oracle[0])
    ensures DeadCodeFor(heavy, oracle).Some? ==>
      exists ts: seq<string> ::
        && DeadCodeFor(heavy, oracle).value.0 == Concat(ts)
        && (heavy ==> 3 <= |ts| <= 7) && (!heavy ==> 1 <= |ts| <= 3)
        && (forall i :: 0 <= i < |ts| ==> IsTurn(ts[i], heavy))
        && |oracle| == |DeadCodeFor(heavy, oracle).value.1| + 1 + 6 * |ts|
  {
    if DeadCodeFor(heavy, oracle).Some? {
      var count := TurnCount(heavy, oracle[0]);
      var ts := Turns(count, oracle[1..], heavy);
      forall i | 0 <= i < |ts|
        ensures IsTurn(ts[i], heavy)
      {
        TurnsAreTurns(count, oracle[1..], heavy, i);
      }
    }
  }

  /** Every generated block goes in before a chosen line, and only chosen lines receive
      one. */
  lemma {:induction false} PlacedAt(n: nat, p: seq<nat>, bs: seq<string>, j: nat)
    requires |bs| <= |p| && forall k :: 0 <= k < |p| ==> p[k] < n
    requires forall a, b :: 0 <= a < b < |p| ==> p[a] < p[b]
    requires j < |bs|
    ensures Placed(n, p, bs)[p[|p| - 1 - j]] == bs[j]
    decreases |bs|
  {
    var last := |bs| - 1;
    if j < last {
      PlacedAt(n, p, bs[..last], j);
      assert p[|p| - 1 - j] != p[|p| - |bs|];
    }
  }

  /** The dead code is spliced in: the lines grow by one per chosen line and come back
      unchanged once the blocks are dropped, and before the `j`-th chosen line from the
      end sits the `j`-th generated block. */
  lemma DeadCodeAddedShape(code: string, heavy: bool, oracle: seq<nat>)
    requires DeadCodeAdded(code, heavy, oracle).Some?
    ensures var lines := Split(code, '\n');
      var h := Hits(oracle[..|lines|], Tenths(heavy));
      var p := Points(h);
      var bs := Blocks(heavy, |p|, oracle[|lines|..]).value.0;
      var w := Weave(lines, h, Placed(|lines|, p, bs));
      && DeadCodeAdded(code, heavy, oracle).value.0 == Join(w, "\n")
      && |w| == |lines| + |p|
      && Unweave(w, h) == lines
      && forall j :: 0 <= j < |p| ==> Placed(|lines|, p, bs)[p[|p| - 1 - j]] == bs[j]
  {
    DeadCodeAddedText(code, heavy, oracle);
    var lines := Split(code, '\n');
    var h := Hits(oracle[..|lines|], Tenths(heavy));
    var p := Points(h);
    var bs := Blocks(heavy, |p|, oracle[|lines|..]).value.0;
    var at := Placed(|lines|, p, bs);
    WeaveLength(lines, h, at);
    UnweaveWeave(lines, h, at);
    forall j | 0 <= j < |p|
      ensures at[p[|p| - 1 - j]] == bs[j]
    {
      PlacedAt(|lines|, p, bs, j);
    }
  }

  /** The text `addDeadCode` returns is the woven lines joined again. */
  lemma DeadCodeAddedText(code: string, heavy: bool, oracle: seq<nat>)
    requires DeadCodeAdded(code, heavy, oracle).Some?
    ensures var lines := Split(code, '\n');
      && |lines| <= |oracle|
      && var h := Hits(oracle[..|lines|], Tenths(heavy));
      && Blocks(heavy, |Points(h)|, oracle[|lines|..]).Some?
      && DeadCodeAdded(code, heavy, oracle).value.0
         == Join(Weave(lines, h, Placed(|lines|, Points(h), Blocks(heavy, |Points(h)|, oracle[|lines|..]).value.0)), "\n")
  {
  }

  /** When no line draw clears the threshold the code comes back unchanged, and only
      the line draws are used. */
  lemma NoPointsUnchanged(code: string, heavy: bool, oracle: seq<nat>)
    requires |oracle| >= |Split(code, '\n')|
    requires forall i :: 0 <= i < |Split(code, '\n')| ==> oracle[i] % 10 < Tenths(heavy)
    ensures DeadCodeAdded(code, heavy, oracle) == Some((code, oracle[|Split(code, '\n')|..]))
  {
    var lines := Split(code, '\n');
    var h := Hits(oracle[..|lines|], Tenths(heavy));
    PointsNone(h);
    var at := Placed(|lines|, [], []);
    WeaveSkip(lines, h, at, 0, |lines|);
    assert lines[0..] == lines && h[0..] == h && at[0..] == at && lines[0..|lines|] == lines;
    assert Weave(lines[|lines|..], h[|lines|..], at[|lines|..]) == [];
    assert Weave(lines, h, at) == lines;
    JoinSplit(code, '\n');
  }

  // ---------------------------------------------------------------------------
  // The imperative code

  /** `generateDeadCode(heavy)`: the count, then the `code +=` loop. */
  method GenerateDeadCode(heavy: bool, oracle: seq<nat>) returns (r: Option<(string, seq<nat>)>)
    ensures r == DeadCodeFor(heavy, oracle)
  {
    if |oracle| < 1 {
      return None;
    }
    var count := if heavy then 3 + oracle[0] % 5 else 1 + oracle[0] % 3;
    assert count == TurnCount(heavy, oracle[0]);
    if |oracle| < 1 + 6 * count {
      return None;
    }
    var code := GenerateTurns(count, oracle[1..], heavy);
    r := Some((code, oracle[1 + 6 * count..]));
  }

  /** The `for (let i = 0; i < count; i++)` loop, six draws a turn. */
  method GenerateTurns(count: nat, ds: seq<nat>, heavy: bool) returns (code: string)
    requires 6 * count <= |ds|
    ensures code == Concat(Turns(count, ds, heavy))
  {
    code := "";
    for i := 0 to count
      invariant code == Concat(Turns(i, ds, heavy))
    {
      TurnsStep(i, ds, heavy);
      code := code + TurnText(ds[6 * i..6 * i + 6], heavy);
    }
  }

  /** `addDeadCode(code, heavy)`: split, choose the points, then splice a fresh block
      in at each point from the last to the first. */
  method AddDeadCode(code: string, heavy: bool, oracle: seq<nat>) returns (r: Option<(string, seq<nat>)>)
    ensures r == DeadCodeAdded(code, heavy, oracle)
  {
    var lines := Split(code, '\n');
    var found := InsertPoints(|lines|, oracle, if heavy then 7 else 9);
    if found.None? {
      return None;
    }
    ghost var h := Hits(oracle[..|lines|], Tenths(heavy));
    var (insertPoints, rest) := found.value;
    var spliced := SpliceFresh(lines, h, insertPoints, heavy, rest);
    if spliced.None? {
      return None;
    }
    r := Some((Join(spliced.value.0, "\n"), spliced.value.1));
  }

  /** `insertPoints.reverse().forEach(pos => { ... lines.splice(pos, 0, deadCode) })`. */
  method SpliceFresh(lines: seq<string>, ghost h: seq<bool>, points: seq<nat>, heavy: bool, oracle: seq<nat>)
    returns (r: Option<(seq<string>, seq<nat>)>)
    requires |h| == |lines| && points == Points(h)
    ensures r == Woven(lines, h, heavy, oracle)
  {
    ghost var bs: seq<string> := [];
    var spliced := lines;
    var rest := oracle;
    SplicedStart(lines, h, heavy, oracle);
    var k := |points|;
    while k > 0
      invariant 0 <= k <= |points| && |bs| + k == |points|
      invariant Spliced(lines, h, heavy, oracle, k, bs, rest, spliced)
    {
      var pos := points[k - 1];
      var generated := GenerateDeadCode(heavy, rest);
      SplicedStep(lines, h, heavy, oracle, k, bs, rest, spliced);
      if generated.None? {
        r := None;
        assert r == Woven(lines, h, heavy, oracle);
        return;
      }
      var deadCode := generated.value.0;
      rest := generated.value.1;
      spliced := spliced[..pos] + [deadCode] + spliced[pos..];
      bs := bs + [deadCode];
      k := k - 1;
    }
    assert k == 0;
    SplicedEnd(lines, h, heavy, oracle, bs, rest, spliced);
    r := Some((spliced, rest));
  }

  /** The state of the splicing loop once the points from the `k`-th on have their
      blocks `bs`, the last point's block first. */
  ghost predicate Spliced(lines: seq<string>, h: seq<bool>, heavy: bool, oracle: seq<nat>,
                          k: nat, bs: seq<string>, rest: seq<nat>, spliced: seq<string>)
    requires |h| == |lines| && |bs| + k == |Points(h)|
  {
    var p := Points(h);
    var at := Placed(|lines|, p, bs);
    var lo := Lo(|lines|, p, k);
    && Blocks(heavy, |bs|, oracle) == Some((bs, rest))
    && spliced == lines[..lo] + Weave(lines[lo..], h[lo..], at[lo..])
  }

  lemma SplicedStart(lines: seq<string>, h: seq<bool>, heavy: bool, oracle: seq<nat>)
    requires |h| == |lines|
    ensures Spliced(lines, h, heavy, oracle, |Points(h)|, [], oracle, lines)
  {
    SpliceStart(lines, h, Placed(|lines|, Points(h), []));
  }

  lemma SplicedEnd(lines: seq<string>, h: seq<bool>, heavy: bool, oracle: seq<nat>,
                   bs: seq<string>, rest: seq<nat>, spliced: seq<string>)
    requires |h| == |lines| && |bs| == |Points(h)|
    requires Spliced(lines, h, heavy, oracle, 0, bs, rest, spliced)
    ensures Woven(lines, h, heavy, oracle) == Some((spliced, rest))
  {
    SpliceEnd(lines, h, Placed(|lines|, Points(h), bs), spliced);
  }

  lemma SplicedStep(lines: seq<string>, h: seq<bool>, heavy: bool, oracle: seq<nat>,
                    k: nat, bs: seq<string>, rest: seq<nat>, spliced: seq<string>)
    requires |h| == |lines| && |bs| + k == |Points(h)| && k > 0
    requires Spliced(lines, h, heavy, oracle, k, bs, rest, spliced)
    ensures DeadCodeFor(heavy, rest).None? ==> Woven(lines, h, heavy, oracle).None?
    ensures DeadCodeFor(heavy, rest).Some? ==>
      var (b, rest') := DeadCodeFor(heavy, rest).value;
      var pos := Points(h)[k - 1];
      && pos < |spliced|
      && Spliced(lines, h, heavy, oracle, k - 1, bs + [b], rest', spliced[..pos] + [b] + spliced[pos..])
  {
    var p := Points(h);
    BlocksStep(heavy, |bs|, oracle, bs, rest);
    if DeadCodeFor(heavy, rest).None? {
      BlocksNone(heavy, |bs| + 1, |p|, oracle);
    } else {
      var (b, rest') := DeadCodeFor(heavy, rest).value;
      var at := Placed(|lines|, p, bs);
      SpliceStep(lines, h, at, k, b, spliced);
      PlacedStep(|lines|, p, bs, b);
    }
  }

  lemma BlocksStep(heavy: bool, k: nat, oracle: seq<nat>, bs: seq<string>, rest: seq<nat>)
    requires Blocks(heavy, k, oracle) == Some((bs, rest))
    ensures DeadCodeFor(heavy, rest).None? ==> Blocks(heavy, k + 1, oracle).None?
    ensures DeadCodeFor(heavy, rest).Some? ==>
      Blocks(heavy, k + 1, oracle) == Some((bs + [DeadCodeFor(heavy, rest).value.0], DeadCodeFor(heavy, rest).value.1))
  {
  }

  lemma PlacedStep(n: nat, p: seq<nat>, bs: seq<string>, b: string)
    requires |bs| < |p| && forall j :: 0 <= j < |p| ==> p[j] < n
    ensures Placed(n, p, bs + [b]) == Placed(n, p, bs)[p[|p| - 1 - |bs|] := b]
  {
    assert (bs + [b])[..|bs|] == bs;
  }

  /** Once the oracle runs out for one block it stays out for every later count. */
  lemma {:induction false} BlocksNone(heavy: bool, k: nat, m: nat, oracle: seq<nat>)
    requires k <= m && Blocks(heavy, k, oracle).None?
    ensures Blocks(heavy, m, oracle).None?
    decreases m - k
  {
    if k < m {
      BlocksNone(heavy, k + 1, m, oracle);
    }
  }
}

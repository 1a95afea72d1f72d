/** `injectDeadCode` and `generateRandomCodeBlock` of obfuscator.js. Four dead blocks are
    built once (an `if(false)`, a `while(1<0)`, an uncalled function and an unused
    variable); one draw per line decides, with probability one in ten, that a block goes
    in before that line; the points are then visited from the last to the first and each
    takes one of the four blocks at random. */
module DeadCode {
  import opened Results
  import opened Text
  import opened Splice

  const Ops: seq<string> := ["+", "-", "*", "/", "%", "&", "|", "^"]
  const Vars: seq<string> := ["a", "b", "c", "x", "y", "z", "i", "j", "k"]
  const Methods: seq<string> := ["toString", "valueOf", "charAt", "slice", "split"]

  /** The three statements of one turn of the block loop, from its six draws: two
      variables, an operator, a method, then the two numbers. */
  function Triple(ds: seq<nat>): (r: seq<string>)
    requires |ds| == 6
    ensures |r| == 3
  {
    var v1 := Vars[ds[0] % 9];
    var v2 := Vars[ds[1] % 9];
    var op := Ops[ds[2] % 8];
    var call := Methods[ds[3] % 5];
    ["var " + v1 + "=" + Decimal(ds[4] % 1000) + ";",
     "var " + v2 + "=" + v1 + op + Decimal(ds[5] % 100) + ";",
     v2 + "." + call + "();"]
  }

  /** One line of code ending with `;`. */
  predicate IsStatementLine(s: string) {
    s != [] && '\n' !in s && s[|s| - 1] == ';'
  }

  /** The statements of `count` turns, six draws a turn. */
  function BlockStatements(count: nat, ds: seq<nat>): (r: seq<string>)
    requires |ds| >= 6 * count
    ensures |r| == 3 * count
  {
    if count == 0 then []
    else BlockStatements(count - 1, ds) + Triple(ds[6 * (count - 1)..6 * count])
  }

  /** `generateRandomCodeBlock()`: two to six turns, the statements joined by line
      breaks; `None` when the oracle runs out. */
  function RandomBlock(oracle: seq<nat>): Option<(string, seq<nat>)> {
    if |oracle| < 1 then None
    else
      var count := 2 + oracle[0] % 5;
      if |oracle| < 1 + 6 * count then None
      else Some((Join(BlockStatements(count, oracle[1..]), "\n"), oracle[1 + 6 * count..]))
  }

  /** `${Math.random()}` for the draw `d`. */
  function FractionText(d: nat): string {
    "0." + Decimal(d)
  }

  /** `deadCodeBlocks`, in the order the source evaluates its random calls. */
  function DeadBlocks(oracle: seq<nat>): (r: Option<(seq<string>, seq<nat>)>)
    ensures r.Some? ==> |r.value.0| == 4
  {
    match RandomBlock(oracle)
    case None => None
    case Some((b0, rest0)) =>
      match RandomBlock(rest0)
      case None => None
      case Some((b1, rest1)) =>
        if |rest1| < 1 then None
        else
          match RandomBlock(rest1[1..])
          case None => None
          case Some((b2, rest2)) =>
            if |rest2| < 1 then None
            else
              Some(([ "if(false){" + b0 + "}",
                      "while(1<0){" + b1 + "}",
                      "function _0xdead" + Decimal(rest1[0] % 1000) + "(){" + b2 + "}",
                      "var _0xunused=" + FractionText(rest2[0]) + ";" ], rest2[1..]))
  }

  function Blank(n: nat): (r: seq<string>)
    ensures |r| == n
  {
    seq(n, _ => "")
  }

  /** The block each point receives: the points are visited from the last, each taking
      the next draw modulo four. */
  function Picks(at: seq<string>, p: seq<nat>, ds: seq<nat>, blocks: seq<string>): (r: seq<string>)
    requires |ds| == |p| && |blocks| == 4 && forall j :: 0 <= j < |p| ==> p[j] < |at|
    ensures |r| == |at|
    decreases |p|
  {
    if p == [] then at
    else Picks(at[p[|p| - 1] := blocks[ds[0] % 4]], p[..|p| - 1], ds[1..], blocks)
  }

  /** The lines after the splicing of the four `blocks` with the draws `rest`, or `None`
      when the draws run out. */
  function SplicedLines(code: string, blocks: seq<string>, rest: seq<nat>): Option<(seq<string>, seq<nat>)>
    requires |blocks| == 4
  {
    var lines := Split(code, '\n');
    if |rest| < |lines| then None
    else SplicedTail(lines, Hits(rest[..|lines|], 9), blocks, rest[|lines|..])
  }

  /** The splicing once the line draws `h` are taken: one draw per point, `None` when
      the draws run out. */
  function SplicedTail(lines: seq<string>, h: seq<bool>, blocks: seq<string>, tail: seq<nat>): Option<(seq<string>, seq<nat>)>
    requires |h| == |lines| && |blocks| == 4
  {
    var p := Points(h);
    if |tail| < |p| then None
    else Some((Weave(lines, h, Picks(Blank(|lines|), p, tail[..|p|], blocks)), tail[|p|..]))
  }

  /** `injectDeadCode(code)` and the draws left after it, or `None` when the oracle runs
      out. */
  function Injected(code: string, oracle: seq<nat>): Option<(string, seq<nat>)> {
    match DeadBlocks(oracle)
    case None => None
    case Some((blocks, rest)) =>
      match SplicedLines(code, blocks, rest)
      case None => None
      case Some((w, rest')) => Some((Join(w, "\n"), rest'))
  }

  // ---------------------------------------------------------------------------
  // Properties

  /** Each statement of a turn is one line ending with `;`. */
  lemma TripleLines(ds: seq<nat>)
    requires |ds| == 6
    ensures forall i :: 0 <= i < 3 ==> IsStatementLine(Triple(ds)[i])
  {
    assert !IsDigit('\n');
  }

  /** Each statement of a block is one line ending with `;`. */
  lemma {:induction false} StatementsAreLines(count: nat, ds: seq<nat>)
    requires |ds| >= 6 * count
    ensures forall i :: 0 <= i < 3 * count ==> IsStatementLine(BlockStatements(count, ds)[i])
  {
    if count > 0 {
      StatementsAreLines(count - 1, ds);
      TripleLines(ds[6 * (count - 1)..6 * count]);
    }
  }

  /** A block has between six and eighteen lines: three per turn, two to six turns. */
  lemma BlockLines(oracle: seq<nat>)
    requires RandomBlock(oracle).Some?
    ensures var lines := Split(RandomBlock(oracle).value.0, '\n');
      |lines| == 3 * (2 + oracle[0] % 5) && 6 <= |lines| <= 18
      && forall i :: 0 <= i < |lines| ==> IsStatementLine(lines[i])
  {
    var count := 2 + oracle[0] % 5;
    var st := BlockStatements(count, oracle[1..]);
    StatementsAreLines(count, oracle[1..]);
    assert RandomBlock(oracle).value.0 == Join(st, "\n");
    assert forall k :: 0 <= k < |st| ==> '\n' !in st[k];
    SplitJoin(st, '\n');
  }

  /** Every point receives one of the four blocks. */
  lemma {:induction false} PicksFromBlocks(at: seq<string>, p: seq<nat>, ds: seq<nat>, blocks: seq<string>, j: nat)
    requires |ds| == |p| && |blocks| == 4 && forall k :: 0 <= k < |p| ==> p[k] < |at|
    requires j < |p| && forall k :: 0 <= k < |p| ==> p[k] != p[j] || k == j
    ensures Picks(at, p, ds, blocks)[p[j]] in blocks
    decreases |p|
  {
    var last := |p| - 1;
    var at' := at[p[last] := blocks[ds[0] % 4]];
    if j == last {
      PicksKeep(at', p[..last], ds[1..], blocks, p[j]);
    } else {
      PicksFromBlocks(at', p[..last], ds[1..], blocks, j);
    }
  }

  /** One turn of the reversed visit: the point `k - 1` takes the draw `|p| - k`. */
  lemma PicksStep(at: seq<string>, p: seq<nat>, ds: seq<nat>, blocks: seq<string>, k: nat)
    requires |ds| == |p| && |blocks| == 4 && forall j :: 0 <= j < |p| ==> p[j] < |at|
    requires 0 < k <= |p|
    ensures Picks(at, p[..k], ds[|p| - k..], blocks)
         == Picks(at[p[k - 1] := blocks[ds[|p| - k] % 4]], p[..k - 1], ds[|p| - k + 1..], blocks)
  {
    assert p[..k][..k - 1] == p[..k - 1] && ds[|p| - k..][1..] == ds[|p| - k + 1..];
  }

  /** A position no remaining point names keeps its entry. */
  lemma {:induction false} PicksKeep(at: seq<string>, p: seq<nat>, ds: seq<nat>, blocks: seq<string>, i: nat)
    requires |ds| == |p| && |blocks| == 4 && forall k :: 0 <= k < |p| ==> p[k] < |at|
    requires i < |at| && i !in p
    ensures Picks(at, p, ds, blocks)[i] == at[i]
    decreases |p|
  {
    if p != [] {
      var last := |p| - 1;
      assert p[..last] <= p;
      PicksKeep(at[p[last] := blocks[ds[0] % 4]], p[..last], ds[1..], blocks, i);
    }
  }

  /** The spliced lines keep every original line in order, grow by one line per point,
      and every point receives one of the four dead blocks. */
  lemma SplicedShape(code: string, blocks: seq<string>, rest: seq<nat>)
    requires |blocks| == 4 && SplicedLines(code, blocks, rest).Some?
    ensures var w := SplicedLines(code, blocks, rest).value.0;
      var lines := Split(code, '\n');
      var h := Hits(rest[..|lines|], 9);
      var at := Picks(Blank(|lines|), Points(h), rest[|lines|..][..|Points(h)|], blocks);
      && |w| == |lines| + |Points(h)|
      && Unweave(w, h) == lines
      && w == Weave(lines, h, at)
      && forall i :: 0 <= i < |lines| && h[i] ==> at[i] in blocks
  {
    var lines := Split(code, '\n');
    var h := Hits(rest[..|lines|], 9);
    var p := Points(h);
    var ds := rest[|lines|..][..|p|];
    var at := Picks(Blank(|lines|), p, ds, blocks);
    assert SplicedLines(code, blocks, rest) == SplicedTail(lines, h, blocks, rest[|lines|..]);
    assert SplicedLines(code, blocks, rest).value.0 == Weave(lines, h, at);
    WeaveLength(lines, h, at);
    UnweaveWeave(lines, h, at);
    forall i | 0 <= i < |lines| && h[i]
      ensures at[i] in blocks
    {
      var j :| 0 <= j < |p| && p[j] == i;
      PicksFromBlocks(Blank(|lines|), p, ds, blocks, j);
    }
  }

  /** When no line draw clears the threshold the lines come back unchanged. */
  lemma NoPointsUnchanged(code: string, blocks: seq<string>, rest: seq<nat>)
    requires |blocks| == 4
    requires |rest| >= |Split(code, '\n')| && forall i :: 0 <= i < |Split(code, '\n')| ==> rest[i] % 10 < 9
    ensures SplicedLines(code, blocks, rest) == Some((Split(code, '\n'), rest[|Split(code, '\n')|..]))
    ensures Join(Split(code, '\n'), "\n") == code
  {
    var lines := Split(code, '\n');
    var h := Hits(rest[..|lines|], 9);
    var p := Points(h);
    PointsNone(h);
    assert rest[|lines|..][|p|..] == rest[|lines|..];
    var at := Picks(Blank(|lines|), p, rest[|lines|..][..|p|], blocks);
    WeaveSkip(lines, h, at, 0, |lines|);
    assert lines[0..] == lines && h[0..] == h && at[0..] == at && lines[0..|lines|] == lines;
    assert Weave(lines[|lines|..], h[|lines|..], at[|lines|..]) == [];
    assert Weave(lines, h, at) == lines;
    assert at == Blank(|lines|);
    JoinSplit(code, '\n');
  }

  // ---------------------------------------------------------------------------
  // The imperative code

  /** `injectDeadCode(code)`: the blocks, the points, then the splicing. */
  method InjectDeadCode(code: string, oracle: seq<nat>) returns (r: Option<(string, seq<nat>)>)
    ensures r == Injected(code, oracle)
  {
    var built := BuildDeadCodeBlocks(oracle);
    if built.None? {
      return None;
    }
    var (blocks, rest) := built.value;
    var spliced := SpliceDeadCode(code, blocks, rest);
    if spliced.None? {
      return None;
    }
    var (lines, rest') := spliced.value;
    r := Some((Join(lines, "\n"), rest'));
  }

  /** The body of `injectDeadCode` after the blocks: split, choose the points, splice. */
  method SpliceDeadCode(code: string, blocks: seq<string>, rest: seq<nat>) returns (r: Option<(seq<string>, seq<nat>)>)
    requires |blocks| == 4
    ensures r == SplicedLines(code, blocks, rest)
  {
    var lines := Split(code, '\n');
    var found := InsertPoints(|lines|, rest, 9);
    if found.None? {
      return None;
    }
    ghost var h := Hits(rest[..|lines|], 9);
    var (points, rest') := found.value;
    r := SpliceAtPoints(lines, h, points, blocks, rest');
  }

  /** The draws for the points, then the splicing. */
  method SpliceAtPoints(lines: seq<string>, ghost h: seq<bool>, points: seq<nat>, blocks: seq<string>, tail: seq<nat>)
    returns (r: Option<(seq<string>, seq<nat>)>)
    requires |h| == |lines| && |blocks| == 4 && points == Points(h)
    ensures r == SplicedTail(lines, h, blocks, tail)
  {
    if |tail| < |points| {
      return None;
    }
    var spliced := SpliceBlocks(lines, h, points, blocks, tail[..|points|]);
    r := Some((spliced, tail[|points|..]));
  }

  /** `insertPoints.reverse().forEach(...)`: from the last point to the first, one draw
      picks the block and `lines.splice(pos, 0, deadCode)` puts it in. */
  method SpliceBlocks(lines: seq<string>, ghost h: seq<bool>, points: seq<nat>, blocks: seq<string>, ds: seq<nat>)
    returns (spliced: seq<string>)
    requires |h| == |lines| && points == Points(h) && |blocks| == 4 && |ds| == |points|
    ensures spliced == Weave(lines, h, Picks(Blank(|lines|), points, ds, blocks))
  {
    ghost var goal := Picks(Blank(|lines|), points, ds, blocks);
    ghost var at := Blank(|lines|);
    spliced := lines;
    SpliceStart(lines, h, at);
    var k := |points|;
    assert points[..k] == points && ds[|points| - k..] == ds;
    while k > 0
      invariant 0 <= k <= |points| && |at| == |lines|
      invariant var lo := Lo(|lines|, points, k);
        spliced == lines[..lo] + Weave(lines[lo..], h[lo..], at[lo..])
      invariant Picks(at, points[..k], ds[|points| - k..], blocks) == goal
    {
      var pos := points[k - 1];
      var deadCode := blocks[ds[|points| - k] % 4];
      SpliceStep(lines, h, at, k, deadCode, spliced);
      PicksStep(at, points, ds, blocks, k);
      spliced := spliced[..pos] + [deadCode] + spliced[pos..];
      at := at[pos := deadCode];
      k := k - 1;
    }
    SpliceEnd(lines, h, at, spliced);
  }

  /** `deadCodeBlocks`: the four blocks, drawing in the order the source does. */
  method BuildDeadCodeBlocks(oracle: seq<nat>) returns (r: Option<(seq<string>, seq<nat>)>)
    ensures r == DeadBlocks(oracle)
  {
    var first := GenerateRandomCodeBlock(oracle);
    if first.None? {
      return None;
    }
    var (b0, rest0) := first.value;
    var second := GenerateRandomCodeBlock(rest0);
    if second.None? {
      return None;
    }
    var (b1, rest1) := second.value;
    if |rest1| < 1 {
      return None;
    }
    var suffix := rest1[0] % 1000;
    var third := GenerateRandomCodeBlock(rest1[1..]);
    if third.None? {
      return None;
    }
    var (b2, rest2) := third.value;
    if |rest2| < 1 {
      return None;
    }
    var blocks := ["if(false){" + b0 + "}",
                   "while(1<0){" + b1 + "}",
                   "function _0xdead" + Decimal(suffix) + "(){" + b2 + "}",
                   "var _0xunused=" + FractionText(rest2[0]) + ";"];
    r := Some((blocks, rest2[1..]));
  }

  /** `generateRandomCodeBlock()`: the count, then three statements per turn. */
  method GenerateRandomCodeBlock(oracle: seq<nat>) returns (r: Option<(string, seq<nat>)>)
    ensures r == RandomBlock(oracle)
  {
    if |oracle| < 1 {
      return None;
    }
    var count := 2 + oracle[0] % 5;
    if |oracle| < 1 + 6 * count {
      return None;
    }
    var statements := Turns(count, oracle[1..]);
    r := Some((Join(statements, "\n"), oracle[1 + 6 * count..]));
  }

  /** The `for` loop of `generateRandomCodeBlock`: `count` turns, six draws each. */
  method Turns(count: nat, ds: seq<nat>) returns (statements: seq<string>)
    requires |ds| >= 6 * count
    ensures statements == BlockStatements(count, ds)
  {
    statements := [];
    var i := 0;
    while i < count
      invariant 0 <= i <= count && statements == BlockStatements(i, ds)
    {
      TurnInRange(i, count, |ds|);
      statements := Turn(ds, i, statements);
      i := i + 1;
    }
  }

  lemma TurnInRange(i: nat, count: nat, n: nat)
    requires i < count && 6 * count <= n
    ensures 6 * i + 6 <= n
  {
  }

  lemma BlockStatementsStep(i: nat, ds: seq<nat>, turn: seq<string>)
    requires |ds| >= 6 * i + 6 && turn == Triple(ds[6 * i..6 * i + 6])
    ensures BlockStatements(i + 1, ds) == BlockStatements(i, ds) + turn
  {
  }

  /** Turn `i` of the block loop: two variables, an operator and a method, then the two
      numbers, drawn from the six draws of that turn and pushed after the statements
      of the turns before it. */
  method Turn(ds: seq<nat>, i: nat, statements: seq<string>) returns (r: seq<string>)
    requires 6 * i + 6 <= |ds| && statements == BlockStatements(i, ds)
    ensures r == BlockStatements(i + 1, ds)
  {
    var d := ds[6 * i..6 * i + 6];
    var v1 := Vars[d[0] % 9];
    var v2 := Vars[d[1] % 9];
    var op := Ops[d[2] % 8];
    var call := Methods[d[3] % 5];
    var turn := ["var " + v1 + "=" + Decimal(d[4] % 1000) + ";",
                 "var " + v2 + "=" + v1 + op + Decimal(d[5] % 100) + ";",
                 v2 + "." + call + "();"];
    BlockStatementsStep(i, ds, turn);
    r := statements + turn;
  }
}

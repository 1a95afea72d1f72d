/** `mangleVariables` of public/script.js and of script.js: every `var`, `let`, `const`
    or `function` declaration the pattern finds is rewritten as its keyword, one space
    and a name drawn afresh, unless the name is one the mangler keeps. Unlike
    `mangleIdentifiers` of obfuscator.js nothing remembers the names already handed out,
    so two declarations can receive the same name. */
module Renamer {
  import opened Results
  import opened Lexer
  import opened Naming
  import opened Mangler

  /** Which declarations a mangler leaves as they are: public/script.js keeps a list of
      global names, script.js keeps names shorter than `n` characters. */
  datatype Keep = KeepNames(names: seq<string>) | KeepShorter(n: nat)

  predicate Kept(k: Keep, name: string) {
    match k
    case KeepNames(names) => name in names
    case KeepShorter(n) => |name| < n
  }

  /** What the callback may return for declaration `d` when the draws start with
      `draws`: the match itself when the name is kept, otherwise the keyword, a space
      and the name made from the first draws. */
  predicate EntryIs(k: Keep, s: Scheme, d: Decl, draws: seq<nat>, rep: string) {
    if Kept(k, d.name) then rep == d.m
    else |draws| >= Draws(s) && rep == d.keyword + " " + NameFrom(s, d.name, draws[..Draws(s)])
  }

  /** The callback for one declaration: the match itself, or the keyword, a space and a
      drawn name; `None` when the oracle runs out. */
  function Rename(k: Keep, s: Scheme, d: Decl, oracle: seq<nat>): (r: Option<(string, seq<nat>)>)
    ensures r.None? <==> !Kept(k, d.name) && |oracle| < Draws(s)
    ensures r.Some? ==> EntryIs(k, s, d, oracle, r.value.0)
    ensures r.Some? ==> r.value.1 == oracle[(if Kept(k, d.name) then 0 else Draws(s))..]
  {
    if Kept(k, d.name) then Some((d.m, oracle))
    else
      match Attempt(s, d.name, oracle)
      case None => None
      case Some((n, rest)) => Some((d.keyword + " " + n, rest))
  }

  /** The callback applied to each declaration in turn: the replacements and the draws
      left. */
  function Renamed(k: Keep, s: Scheme, ds: seq<Decl>, oracle: seq<nat>): (r: Option<(seq<string>, seq<nat>)>)
    ensures r.Some? ==> |r.value.0| == |ds|
    decreases |ds|
  {
    if ds == [] then Some(([], oracle))
    else
      match Rename(k, s, ds[0], oracle)
      case None => None
      case Some((rep, rest)) =>
        match Renamed(k, s, ds[1..], rest)
        case None => None
        case Some((reps, rest')) => Some(([rep] + reps, rest'))
  }

  /** `code.replace(declarationRegex, callback)` and the draws left. */
  function RenamedCode(k: Keep, s: Scheme, code: string, oracle: seq<nat>): Option<(string, seq<nat>)> {
    var ps := Scan(Declaration, None, code);
    ScanGrouped(Declaration, None, code);
    match Renamed(k, s, DeclsOf(ps), oracle)
    case None => None
    case Some((reps, rest)) => Some((Fill(ps, reps), rest))
  }

  /** How many numbers the renaming takes from the oracle: one name's draws for every
      declaration that is not kept. */
  function DrawsFor(k: Keep, s: Scheme, ds: seq<Decl>): nat {
    if ds == [] then 0 else (if Kept(k, ds[0].name) then 0 else Draws(s)) + DrawsFor(k, s, ds[1..])
  }

  // ---------------------------------------------------------------------------
  // Properties

  /** The renaming succeeds exactly when the oracle holds one name's draws for every
      declaration that is not kept, and it uses exactly those draws. */
  lemma {:induction false} RenamedDraws(k: Keep, s: Scheme, ds: seq<Decl>, oracle: seq<nat>)
    ensures Renamed(k, s, ds, oracle).Some? <==> |oracle| >= DrawsFor(k, s, ds)
    ensures Renamed(k, s, ds, oracle).Some? ==> Renamed(k, s, ds, oracle).value.1 == oracle[DrawsFor(k, s, ds)..]
    decreases |ds|
  {
    if ds != [] {
      var used := if Kept(k, ds[0].name) then 0 else Draws(s);
      RenamedStep(k, s, ds, oracle);
      if |oracle| >= used {
        var rest := oracle[used..];
        RenamedDraws(k, s, ds[1..], rest);
        if |rest| >= DrawsFor(k, s, ds[1..]) {
          assert rest[DrawsFor(k, s, ds[1..])..] == oracle[DrawsFor(k, s, ds)..];
        }
      }
    }
  }

  /** One step of the renaming, failing or not: it goes on from the draws the first
      declaration leaves and ends where the rest end. */
  lemma RenamedStep(k: Keep, s: Scheme, ds: seq<Decl>, oracle: seq<nat>)
    requires ds != []
    ensures Rename(k, s, ds[0], oracle).None? ==> Renamed(k, s, ds, oracle).None?
    ensures Rename(k, s, ds[0], oracle).Some? ==>
      var rest := Rename(k, s, ds[0], oracle).value.1;
      && (Renamed(k, s, ds, oracle).Some? <==> Renamed(k, s, ds[1..], rest).Some?)
      && (Renamed(k, s, ds, oracle).Some? ==>
            Renamed(k, s, ds, oracle).value.1 == Renamed(k, s, ds[1..], rest).value.1)
  {
  }

  /** Where the draws of declaration `i` start: after those of every earlier
      declaration that was not kept. */
  function DrawStart(k: Keep, s: Scheme, ds: seq<Decl>, i: nat): nat
    requires i <= |ds|
  {
    DrawsFor(k, s, ds[..i])
  }

  /** What each declaration becomes: its own match when its name is kept, otherwise its
      keyword, a space and the name made from the draws that follow those of the
      earlier declarations. */
  lemma {:induction false} RenamedEntries(k: Keep, s: Scheme, ds: seq<Decl>, oracle: seq<nat>, i: nat)
    requires Renamed(k, s, ds, oracle).Some? && i < |ds|
    ensures DrawStart(k, s, ds, i) <= |oracle|
    ensures EntryIs(k, s, ds[i], oracle[DrawStart(k, s, ds, i)..], Renamed(k, s, ds, oracle).value.0[i])
    decreases |ds|
  {
    RenamedFirst(k, s, ds, oracle);
    var (rep0, rest) := Rename(k, s, ds[0], oracle).value;
    if i == 0 {
      assert ds[..0] == [] && oracle[0..] == oracle;
    } else {
      RenamedEntries(k, s, ds[1..], rest, i - 1);
      DrawStartStep(k, s, ds, i);
      assert ds[i] == ds[1..][i - 1];
      assert rest[DrawStart(k, s, ds[1..], i - 1)..] == oracle[DrawStart(k, s, ds, i)..];
    }
  }

  /** One step of the renaming: the first declaration's replacement, then those of the
      rest from the draws it left. */
  lemma RenamedFirst(k: Keep, s: Scheme, ds: seq<Decl>, oracle: seq<nat>)
    requires Renamed(k, s, ds, oracle).Some? && ds != []
    ensures Rename(k, s, ds[0], oracle).Some?
    ensures var rest := Rename(k, s, ds[0], oracle).value.1;
      && Renamed(k, s, ds[1..], rest).Some?
      && Renamed(k, s, ds, oracle).value.0
         == [Rename(k, s, ds[0], oracle).value.0] + Renamed(k, s, ds[1..], rest).value.0
  {
  }

  /** The draws before declaration `i > 0` are those of the first declaration and those
      before `i - 1` among the rest. */
  lemma DrawStartStep(k: Keep, s: Scheme, ds: seq<Decl>, i: nat)
    requires 0 < i <= |ds|
    ensures DrawStart(k, s, ds, i)
         == (if Kept(k, ds[0].name) then 0 else Draws(s)) + DrawStart(k, s, ds[1..], i - 1)
  {
    assert ds[..i][1..] == ds[1..][..i - 1];
    assert ds[..i][0] == ds[0];
  }

  /** Nothing stops two declarations from receiving the same name: when the draws of
      two renamed declarations with the same keyword and first character coincide, so
      do their replacements. */
  lemma SameDrawsSameName(k: Keep, s: Scheme, ds: seq<Decl>, oracle: seq<nat>, i: nat, j: nat)
    requires Renamed(k, s, ds, oracle).Some? && i < j < |ds|
    requires !Kept(k, ds[i].name) && !Kept(k, ds[j].name)
    requires ds[i].keyword == ds[j].keyword && CharAt0(ds[i].name) == CharAt0(ds[j].name)
    requires var a := DrawStart(k, s, ds, i);
      var b := DrawStart(k, s, ds, j);
      a + Draws(s) <= |oracle| && b + Draws(s) <= |oracle| && oracle[a..][..Draws(s)] == oracle[b..][..Draws(s)]
    ensures Renamed(k, s, ds, oracle).value.0[i] == Renamed(k, s, ds, oracle).value.0[j]
  {
    RenamedEntries(k, s, ds, oracle, i);
    RenamedEntries(k, s, ds, oracle, j);
    var a := DrawStart(k, s, ds, i);
    var b := DrawStart(k, s, ds, j);
    var reps := Renamed(k, s, ds, oracle).value.0;
    SameEntry(k, s, ds[i], ds[j], oracle[a..], oracle[b..], reps[i], reps[j]);
  }

  /** Two renamed declarations with the same keyword and first character, given the
      same draws, get the same replacement. */
  lemma SameEntry(k: Keep, s: Scheme, d: Decl, e: Decl, x: seq<nat>, y: seq<nat>, rd: string, re: string)
    requires !Kept(k, d.name) && !Kept(k, e.name)
    requires d.keyword == e.keyword && CharAt0(d.name) == CharAt0(e.name)
    requires EntryIs(k, s, d, x, rd) && EntryIs(k, s, e, y, re) && x[..Draws(s)] == y[..Draws(s)]
    ensures rd == re
  {
    SameInitialName(s, d.name, e.name, x[..Draws(s)]);
  }

  /** The name drawn depends on the original name only through its first character. */
  lemma SameInitialName(s: Scheme, x: string, y: string, d: seq<nat>)
    requires |d| == Draws(s) && CharAt0(x) == CharAt0(y)
    ensures NameFrom(s, x, d) == NameFrom(s, y, d)
  {
  }

  /** Every drawn name has the shape of its scheme. */
  lemma RenamedShape(k: Keep, s: Scheme, ds: seq<Decl>, oracle: seq<nat>, i: nat)
    requires Renamed(k, s, ds, oracle).Some? && i < |ds| && !Kept(k, ds[i].name)
    ensures exists n ::
      && Renamed(k, s, ds, oracle).value.0[i] == ds[i].keyword + " " + n
      && (s == Initial ==> IsInitialName(ds[i].name, n))
      && (s == SixHex ==> IsHexName(n, 6))
      && (s.HexRun? ==> IsHexName(n, s.n))
  {
    RenamedEntries(k, s, ds, oracle, i);
    var draws := oracle[DrawStart(k, s, ds, i)..][..Draws(s)];
    NameShape(s, ds[i].name, draws);
  }

  /** With every declaration kept the callback returns each match and draws nothing. */
  lemma {:induction false} AllKept(k: Keep, s: Scheme, ds: seq<Decl>, oracle: seq<nat>)
    requires forall i :: 0 <= i < |ds| ==> Kept(k, ds[i].name)
    ensures Renamed(k, s, ds, oracle).Some?
    ensures forall i :: 0 <= i < |ds| ==> Renamed(k, s, ds, oracle).value.0[i] == ds[i].m
    ensures Renamed(k, s, ds, oracle).value.1 == oracle
    decreases |ds|
  {
    if ds != [] {
      AllKept(k, s, ds[1..], oracle);
      var t := Renamed(k, s, ds[1..], oracle).value;
      assert Renamed(k, s, ds, oracle).value.0 == [ds[0].m] + t.0;
    }
  }

  /** Code whose declarations are all kept comes back unchanged and draws nothing. */
  lemma AllKeptUnchanged(k: Keep, s: Scheme, code: string, oracle: seq<nat>)
    requires forall i :: 0 <= i < |Declarations(code)| ==> Kept(k, Declarations(code)[i].name)
    ensures RenamedCode(k, s, code, oracle) == Some((code, oracle))
  {
    var ps := Scan(Declaration, None, code);
    ScanGrouped(Declaration, None, code);
    var ds := DeclsOf(ps);
    assert ds == Declarations(code);
    AllKept(k, s, ds, oracle);
    DeclsMatches(ps);
    var reps := Renamed(k, s, ds, oracle).value.0;
    assert reps == Matches(ps);
    FillMatches(ps);
    FlattenScan(Declaration, None, code);
  }
}

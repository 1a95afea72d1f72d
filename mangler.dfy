/** `mangleIdentifiers` of obfuscator.js: every `var`, `let`, `const` or `function`
    declaration whose name has at least three characters is rewritten as the keyword,
    one space and a fresh name; the fresh name is drawn again (`do ... while`) as long
    as it was already handed out in this call. Uses of the names are not touched. */
module Mangler {
  import opened Results
  import opened Text
  import opened Lexer
  import opened Naming

  /** The naming scheme of each level: `low`, `medium`, anything else. */
  function LevelScheme(level: string): (s: Scheme)
    ensures Draws(s) >= 1
  {
    if level == "low" then Initial else if level == "medium" then SixHex else HexRun(8)
  }

  /** One declaration found by the pattern: the whole match, the keyword and the name. */
  datatype Decl = Decl(m: string, keyword: string, name: string)

  /** The declarations of a scan, in order. */
  function DeclsOf(ps: seq<Piece>): (r: seq<Decl>)
    requires Grouped(ps, 2)
    ensures |r| == |Matches(ps)|
  {
    if ps == [] then []
    else
      GroupedTail(ps, 2);
      match ps[0]
      case Plain(_) => DeclsOf(ps[1..])
      case Found(m, g) => [Decl(m, g[0], g[1])] + DeclsOf(ps[1..])
  }

  /** The declarations the pattern finds in `code`, in order. */
  function Declarations(code: string): seq<Decl> {
    ScanGrouped(Declaration, None, code);
    DeclsOf(Scan(Declaration, None, code))
  }

  /** One run of the `do` body: the candidate and the rest of the oracle, or `None`
      when the oracle has too few numbers left. */
  function Attempt(s: Scheme, name: string, oracle: seq<nat>): Option<(string, seq<nat>)> {
    if |oracle| < Draws(s) then None
    else Some((NameFrom(s, name, oracle[..Draws(s)]), oracle[Draws(s)..]))
  }

  /** The `do ... while (usedNames.has(newName))` loop: the first candidate not in
      `used`, or `None` when the oracle runs out first. */
  function Fresh(s: Scheme, name: string, used: set<string>, oracle: seq<nat>): (r: Option<(string, seq<nat>)>)
    requires Draws(s) >= 1
    ensures r.Some? ==> r.value.0 !in used && |r.value.1| < |oracle|
    ensures r.Some? ==> exists ds :: |ds| == Draws(s) && r.value.0 == NameFrom(s, name, ds)
    decreases |oracle|
  {
    match Attempt(s, name, oracle)
    case None => None
    case Some((n, rest)) =>
      if n in used then Fresh(s, name, used, rest)
      else
        assert oracle[..Draws(s)] == oracle[..Draws(s)];
        Some((n, rest))
  }

  /** What the callback returns for one declaration, with the fresh name it drew
      (`None` when the declaration is kept), the names handed out so far and the unused
      part of the oracle. */
  datatype Outcome = Outcome(rep: string, drawn: Option<string>, used: set<string>, rest: seq<nat>)

  /** The callback for one declaration; `None` when the oracle runs out. */
  function Step(s: Scheme, d: Decl, used: set<string>, oracle: seq<nat>): (r: Option<Outcome>)
    requires Draws(s) >= 1
    ensures r.Some? ==> (r.value.drawn.None? <==> |d.name| < 3)
    ensures r.Some? ==> r.value.rep == if r.value.drawn.Some? then d.keyword + " " + r.value.drawn.value else d.m
    ensures r.Some? && r.value.drawn.None? ==> r.value.used == used
    ensures r.Some? && r.value.drawn.Some? ==> r.value.drawn.value !in used && r.value.used == used + {r.value.drawn.value}
  {
    if |d.name| < 3 then Some(Outcome(d.m, None, used, oracle))
    else
      match Fresh(s, d.name, used, oracle)
      case None => None
      case Some((n, rest)) => Some(Outcome(d.keyword + " " + n, Some(n), used + {n}, rest))
  }

  /** The outcome of renaming a sequence of declarations: one replacement per
      declaration, the fresh name it received (`None` when it was kept), the names
      handed out so far and the unused part of the oracle. */
  datatype Renaming = Renaming(reps: seq<string>, names: seq<Option<string>>, used: set<string>, rest: seq<nat>)

  /** The callback applied to each declaration in turn; `None` when the oracle runs out. */
  function Renames(s: Scheme, ds: seq<Decl>, used: set<string>, oracle: seq<nat>): (r: Option<Renaming>)
    requires Draws(s) >= 1
    ensures r.Some? ==> |r.value.reps| == |ds| && |r.value.names| == |ds| && used <= r.value.used
    decreases |ds|
  {
    if ds == [] then Some(Renaming([], [], used, oracle))
    else
      match Step(s, ds[0], used, oracle)
      case None => None
      case Some(o) =>
        match Renames(s, ds[1..], o.used, o.rest)
        case None => None
        case Some(t) => Some(Renaming([o.rep] + t.reps, [o.drawn] + t.names, t.used, t.rest))
  }

  /** One step of a renaming that succeeds: the first declaration's outcome, then the
      renaming of the rest from the names and draws it left. */
  lemma RenamesFirst(s: Scheme, ds: seq<Decl>, used: set<string>, oracle: seq<nat>)
    requires Draws(s) >= 1 && ds != [] && Renames(s, ds, used, oracle).Some?
    ensures Step(s, ds[0], used, oracle).Some?
    ensures var o := Step(s, ds[0], used, oracle).value;
      var r := Renames(s, ds, used, oracle).value;
      && Renames(s, ds[1..], o.used, o.rest).Some?
      && r.reps == [o.rep] + Renames(s, ds[1..], o.used, o.rest).value.reps
      && r.names == [o.drawn] + Renames(s, ds[1..], o.used, o.rest).value.names
      && r.used == Renames(s, ds[1..], o.used, o.rest).value.used
  {
  }

  /** What each declaration becomes: it keeps its match exactly when its name is shorter
      than three characters, and otherwise becomes the keyword, a space and a name that
      was not in use before the call and is in use after it. */
  lemma {:induction false} RenamesEntries(s: Scheme, ds: seq<Decl>, used: set<string>, oracle: seq<nat>, i: nat)
    requires Draws(s) >= 1
    requires Renames(s, ds, used, oracle).Some? && i < |ds|
    ensures var r := Renames(s, ds, used, oracle).value;
      && (r.names[i].None? <==> |ds[i].name| < 3)
      && r.reps[i] == (if r.names[i].Some? then ds[i].keyword + " " + r.names[i].value else ds[i].m)
      && (r.names[i].Some? ==> r.names[i].value !in used && r.names[i].value in r.used)
    decreases |ds|
  {
    RenamesFirst(s, ds, used, oracle);
    var o := Step(s, ds[0], used, oracle).value;
    if i > 0 {
      RenamesEntries(s, ds[1..], o.used, o.rest, i - 1);
      assert ds[i] == ds[1..][i - 1];
    }
  }

  /** `mangleIdentifiers(code, level)` with the random numbers taken from `oracle`;
      `None` when the oracle runs out. */
  function Mangled(code: string, level: string, oracle: seq<nat>): Option<string> {
    var ps := Scan(Declaration, None, code);
    ScanGrouped(Declaration, None, code);
    match Renames(LevelScheme(level), DeclsOf(ps), {}, oracle)
    case None => None
    case Some(t) => Some(Fill(ps, t.reps))
  }

  /** Each name in `ns` is absent from `used` and from the names before it. */
  ghost predicate Unused(used: set<string>, ns: seq<Option<string>>)
    decreases |ns|
  {
    ns == [] ||
    ((ns[0].Some? ==> ns[0].value !in used)
     && Unused(if ns[0].Some? then used + {ns[0].value} else used, ns[1..]))
  }

  /** The new names are pairwise distinct: no two declarations receive the same name. */
  lemma RenamesDistinct(s: Scheme, ds: seq<Decl>, used: set<string>, oracle: seq<nat>, r: Renaming, i: nat, j: nat)
    requires Draws(s) >= 1 && Renames(s, ds, used, oracle) == Some(r)
    requires i < j < |r.names| && r.names[i].Some? && r.names[j].Some?
    ensures r.names[i].value != r.names[j].value
  {
    RenamesUnused(s, ds, used, oracle, r);
    UnusedDistinct(used, r.names, i, j);
  }

  /** Every name a renaming draws was not in use when it was drawn. */
  lemma {:induction false} RenamesUnused(s: Scheme, ds: seq<Decl>, used: set<string>, oracle: seq<nat>, r: Renaming)
    requires Draws(s) >= 1 && Renames(s, ds, used, oracle) == Some(r)
    ensures Unused(used, r.names)
    decreases |ds|
  {
    if ds != [] {
      var o, t := RenamesSplit(s, ds, used, oracle, r);
      RenamesUnused(s, ds[1..], o.used, o.rest, t);
      assert r.names[1..] == t.names;
    }
  }

  /** A renaming that succeeds, split into the first declaration's outcome and the
      renaming of the rest. */
  lemma RenamesSplit(s: Scheme, ds: seq<Decl>, used: set<string>, oracle: seq<nat>, r: Renaming)
    returns (o: Outcome, t: Renaming)
    requires Draws(s) >= 1 && ds != [] && Renames(s, ds, used, oracle) == Some(r)
    ensures Step(s, ds[0], used, oracle) == Some(o)
    ensures Renames(s, ds[1..], o.used, o.rest) == Some(t)
    ensures r.names == [o.drawn] + t.names && |t.names| == |ds| - 1
  {
    RenamesFirst(s, ds, used, oracle);
    o := Step(s, ds[0], used, oracle).value;
    t := Renames(s, ds[1..], o.used, o.rest).value;
  }

  /** Names that are each unused when drawn are pairwise distinct. */
  lemma {:induction false} UnusedDistinct(used: set<string>, ns: seq<Option<string>>, i: nat, j: nat)
    requires Unused(used, ns)
    requires i < j < |ns| && ns[i].Some? && ns[j].Some?
    ensures ns[i].value != ns[j].value
    decreases |ns|
  {
    var used' := if ns[0].Some? then used + {ns[0].value} else used;
    if i == 0 {
      UnusedAbsent(used', ns[1..], j - 1);
    } else {
      UnusedDistinct(used', ns[1..], i - 1, j - 1);
    }
  }

  /** A name in `ns` is not in the set `ns` starts from. */
  lemma {:induction false} UnusedAbsent(used: set<string>, ns: seq<Option<string>>, k: nat)
    requires Unused(used, ns) && k < |ns| && ns[k].Some?
    ensures ns[k].value !in used
    decreases |ns|
  {
    if k > 0 {
      UnusedAbsent(if ns[0].Some? then used + {ns[0].value} else used, ns[1..], k - 1);
    }
  }

  /** Each declaration carries its own match. */
  lemma {:induction false} DeclsMatches(ps: seq<Piece>)
    requires Grouped(ps, 2)
    ensures forall i :: 0 <= i < |DeclsOf(ps)| ==> DeclsOf(ps)[i].m == Matches(ps)[i]
    decreases |ps|
  {
    if ps != [] {
      GroupedTail(ps, 2);
      DeclsMatches(ps[1..]);
    }
  }

  /** Declarations with short names only: the callback keeps every match and draws
      nothing. */
  lemma {:induction false} ShortRenames(s: Scheme, ds: seq<Decl>, used: set<string>, oracle: seq<nat>)
    requires Draws(s) >= 1
    requires forall i :: 0 <= i < |ds| ==> |ds[i].name| < 3
    ensures Renames(s, ds, used, oracle).Some?
    ensures forall i :: 0 <= i < |ds| ==> Renames(s, ds, used, oracle).value.reps[i] == ds[i].m
    decreases |ds|
  {
    if ds != [] {
      ShortRenames(s, ds[1..], used, oracle);
      var t := Renames(s, ds[1..], used, oracle).value;
      assert Renames(s, ds, used, oracle).value.reps == [ds[0].m] + t.reps;
    }
  }

  /** Code whose declarations all have names shorter than three characters comes back
      unchanged, whatever the random numbers. */
  lemma ShortNamesUnchanged(code: string, level: string, oracle: seq<nat>)
    requires forall i :: 0 <= i < |Declarations(code)| ==> |Declarations(code)[i].name| < 3
    ensures Mangled(code, level, oracle) == Some(code)
  {
    var ps := Scan(Declaration, None, code);
    ScanGrouped(Declaration, None, code);
    var ds := DeclsOf(ps);
    assert ds == Declarations(code);
    ShortRenames(LevelScheme(level), ds, {}, oracle);
    DeclsMatches(ps);
    var reps := Renames(LevelScheme(level), ds, {}, oracle).value.reps;
    assert reps == Matches(ps);
    FillMatches(ps);
    FlattenScan(Declaration, None, code);
  }

  /** At the level `low` there are only a hundred candidates per first character: once
      all of them are in use the `do ... while` never ends, whatever the random numbers
      (`None` for every oracle). */
  lemma {:induction false} LowLevelExhausted(name: string, used: set<string>, oracle: seq<nat>)
    requires InitialNames(name) <= used
    ensures Fresh(Initial, name, used, oracle).None?
    decreases |oracle|
  {
    match Attempt(Initial, name, oracle)
    case None =>
    case Some((n, rest)) =>
      assert n == "_" + CharAt0(name) + Decimal(oracle[0] % 100);
      assert IsInitialName(name, n);
      LowLevelExhausted(name, used, rest);
  }

  /** Every fresh name has the shape of its level: `_`, the first character and a number
      below 100 at `low`; `_0x` and six hexadecimal digits at `medium`; `_0x` and eight
      hexadecimal digits otherwise. */
  lemma FreshShape(level: string, name: string, used: set<string>, oracle: seq<nat>)
    requires Fresh(LevelScheme(level), name, used, oracle).Some?
    ensures var n := Fresh(LevelScheme(level), name, used, oracle).value.0;
      && (level == "low" ==> IsInitialName(name, n))
      && (level == "medium" ==> IsHexName(n, 6))
      && (level != "low" && level != "medium" ==> IsHexName(n, 8))
  {
    var s := LevelScheme(level);
    var ds :| |ds| == Draws(s) && Fresh(s, name, used, oracle).value.0 == NameFrom(s, name, ds);
    NameShape(s, name, ds);
  }

  // ---------------------------------------------------------------------------
  // The imperative replace

  /** The declarations from piece `i` on: the one at `i`, if any, then the rest. */
  lemma DeclsStep(ps: seq<Piece>, i: nat)
    requires i < |ps| && Grouped(ps[i..], 2)
    ensures Grouped(ps[i + 1..], 2)
    ensures ps[i].Plain? ==> DeclsOf(ps[i..]) == DeclsOf(ps[i + 1..])
    ensures ps[i].Found? ==>
      DeclsOf(ps[i..]) == [Decl(ps[i].text, ps[i].groups[0], ps[i].groups[1])] + DeclsOf(ps[i + 1..])
  {
    assert ps[i..][1..] == ps[i + 1..];
    GroupedTail(ps[i..], 2);
  }

  /** Renaming a nonempty sequence is one step and the renaming of the rest. */
  lemma RenamesCons(s: Scheme, d: Decl, ds: seq<Decl>, used: set<string>, oracle: seq<nat>)
    requires Draws(s) >= 1
    ensures Step(s, d, used, oracle).None? ==> Renames(s, [d] + ds, used, oracle).None?
    ensures Step(s, d, used, oracle).Some? ==>
      var o := Step(s, d, used, oracle).value;
      && (Renames(s, [d] + ds, used, oracle).None? <==> Renames(s, ds, o.used, o.rest).None?)
      && (Renames(s, ds, o.used, o.rest).Some? ==>
            Renames(s, [d] + ds, used, oracle).value.reps == [o.rep] + Renames(s, ds, o.used, o.rest).value.reps)
  {
    assert ([d] + ds)[0] == d && ([d] + ds)[1..] == ds;
  }

  /** The renaming of the whole code is the replacements made so far followed by the
      renaming still to come. */
  ghost predicate Pending(all: Option<Renaming>, done: seq<string>, todo: Option<Renaming>) {
    && (all.None? <==> todo.None?)
    && (all.Some? ==> all.value.reps == done + todo.value.reps)
  }

  /** One renamed declaration moves from the renaming to come to the replacements made. */
  lemma PendingStep(s: Scheme, d: Decl, ds: seq<Decl>, used: set<string>, oracle: seq<nat>,
                    all: Option<Renaming>, done: seq<string>)
    requires Draws(s) >= 1 && Step(s, d, used, oracle).Some?
    requires Pending(all, done, Renames(s, [d] + ds, used, oracle))
    ensures var o := Step(s, d, used, oracle).value;
      Pending(all, done + [o.rep], Renames(s, ds, o.used, o.rest))
  {
    RenamesCons(s, d, ds, used, oracle);
    var o := Step(s, d, used, oracle).value;
    var tail := Renames(s, ds, o.used, o.rest);
    if all.Some? {
      Regroup(done, [o.rep], tail.value.reps);
    }
  }

  /** `mangleIdentifiers(code, level)`: the replace with the `usedNames` set threaded
      through the callback. */
  method MangleIdentifiers(code: string, level: string, oracle: seq<nat>) returns (r: Option<string>)
    ensures r == Mangled(code, level, oracle)
  {
    ghost var s := LevelScheme(level);
    var ps := Scan(Declaration, None, code);
    ScanGrouped(Declaration, None, code);
    ghost var all := Renames(s, DeclsOf(ps), {}, oracle);
    var usedNames: set<string> := {};
    var rest := oracle;
    var text := "";
    ghost var done: seq<string> := [];
    var i := 0;
    assert ps[0..] == ps;
    while i < |ps|
      invariant 0 <= i <= |ps| && Grouped(ps[i..], 2) && Grouped(ps[..i], 2)
      invariant |done| == |Matches(ps[..i])| && text == Fill(ps[..i], done)
      invariant Pending(all, done, Renames(s, DeclsOf(ps[i..]), usedNames, rest))
    {
      DeclsStep(ps, i);
      GroupedPrefix(ps, i + 1, 2);
      match ps[i] {
        case Plain(c) =>
          FillStep(ps, i, done, "");
          text := text + [c];
        case Found(m, g) =>
          var o := MangleOne(m, g[0], g[1], level, usedNames, rest);
          MangleFoundStep(s, ps, i, done, text, usedNames, rest, all, o);
          if o.None? {
            return None;
          }
          usedNames, rest := o.value.used, o.value.rest;
          done := done + [o.value.rep];
          text := text + o.value.rep;
      }
      i := i + 1;
    }
    assert ps[..i] == ps && ps[i..] == [];
    assert all.Some? && all.value.reps == done + [];
    assert done + [] == done;
    r := Some(text);
  }

  /** A declaration in the loop: no renaming at all when its draws run out, otherwise
      its replacement joins those made so far. */
  lemma MangleFoundStep(s: Scheme, ps: seq<Piece>, i: nat, done: seq<string>, text: string,
                        used: set<string>, rest: seq<nat>, all: Option<Renaming>, o: Option<Outcome>)
    requires Draws(s) >= 1
    requires i < |ps| && ps[i].Found? && |ps[i].groups| == 2 && Grouped(ps[i..], 2)
    requires |done| == |Matches(ps[..i])| && text == Fill(ps[..i], done)
    requires Pending(all, done, Renames(s, DeclsOf(ps[i..]), used, rest))
    requires o == Step(s, Decl(ps[i].text, ps[i].groups[0], ps[i].groups[1]), used, rest)
    ensures Grouped(ps[i + 1..], 2)
    ensures o.None? ==> all.None?
    ensures o.Some? ==>
      && |done + [o.value.rep]| == |Matches(ps[..i + 1])|
      && text + o.value.rep == Fill(ps[..i + 1], done + [o.value.rep])
      && Pending(all, done + [o.value.rep], Renames(s, DeclsOf(ps[i + 1..]), o.value.used, o.value.rest))
  {
    DeclsStep(ps, i);
    var d := Decl(ps[i].text, ps[i].groups[0], ps[i].groups[1]);
    RenamesCons(s, d, DeclsOf(ps[i + 1..]), used, rest);
    if o.Some? {
      PendingStep(s, d, DeclsOf(ps[i + 1..]), used, rest, all, done);
      FillStep(ps, i, done, o.value.rep);
    }
  }

  lemma Regroup(a: seq<string>, b: seq<string>, c: seq<string>)
    ensures a + (b + c) == a + b + c
  {
  }

  /** The callback for one declaration: the match when the name is short, otherwise the
      keyword, a space and a name drawn until unused, then added to `usedNames`. */
  method MangleOne(m: string, decl: string, name: string, level: string, usedNames: set<string>, oracle: seq<nat>)
    returns (r: Option<Outcome>)
    ensures r == Step(LevelScheme(level), Decl(m, decl, name), usedNames, oracle)
  {
    if |name| < 3 {
      return Some(Outcome(m, None, usedNames, oracle));
    }
    var found := FreshName(name, level, usedNames, oracle);
    if found.None? {
      return None;
    }
    var (newName, rest) := found.value;
    r := Some(Outcome(decl + " " + newName, Some(newName), usedNames + {newName}, rest));
  }

  /** The `do ... while (usedNames.has(newName))` loop. */
  method FreshName(name: string, level: string, usedNames: set<string>, oracle: seq<nat>)
    returns (r: Option<(string, seq<nat>)>)
    ensures r == Fresh(LevelScheme(level), name, usedNames, oracle)
  {
    var rest := oracle;
    while true
      invariant Fresh(LevelScheme(level), name, usedNames, rest) == Fresh(LevelScheme(level), name, usedNames, oracle)
      decreases |rest|
    {
      var candidate := DrawName(LevelScheme(level), name, rest);
      if candidate.None? {
        return None;
      }
      var (newName, next) := candidate.value;
      if newName !in usedNames {
        return candidate;
      }
      rest := next;
    }
  }

  /** One name drawn for the scheme `s`: `_`, the first character and a number below
      100; `_0x` and six hexadecimal digits; or `_0x` and one hexadecimal digit per draw
      (`Array.from({length: n}, ...).join('')`). */
  method DrawName(s: Scheme, name: string, oracle: seq<nat>) returns (r: Option<(string, seq<nat>)>)
    ensures r == Attempt(s, name, oracle)
  {
    if |oracle| < Draws(s) {
      return None;
    }
    match s {
      case Initial =>
        r := Some(("_" + CharAt0(name) + Decimal(oracle[0] % 100), oracle[1..]));
      case SixHex =>
        r := Some(("_0x" + HexDigits(oracle[0], 6), oracle[1..]));
      case HexRun(n) =>
        var digits := "";
        var k := 0;
        while k < n
          invariant 0 <= k <= n && digits == HexRunText(oracle[..k])
        {
          assert oracle[..k + 1][..k] == oracle[..k];
          digits := digits + [HexChar(oracle[k] % 16)];
          k := k + 1;
        }
        r := Some(("_0x" + digits, oracle[n..]));
    }
  }
}

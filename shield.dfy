/** `preserveTokens` and `restoreTokens` of obfuscator.js: comments, and then string
    literals, are swapped for numbered placeholder comments, and the placeholders are
    later swapped back (strings first, then comments). */
module TokenShield {
  import opened Results
  import opened Text
  import opened Lexer

  const CommentTag := "COMMENT"
  const StringTag := "STRING"

  /** The placeholder that stands for entry `n` of a table. */
  function PlaceholderText(tag: string, n: nat): string {
    PlaceholderHead(tag) + Decimal(n) + "*/"
  }

  /** The placeholders `k`, `k + 1`, ..., `k + m - 1`. */
  function Numbered(tag: string, k: nat, m: nat): (r: seq<string>)
    ensures |r| == m && forall j :: 0 <= j < m ==> r[j] == PlaceholderText(tag, k + j)
    decreases m
  {
    if m == 0 then [] else [PlaceholderText(tag, k)] + Numbered(tag, k + 1, m - 1)
  }

  /** The text after one shielding replace, and the table the callback filled. */
  datatype Shielding = Shielding(text: string, table: seq<string>)

  /** One shielding replace: the n-th match of `p` becomes placeholder n and is pushed
      as entry n of the table. */
  function ShieldWith(p: Pattern, tag: string, code: string): Shielding {
    var ps := Scan(p, None, code);
    Shielding(Fill(ps, Numbered(tag, 0, |Matches(ps)|)), Matches(ps))
  }

  /** The object `preserveTokens` returns; without `preserveFlow` it has no `code`. */
  datatype Preserved = Preserved(code: Option<string>, comments: seq<string>, strings: seq<string>)

  function Preserve(code: string, preserveFlow: bool): Preserved {
    if !preserveFlow then Preserved(None, [], [])
    else
      var c := ShieldWith(Comment, CommentTag, code);
      var s := ShieldWith(StringLiteral, StringTag, c.text);
      Preserved(Some(s.text), c.table, s.table)
  }


  /** The replace with a callback that pushes each match and returns the placeholder
      for the new table length minus one. */
  method Shield(p: Pattern, tag: string, code: string) returns (text: string, table: seq<string>)
    ensures Shielding(text, table) == ShieldWith(p, tag, code)
  {
    var ps := Scan(p, None, code);
    text, table := ShieldPieces(tag, ps);
  }

  /** The callback run on the pieces of the search, left to right. */
  method ShieldPieces(tag: string, ps: seq<Piece>) returns (text: string, table: seq<string>)
    ensures table == Matches(ps) && text == Fill(ps, Numbered(tag, 0, |table|))
  {
    text, table := "", [];
    var i := 0;
    while i < |ps|
      invariant 0 <= i <= |ps|
      invariant table == Matches(ps[..i])
      invariant text == Fill(ps[..i], Numbered(tag, 0, |table|))
    {
      ShieldStep(tag, ps, i, text, table);
      match ps[i] {
        case Plain(c) =>
          text := text + [c];
        case Found(m, _) =>
          text := text + PlaceholderText(tag, |table|);
          table := table + [m];
      }
      i := i + 1;
    }
    assert ps[..i] == ps;
  }

  /** One piece more: a stepped-over character is kept, and a match adds itself to the
      table and its placeholder to the text. */
  lemma ShieldStep(tag: string, ps: seq<Piece>, i: nat, text: string, table: seq<string>)
    requires i < |ps| && table == Matches(ps[..i])
    requires text == Fill(ps[..i], Numbered(tag, 0, |table|))
    ensures ps[i].Plain? ==>
      && table == Matches(ps[..i + 1])
      && text + [ps[i].c] == Fill(ps[..i + 1], Numbered(tag, 0, |table|))
    ensures ps[i].Found? ==>
      && table + [ps[i].text] == Matches(ps[..i + 1])
      && text + PlaceholderText(tag, |table|) == Fill(ps[..i + 1], Numbered(tag, 0, |table| + 1))
  {
    MatchesStep(ps, i);
    NumberedSnoc(tag, 0, |table|);
    FillStep(ps, i, Numbered(tag, 0, |table|), PlaceholderText(tag, |table|));
  }

  /** One placeholder more is the next number at the end. */
  lemma {:induction false} NumberedSnoc(tag: string, k: nat, n: nat)
    ensures Numbered(tag, k, n + 1) == Numbered(tag, k, n) + [PlaceholderText(tag, k + n)]
    decreases n
  {
    if n > 0 {
      NumberedSnoc(tag, k + 1, n - 1);
    }
  }

  /** `preserveTokens(code, preserveFlow)`. */
  method PreserveTokens(code: string, preserveFlow: bool) returns (r: Preserved)
    ensures r == Preserve(code, preserveFlow)
  {
    if !preserveFlow {
      return Preserved(None, [], []);
    }
    var c, comments := Shield(Comment, CommentTag, code);
    var s, strings := Shield(StringLiteral, StringTag, c);
    r := Preserved(Some(s), comments, strings);
  }

  /** Every match of a placeholder pattern carries one group of digits. */
  predicate Indexed(ps: seq<Piece>) {
    forall j :: 0 <= j < |ps| && ps[j].Found? ==> |ps[j].groups| == 1 && AllDigits(ps[j].groups[0])
  }

  lemma {:induction false} ScanIndexed(tag: string, prev: Option<char>, t: string)
    ensures Indexed(Scan(Placeholder(tag), prev, t))
    decreases |t|
  {
    if t != [] {
      ScanStep(Placeholder(tag), prev, t);
      match PlaceholderAt(tag, t)
      case None => ScanIndexed(tag, Some(t[0]), t[1..]);
      case Some(h) => ScanIndexed(tag, Some(t[h.len - 1]), t[h.len..]);
    }
  }

  /** `table[parseInt(index)] || fallback`: an index past the end and an empty entry
      both give the fallback. */
  function Lookup(table: seq<string>, index: string, fallback: string): string
    requires AllDigits(index)
  {
    var n := DigitsValue(index);
    if n < |table| && table[n] != "" then table[n] else fallback
  }

  /** What the restoring callback returns for each match, in order. */
  function RestoreReps(ps: seq<Piece>, table: seq<string>, fallback: string): (r: seq<string>)
    requires Indexed(ps)
    ensures |r| == |Matches(ps)|
  {
    if ps == [] then []
    else
      assert Indexed(ps[1..]) by {
        forall j | 0 <= j < |ps[1..]| && ps[1..][j].Found?
          ensures |ps[1..][j].groups| == 1 && AllDigits(ps[1..][j].groups[0])
        {
          assert ps[1..][j] == ps[j + 1];
        }
      }
      match ps[0]
      case Plain(_) => RestoreReps(ps[1..], table, fallback)
      case Found(_, g) => [Lookup(table, g[0], fallback)] + RestoreReps(ps[1..], table, fallback)
  }

  /** One restoring replace: every placeholder of `tag` becomes its table entry. */
  function RestorePass(tag: string, code: string, table: seq<string>, fallback: string): string {
    var ps := Scan(Placeholder(tag), None, code);
    ScanIndexed(tag, None, code);
    Fill(ps, RestoreReps(ps, table, fallback))
  }

  /** `restoreTokens(code, { comments, strings })`: a string placeholder without an
      entry becomes `""`, a comment placeholder without one becomes nothing. */
  function RestoreTokens(code: string, comments: seq<string>, strings: seq<string>): string {
    RestorePass(CommentTag, RestorePass(StringTag, code, strings, "\"\""), comments, "")
  }

  // ---------------------------------------------------------------------------
  // Round trip

  predicate SlashLed(reps: seq<string>) {
    forall j :: 0 <= j < |reps| ==> reps[j] != [] && reps[j][0] == '/'
  }

  lemma NumberedSlashLed(tag: string, k: nat, m: nat)
    ensures SlashLed(Numbered(tag, k, m))
  {
    forall j | 0 <= j < m
      ensures Numbered(tag, k, m)[j] != [] && Numbered(tag, k, m)[j][0] == '/'
    {
      PlaceholderSlash(tag, k + j);
    }
  }

  /** Every placeholder starts with a slash. */
  lemma PlaceholderSlash(tag: string, n: nat)
    ensures PlaceholderText(tag, n) != [] && PlaceholderText(tag, n)[0] == '/'
  {
    assert PlaceholderText(tag, n) == "/" + ("*" + tag + "_" + Decimal(n) + "*/");
  }

  /** When every replacement starts with a slash, a slash-free prefix of the filled text
      is a prefix of the text itself. */
  lemma {:induction false} PrefixThroughFill(ps: seq<Piece>, reps: seq<string>, u: string)
    requires |reps| == |Matches(ps)| && SlashLed(reps)
    requires '/' !in u
    ensures StartsWith(Fill(ps, reps), u) ==> StartsWith(Flatten(ps), u)
    decreases |u|
  {
    if u != [] && ps != [] {
      if ps[0].Plain? {
        var c := ps[0].c;
        assert Matches(ps) == Matches(ps[1..]);
        assert Fill(ps, reps) == [c] + Fill(ps[1..], reps);
        assert Flatten(ps) == [c] + Flatten(ps[1..]);
        assert '/' !in u[1..];
        ConsStartsWith(c, Fill(ps[1..], reps), u);
        ConsStartsWith(c, Flatten(ps[1..]), u);
        PrefixThroughFill(ps[1..], reps, u[1..]);
      } else {
        assert Fill(ps, reps) == reps[0] + Fill(ps[1..], reps[1..]);
        assert Fill(ps, reps)[0] == '/';
        assert u[0] != '/';
      }
    }
  }

  lemma PlainNotPlaceholder(tag: string, ps: seq<Piece>, reps: seq<string>)
    requires '/' !in tag
    requires ps != [] && ps[0].Plain?
    requires |reps| == |Matches(ps)| && SlashLed(reps)
    requires !StartsWith(Flatten(ps), PlaceholderHead(tag))
    ensures PlaceholderAt(tag, Fill(ps, reps)).None?
  {
    PlainFillNoHead(tag, ps, reps);
    NoHeadNoPlaceholder(tag, Fill(ps, reps));
  }

  lemma NoHeadNoPlaceholder(tag: string, t: string)
    requires !StartsWith(t, PlaceholderHead(tag))
    ensures PlaceholderAt(tag, t).None?
  {
  }

  /** Filling cannot create a placeholder head after a stepped-over character. */
  lemma PlainFillNoHead(tag: string, ps: seq<Piece>, reps: seq<string>)
    requires '/' !in tag
    requires ps != [] && ps[0].Plain?
    requires |reps| == |Matches(ps)| && SlashLed(reps)
    requires !StartsWith(Flatten(ps), PlaceholderHead(tag))
    ensures !StartsWith(Fill(ps, reps), PlaceholderHead(tag))
  {
    var h := PlaceholderHead(tag);
    var c := ps[0].c;
    PlainCons(ps, reps);
    HeadAfterSlash(tag);
    ConsStartsWith(c, Fill(ps[1..], reps), h);
    ConsStartsWith(c, Flatten(ps[1..]), h);
    PrefixThroughFill(ps[1..], reps, h[1..]);
  }

  /** A stepped-over character comes first in both the filled and the flat text. */
  lemma PlainCons(ps: seq<Piece>, reps: seq<string>)
    requires ps != [] && ps[0].Plain? && |reps| == |Matches(ps)|
    ensures |reps| == |Matches(ps[1..])|
    ensures Fill(ps, reps) == [ps[0].c] + Fill(ps[1..], reps)
    ensures Flatten(ps) == [ps[0].c] + Flatten(ps[1..])
  {
    assert Matches(ps) == Matches(ps[1..]);
  }

  /** The head of a placeholder is a slash followed by slash-free text. */
  lemma HeadAfterSlash(tag: string)
    requires '/' !in tag
    ensures PlaceholderHead(tag) != [] && PlaceholderHead(tag)[0] == '/'
    ensures '/' !in PlaceholderHead(tag)[1..]
  {
    assert PlaceholderHead(tag) == "/" + ("*" + tag + "_");
  }

  lemma {:induction false} DigitRunBefore(d: string, rest: string)
    requires AllDigits(d) && rest != [] && !IsDigit(rest[0])
    ensures DigitRun(d + rest) == |d|
    decreases |d|
  {
    if d != [] {
      assert (d + rest)[1..] == d[1..] + rest;
      DigitRunBefore(d[1..], rest);
    }
  }

  /** A placeholder is matched whole, its group being the numeral. */
  lemma PlaceholderMatch(tag: string, n: nat, rest: string)
    ensures PlaceholderAt(tag, PlaceholderText(tag, n) + rest)
         == Some(Hit(|PlaceholderText(tag, n)|, [Decimal(n)]))
  {
    var h := PlaceholderHead(tag);
    var d := Decimal(n);
    var t := PlaceholderText(tag, n) + rest;
    assert t == h + (d + ("*/" + rest));
    ThreeParts(h, d, "*/" + rest);
    DigitRunBefore(d, "*/" + rest);
    PlaceholderAtOf(tag, t, |d|);
  }

  /** A placeholder match at the front of `t`, given where its digits end. */
  lemma PlaceholderAtOf(tag: string, t: string, e: nat)
    requires var h := PlaceholderHead(tag);
      && |h| + e + 2 <= |t| && t[..|h|] == h && e > 0 && DigitRun(t[|h|..]) == e
      && t[|h| + e] == '*' && t[|h| + e + 1] == '/'
    ensures var h := PlaceholderHead(tag);
      PlaceholderAt(tag, t) == Some(Hit(|h| + e + 2, [t[|h|..|h| + e]]))
  {
  }

  /** Where the three parts of `h + (d + r)` sit. */
  lemma ThreeParts(h: string, d: string, r: string)
    requires |r| >= 2
    ensures var t := h + (d + r);
      && t[..|h|] == h && t[|h|..] == d + r && t[|h|..|h| + |d|] == d
      && t[|h| + |d|] == r[0] && t[|h| + |d| + 1] == r[1]
  {
    var t := h + (d + r);
    assert t[..|h|] == h;
    assert t[|h|..] == d + r;
    assert t[|h|..|h| + |d|] == d;
  }

  /** The pieces a placeholder search finds in a shielded text: the stepped-over
      characters, and placeholder `k`, `k + 1`, ... where the matches were. */
  function Relabel(tag: string, ps: seq<Piece>, k: nat): (r: seq<Piece>)
    ensures |r| == |ps|
  {
    if ps == [] then []
    else
      match ps[0]
      case Plain(c) => [Plain(c)] + Relabel(tag, ps[1..], k)
      case Found(_, _) => [Found(PlaceholderText(tag, k), [Decimal(k)])] + Relabel(tag, ps[1..], k + 1)
  }

  lemma {:induction false} RelabelFill(tag: string, ps: seq<Piece>, k: nat, reps: seq<string>)
    requires |reps| == |Matches(ps)|
    ensures Matches(Relabel(tag, ps, k)) == Numbered(tag, k, |Matches(ps)|)
    ensures Fill(Relabel(tag, ps, k), reps) == Fill(ps, reps)
    decreases |ps|
  {
    if ps != [] {
      var r := Relabel(tag, ps, k);
      match ps[0]
      case Plain(c) =>
        assert r[1..] == Relabel(tag, ps[1..], k);
        assert Matches(ps) == Matches(ps[1..]);
        RelabelFill(tag, ps[1..], k, reps);
      case Found(x, _) =>
        assert r[1..] == Relabel(tag, ps[1..], k + 1);
        assert Matches(ps) == [x] + Matches(ps[1..]);
        RelabelFill(tag, ps[1..], k + 1, reps[1..]);
        var m := |Matches(ps)|;
        assert Numbered(tag, k, m) == [PlaceholderText(tag, k)] + Numbered(tag, k + 1, m - 1);
    }
  }

  lemma {:induction false} RelabelIndexed(tag: string, ps: seq<Piece>, k: nat)
    ensures Indexed(Relabel(tag, ps, k))
    decreases |ps|
  {
    if ps != [] {
      var r := Relabel(tag, ps, k);
      var k' := if ps[0].Plain? then k else k + 1;
      assert r[1..] == Relabel(tag, ps[1..], k');
      RelabelIndexed(tag, ps[1..], k');
      forall j | 0 <= j < |r| && r[j].Found?
        ensures |r[j].groups| == 1 && AllDigits(r[j].groups[0])
      {
        if j > 0 {
          assert r[j] == r[1..][j - 1];
        }
      }
    }
  }

  lemma {:induction false} ScanMatchesNonEmpty(p: Pattern, prev: Option<char>, t: string)
    ensures forall j :: 0 <= j < |Matches(Scan(p, prev, t))| ==> Matches(Scan(p, prev, t))[j] != ""
    decreases |t|
  {
    if t != [] {
      ScanStep(p, prev, t);
      var ps := Scan(p, prev, t);
      match MatchAt(p, prev, t)
      case None =>
        assert ps[1..] == Scan(p, Some(t[0]), t[1..]);
        assert Matches(ps) == Matches(ps[1..]);
        ScanMatchesNonEmpty(p, Some(t[0]), t[1..]);
      case Some(h) =>
        assert ps[1..] == Scan(p, Some(t[h.len - 1]), t[h.len..]);
        assert Matches(ps) == [t[..h.len]] + Matches(ps[1..]);
        ScanMatchesNonEmpty(p, Some(t[h.len - 1]), t[h.len..]);
    }
  }

  lemma {:induction false} RestoreRelabel(tag: string, ps: seq<Piece>, k: nat, table: seq<string>, fallback: string)
    requires k + |Matches(ps)| <= |table|
    requires forall j :: 0 <= j < |table| ==> table[j] != ""
    ensures Indexed(Relabel(tag, ps, k))
    ensures RestoreReps(Relabel(tag, ps, k), table, fallback) == table[k..k + |Matches(ps)|]
    decreases |ps|
  {
    RelabelIndexed(tag, ps, k);
    if ps != [] {
      var m' := |Matches(ps[1..])|;
      match ps[0]
      case Plain(_) =>
        assert Matches(ps) == Matches(ps[1..]);
        RestoreRelabel(tag, ps[1..], k, table, fallback);
        RelabelIndexed(tag, ps[1..], k);
        RestoreRelabelPlain(tag, ps, k, table, fallback, m');
      case Found(x, _) =>
        assert Matches(ps) == [x] + Matches(ps[1..]);
        RestoreRelabel(tag, ps[1..], k + 1, table, fallback);
        RelabelIndexed(tag, ps[1..], k + 1);
        RestoreRelabelFound(tag, ps, k, table, fallback, m');
    }
  }

  /** A plain piece of `RestoreRelabel`, given the rest. */
  lemma RestoreRelabelPlain(tag: string, ps: seq<Piece>, k: nat, table: seq<string>, fallback: string, m: nat)
    requires ps != [] && ps[0].Plain? && k + m <= |table|
    requires Indexed(Relabel(tag, ps, k)) && Indexed(Relabel(tag, ps[1..], k))
    requires RestoreReps(Relabel(tag, ps[1..], k), table, fallback) == table[k..k + m]
    ensures RestoreReps(Relabel(tag, ps, k), table, fallback) == table[k..k + m]
  {
    var r := Relabel(tag, ps, k);
    RestoreRepsCons(r, table, fallback);
    assert r[1..] == Relabel(tag, ps[1..], k);
  }

  /** A placeholder of `RestoreRelabel`, given the rest. */
  lemma RestoreRelabelFound(tag: string, ps: seq<Piece>, k: nat, table: seq<string>, fallback: string, m: nat)
    requires ps != [] && ps[0].Found? && k + 1 + m <= |table| && table[k] != ""
    requires Indexed(Relabel(tag, ps, k)) && Indexed(Relabel(tag, ps[1..], k + 1))
    requires RestoreReps(Relabel(tag, ps[1..], k + 1), table, fallback) == table[k + 1..k + 1 + m]
    ensures RestoreReps(Relabel(tag, ps, k), table, fallback) == table[k..k + 1 + m]
  {
    var r := Relabel(tag, ps, k);
    assert r[0] == Found(PlaceholderText(tag, k), [Decimal(k)]);
    assert r[1..] == Relabel(tag, ps[1..], k + 1);
    RestoreFoundCons(r, table, fallback, k, m);
  }

  /** The restoring callback on a placeholder numbered `k` followed by pieces that
      restore the next `m` entries. */
  lemma RestoreFoundCons(r: seq<Piece>, table: seq<string>, fallback: string, k: nat, m: nat)
    requires Indexed(r) && r != [] && r[0].Found? && r[0].groups == [Decimal(k)]
    requires k + 1 + m <= |table| && table[k] != ""
    requires Indexed(r[1..]) && RestoreReps(r[1..], table, fallback) == table[k + 1..k + 1 + m]
    ensures RestoreReps(r, table, fallback) == table[k..k + 1 + m]
  {
    RestoreRepsCons(r, table, fallback);
    LookupDecimal(table, k, fallback);
    assert Lookup(table, r[0].groups[0], fallback) == table[k];
    TableSplit(table, k, 1 + m);
  }

  /** The placeholder numbered `k` restores entry `k` of the table. */
  lemma LookupDecimal(table: seq<string>, k: nat, fallback: string)
    requires k < |table| && table[k] != ""
    ensures Lookup(table, Decimal(k), fallback) == table[k]
  {
    DecimalValue(k);
  }

  /** One piece of the restoring callback's replacements. */
  lemma RestoreRepsCons(ps: seq<Piece>, table: seq<string>, fallback: string)
    requires Indexed(ps) && ps != []
    ensures Indexed(ps[1..])
    ensures ps[0].Plain? ==> RestoreReps(ps, table, fallback) == RestoreReps(ps[1..], table, fallback)
    ensures ps[0].Found? ==> RestoreReps(ps, table, fallback) == [Lookup(table, ps[0].groups[0], fallback)] + RestoreReps(ps[1..], table, fallback)
  {
    forall j | 0 <= j < |ps[1..]| && ps[1..][j].Found?
      ensures |ps[1..][j].groups| == 1 && AllDigits(ps[1..][j].groups[0])
    {
      assert ps[1..][j] == ps[j + 1];
    }
  }

  lemma TableSplit<T>(table: seq<T>, k: nat, m: nat)
    requires 0 < m && k + m <= |table|
    ensures table[k..k + m] == [table[k]] + table[k + 1..k + m]
  {
  }

  /** The placeholder search over a shielded text finds exactly the placeholders, in
      order, when the original text had no placeholder head of its own. */
  lemma {:induction false} Rescan(tag: string, ps: seq<Piece>, k: nat, prev: Option<char>)
    requires '/' !in tag
    requires !Contains(Flatten(ps), PlaceholderHead(tag))
    ensures Leftmost(Placeholder(tag), prev, Fill(ps, Numbered(tag, k, |Matches(ps)|)), Relabel(tag, ps, k))
    decreases |ps|
  {
    if ps != [] {
      var h := PlaceholderHead(tag);
      match ps[0]
      case Plain(c) =>
        assert Flatten(ps) == [c] + Flatten(ps[1..]);
        ContainsSuffix(Flatten(ps), 1, h);
        Rescan(tag, ps[1..], k, Some(c));
        RescanPlain(tag, ps, k, prev);
      case Found(x, _) =>
        var P := PlaceholderText(tag, k);
        assert Flatten(ps) == x + Flatten(ps[1..]);
        ContainsSuffix(Flatten(ps), |x|, h);
        Rescan(tag, ps[1..], k + 1, Some(P[|P| - 1]));
        RescanFound(tag, ps, k, prev);
    }
  }

  /** A match in front takes the first numbered placeholder; the rest take the next. */
  lemma FillNumberedFound(tag: string, x: string, g: seq<string>, rest: seq<Piece>, k: nat)
    ensures var ps := [Found(x, g)] + rest;
      |Matches(ps)| == 1 + |Matches(rest)|
      && Fill(ps, Numbered(tag, k, |Matches(ps)|))
         == PlaceholderText(tag, k) + Fill(rest, Numbered(tag, k + 1, |Matches(rest)|))
  {
    var ps := [Found(x, g)] + rest;
    assert ps[1..] == rest;
    var N := Numbered(tag, k, 1 + |Matches(rest)|);
    assert N[1..] == Numbered(tag, k + 1, |Matches(rest)|);
  }

  /** A stepped-over character is stepped over again in the shielded text. */
  lemma RescanPlain(tag: string, ps: seq<Piece>, k: nat, prev: Option<char>)
    requires '/' !in tag
    requires ps != [] && ps[0].Plain?
    requires !Contains(Flatten(ps), PlaceholderHead(tag))
    requires Leftmost(Placeholder(tag), Some(ps[0].c), Fill(ps[1..], Numbered(tag, k, |Matches(ps[1..])|)), Relabel(tag, ps[1..], k))
    ensures Leftmost(Placeholder(tag), prev, Fill(ps, Numbered(tag, k, |Matches(ps)|)), Relabel(tag, ps, k))
  {
    var c := ps[0].c;
    var m := |Matches(ps)|;
    var N := Numbered(tag, k, m);
    var t := Fill(ps, N);
    assert Matches(ps) == Matches(ps[1..]);
    assert t == [c] + Fill(ps[1..], N);
    assert t[1..] == Fill(ps[1..], N);
    NumberedSlashLed(tag, k, m);
    PlainNotPlaceholder(tag, ps, N);
    LeftmostPlainCons(Placeholder(tag), prev, t, Relabel(tag, ps[1..], k));
    assert Relabel(tag, ps, k) == [Plain(t[0])] + Relabel(tag, ps[1..], k);
  }

  /** A match is found again as its placeholder in the shielded text. */
  lemma RescanFound(tag: string, ps: seq<Piece>, k: nat, prev: Option<char>)
    requires ps != [] && ps[0].Found?
    requires var P := PlaceholderText(tag, k);
      Leftmost(Placeholder(tag), Some(P[|P| - 1]), Fill(ps[1..], Numbered(tag, k + 1, |Matches(ps[1..])|)), Relabel(tag, ps[1..], k + 1))
    ensures Leftmost(Placeholder(tag), prev, Fill(ps, Numbered(tag, k, |Matches(ps)|)), Relabel(tag, ps, k))
  {
    var P := PlaceholderText(tag, k);
    assert ps == [Found(ps[0].text, ps[0].groups)] + ps[1..];
    FillNumberedFound(tag, ps[0].text, ps[0].groups, ps[1..], k);
    var f := Fill(ps[1..], Numbered(tag, k + 1, |Matches(ps[1..])|));
    var t := Fill(ps, Numbered(tag, k, |Matches(ps)|));
    PlaceholderMatch(tag, k, f);
    assert t[..|P|] == P;
    assert t[|P|..] == f;
    var hit := Hit(|P|, [Decimal(k)]);
    LeftmostFoundCons(Placeholder(tag), prev, t, hit, Relabel(tag, ps[1..], k + 1));
  }

  /** Restoring what one shielding replace produced, with the table it filled, gives
      the text back, when the text holds no placeholder head of that tag. */
  lemma RestoreShielded(p: Pattern, tag: string, code: string, fallback: string)
    requires '/' !in tag
    requires !Contains(code, PlaceholderHead(tag))
    ensures var s := ShieldWith(p, tag, code); RestorePass(tag, s.text, s.table, fallback) == code
  {
    var ps := Scan(p, None, code);
    var m := |Matches(ps)|;
    var t := Fill(ps, Numbered(tag, 0, m));
    FlattenScan(p, None, code);
    Rescan(tag, ps, 0, None);
    var r := Relabel(tag, ps, 0);
    LeftmostUnique(Placeholder(tag), None, t, r);
    assert r == Scan(Placeholder(tag), None, t);
    ScanMatchesNonEmpty(p, None, code);
    RestoreRelabel(tag, ps, 0, Matches(ps), fallback);
    assert Matches(ps)[0..m] == Matches(ps);
    var reps := RestoreReps(r, Matches(ps), fallback);
    assert reps == Matches(ps);
    RelabelFill(tag, ps, 0, Matches(ps));
    FillMatches(ps);
    assert Fill(r, reps) == code;
    assert ShieldWith(p, tag, code) == Shielding(t, Matches(ps));
    assert RestorePass(tag, t, Matches(ps), fallback) == Fill(r, reps);
  }

  /** Where a comment match ends: after a closing star and slash, or before a line
      terminator or the end of the text. */
  lemma CommentEnd(t: string)
    requires CommentAt(t).Some?
    ensures var n := CommentAt(t).value.len; t[n - 1] == '/' || n == |t| || IsLineTerminator(t[n])
  {
  }

  /** No occurrence of `w` in `a + f` starts inside `a`, nor in `f`: none at all. */
  lemma {:induction false} NoneAcross(a: string, f: string, w: string)
    requires !Contains(f, w)
    requires forall i :: 0 <= i < |a| ==> !StartsWith(a[i..] + f, w)
    ensures !Contains(a + f, w)
    decreases |a|
  {
    if a == [] {
      assert a + f == f;
    } else {
      assert a[0..] == a;
      assert (a + f)[1..] == a[1..] + f;
      forall i | 0 <= i < |a[1..]|
        ensures !StartsWith(a[1..][i..] + f, w)
      {
        assert a[1..][i..] == a[i + 1..];
      }
      NoneAcross(a[1..], f, w);
    }
  }

  /** A comment placeholder followed by a text that does not start with the rest of a
      string placeholder head holds no string placeholder head. */
  lemma CommentPlaceholderClean(k: nat, f: string)
    requires !Contains(f, PlaceholderHead(StringTag))
    requires !StartsWith(f, PlaceholderHead(StringTag)[1..])
    ensures !Contains(PlaceholderText(CommentTag, k) + f, PlaceholderHead(StringTag))
  {
    var w := PlaceholderHead(StringTag);
    var P := PlaceholderText(CommentTag, k);
    var d := Decimal(k);
    assert w == "/*STRING_";
    assert P == "/*COMMENT_" + d + "*/";
    forall i | 0 <= i < |P|
      ensures !StartsWith(P[i..] + f, w)
    {
      if i == 0 {
        assert (P[i..] + f)[2] == 'C';
      } else if i == |P| - 1 {
        assert P[i..] == "/";
        ConsStartsWith('/', f, w);
      } else if i < 10 {
        assert P[i] == "*COMMENT_"[i - 1];
        assert (P[i..] + f)[0] == P[i];
      } else if i < 10 + |d| {
        assert P[i] == d[i - 10];
        assert (P[i..] + f)[0] == P[i];
      } else {
        assert P[i] == '*';
        assert (P[i..] + f)[0] == P[i];
      }
    }
    NoneAcross(P, f, w);
  }

  lemma CommentPlainStep(prev: Option<char>, t: string, k: nat)
    requires t != [] && CommentAt(t).None?
    requires !Contains(t, PlaceholderHead(StringTag))
    requires var rest := Scan(Comment, Some(t[0]), t[1..]);
      !Contains(Fill(rest, Numbered(CommentTag, k, |Matches(rest)|)), PlaceholderHead(StringTag))
    ensures var ps := Scan(Comment, prev, t);
      !Contains(Fill(ps, Numbered(CommentTag, k, |Matches(ps)|)), PlaceholderHead(StringTag))
  {
    var w := PlaceholderHead(StringTag);
    StringHead();
    var rest := Scan(Comment, Some(t[0]), t[1..]);
    var N := Numbered(CommentTag, k, |Matches(rest)|);
    PlainFill(prev, t, k);
    var f := Fill(rest, N);
    ContainsSuffix(t, 1, w);
    NumberedSlashLed(CommentTag, k, |Matches(rest)|);
    PrefixThroughFill(rest, N, w[1..]);
    FlattenScan(Comment, Some(t[0]), t[1..]);
    assert t == [t[0]] + t[1..];
    ConsStartsWith(t[0], f, w);
    ConsStartsWith(t[0], t[1..], w);
    assert ([t[0]] + f)[1..] == f;
  }

  /** The string placeholder head starts with its only slash. */
  lemma StringHead()
    ensures PlaceholderHead(StringTag) == "/*STRING_"
    ensures '/' !in PlaceholderHead(StringTag)[1..]
  {
  }

  /** Where no comment starts, the shielded text is the first character followed by
      the shielded rest. */
  lemma PlainFill(prev: Option<char>, t: string, k: nat)
    requires t != [] && CommentAt(t).None?
    ensures var ps := Scan(Comment, prev, t);
      var rest := Scan(Comment, Some(t[0]), t[1..]);
      && |Matches(ps)| == |Matches(rest)|
      && Fill(ps, Numbered(CommentTag, k, |Matches(ps)|)) == [t[0]] + Fill(rest, Numbered(CommentTag, k, |Matches(rest)|))
  {
    ScanStep(Comment, prev, t);
    var ps := Scan(Comment, prev, t);
    var rest := Scan(Comment, Some(t[0]), t[1..]);
    assert ps == [Plain(t[0])] + rest;
    assert ps[1..] == rest;
    assert Matches(ps) == Matches(rest);
  }

  lemma CommentFoundStep(prev: Option<char>, t: string, k: nat)
    requires CommentAt(t).Some?
    requires !Contains(t, PlaceholderHead(StringTag))
    requires var n := CommentAt(t).value.len; var rest := Scan(Comment, Some(t[n - 1]), t[n..]);
      !Contains(Fill(rest, Numbered(CommentTag, k + 1, |Matches(rest)|)), PlaceholderHead(StringTag))
    ensures var ps := Scan(Comment, prev, t);
      !Contains(Fill(ps, Numbered(CommentTag, k, |Matches(ps)|)), PlaceholderHead(StringTag))
  {
    var w := PlaceholderHead(StringTag);
    StringHead();
    ScanStep(Comment, prev, t);
    var h := CommentAt(t).value;
    var ps := Scan(Comment, prev, t);
    var n := h.len;
    var rest := Scan(Comment, Some(t[n - 1]), t[n..]);
    assert ps == [Found(t[..n], h.groups)] + rest;
    FillNumberedFound(CommentTag, t[..n], h.groups, rest, k);
    var N' := Numbered(CommentTag, k + 1, |Matches(rest)|);
    var f := Fill(rest, N');
    NumberedSlashLed(CommentTag, k + 1, |Matches(rest)|);
    PrefixThroughFill(rest, N', w[1..]);
    FlattenScan(Comment, Some(t[n - 1]), t[n..]);
    AfterComment(t);
    CommentPlaceholderClean(k, f);
  }

  /** What follows a comment does not continue a slash into a string placeholder head. */
  lemma AfterComment(t: string)
    requires CommentAt(t).Some?
    requires !Contains(t, PlaceholderHead(StringTag))
    ensures !StartsWith(t[CommentAt(t).value.len..], PlaceholderHead(StringTag)[1..])
  {
    var w := PlaceholderHead(StringTag);
    StringHead();
    assert |w| > 2 && w[0] == '/' && w[1] == '*';
    var n := CommentAt(t).value.len;
    CommentEnd(t);
    if t[n - 1] == '/' {
      assert t[n - 1..] == [t[n - 1]] + t[n..];
      ConsStartsWith('/', t[n..], w);
      ContainsSuffix(t, n - 1, w);
    }
  }

  /** Shielding comments never creates a string placeholder head: a placeholder ends
      in a slash, but what follows a comment cannot start with a star. */
  lemma {:induction false} CommentShieldClean(prev: Option<char>, t: string, k: nat)
    requires !Contains(t, PlaceholderHead(StringTag))
    ensures var ps := Scan(Comment, prev, t);
      !Contains(Fill(ps, Numbered(CommentTag, k, |Matches(ps)|)), PlaceholderHead(StringTag))
    decreases |t|
  {
    if t != [] {
      var w := PlaceholderHead(StringTag);
      match CommentAt(t)
      case None =>
        ContainsSuffix(t, 1, w);
        CommentShieldClean(Some(t[0]), t[1..], k);
        CommentPlainStep(prev, t, k);
      case Some(h) =>
        ContainsSuffix(t, h.len, w);
        CommentShieldClean(Some(t[h.len - 1]), t[h.len..], k + 1);
        CommentFoundStep(prev, t, k);
    }
  }

  /** Restoring what `preserveTokens` produced, with the tables it filled, gives the
      original text back, for any text without placeholder heads of its own. */
  lemma RestorePreserved(code: string)
    requires !Contains(code, PlaceholderHead(CommentTag)) && !Contains(code, PlaceholderHead(StringTag))
    ensures var p := Preserve(code, true); RestoreTokens(p.code.value, p.comments, p.strings) == code
  {
    var c := ShieldWith(Comment, CommentTag, code);
    CommentShieldClean(None, code, 0);
    RestoreShielded(StringLiteral, StringTag, c.text, "\"\"");
    RestoreShielded(Comment, CommentTag, code, "");
  }

  /** The n-th match of a shielding replace is replaced by placeholder n: searching the
      result for placeholders finds numbers 0, 1, 2, ... in order, one per match. */
  lemma ShieldNumbering(p: Pattern, tag: string, code: string)
    requires '/' !in tag
    requires !Contains(code, PlaceholderHead(tag))
    ensures var s := ShieldWith(p, tag, code);
      Matches(Scan(Placeholder(tag), None, s.text)) == Numbered(tag, 0, |s.table|)
  {
    var ps := Scan(p, None, code);
    var t := Fill(ps, Numbered(tag, 0, |Matches(ps)|));
    FlattenScan(p, None, code);
    Rescan(tag, ps, 0, None);
    LeftmostUnique(Placeholder(tag), None, t, Relabel(tag, ps, 0));
    RelabelFill(tag, ps, 0, Numbered(tag, 0, |Matches(ps)|));
  }

  /** A single placeholder restores to its entry, or to the fallback when the index is
      past the end of the table or the entry is empty. */
  lemma RestoreOne(tag: string, n: nat, table: seq<string>, fallback: string)
    ensures RestorePass(tag, PlaceholderText(tag, n), table, fallback)
         == if n < |table| && table[n] != "" then table[n] else fallback
  {
    var P := PlaceholderText(tag, n);
    PlaceholderMatch(tag, n, "");
    assert P + "" == P;
    ScanStep(Placeholder(tag), None, P);
    assert P[..|P|] == P && P[|P|..] == "";
    var ps := Scan(Placeholder(tag), None, P);
    assert ps == [Found(P, [Decimal(n)])];
    DecimalValue(n);
    ScanIndexed(tag, None, P);
    var reps := RestoreReps(ps, table, fallback);
    assert reps == [Lookup(table, Decimal(n), fallback)];
    assert Fill(ps, reps) == reps[0] + Fill(ps[1..], reps[1..]);
    assert ps[1..] == [] && reps[1..] == [];
    assert RestorePass(tag, P, table, fallback) == Fill(ps, reps);
  }
}

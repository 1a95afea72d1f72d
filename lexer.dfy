/** The regular expressions the passes run with the global flag, each as a
    deterministic matcher, and the left-to-right search that `String.prototype.replace`
    performs with them: try a match at the current position; on success hand the
    match to the callback and resume after it, otherwise keep the character and
    move one position on. */
module Lexer {
  import opened Results
  import opened Text

  /** The patterns of the source:
      - StringLiteral: (['"`])(?:(?=(\\?))\2.)*?\1
      - Comment: (\/\*[\s\S]*?\*\/|\/\/.*$) with the multiline flag
      - Placeholder(tag): \/\*TAG_(\d+)\*\/
      - Declaration: \b(var|let|const|function)\s+([a-zA-Z_$][0-9a-zA-Z_$]*)\b
      - FunctionDef: function\s+([^\s(]+)\s*\(([^)]*)\)\s*{([^}]*)} */
  datatype Pattern = StringLiteral | Comment | Placeholder(tag: string) | Declaration | FunctionDef

  /** A match: its length and the capture groups a callback reads. */
  datatype Hit = Hit(len: nat, groups: seq<string>)

  predicate IsQuote(c: char) { c == '\'' || c == '"' || c == '`' }

  /** After an opening quote `q`: the length up to and including the closing `q`, where
      a backslash always takes the next character with it and no line terminator may
      occur; `None` when the literal is not closed on its line. */
  function LiteralRest(q: char, t: string): (r: Option<nat>)
    ensures r.Some? ==> 0 < r.value <= |t|
    decreases |t|
  {
    if t == [] then None
    else if t[0] == q then Some(1)
    else if t[0] == '\\' then
      if |t| >= 2 && !IsLineTerminator(t[1]) then
        match LiteralRest(q, t[2..])
        case None => None
        case Some(n) => Some(n + 2)
      else None
    else if IsLineTerminator(t[0]) then None
    else
      match LiteralRest(q, t[1..])
      case None => None
      case Some(n) => Some(n + 1)
  }

  function StringLiteralAt(t: string): (r: Option<Hit>)
    ensures r.Some? ==> 2 <= r.value.len <= |t|
  {
    if t != [] && IsQuote(t[0]) then
      match LiteralRest(t[0], t[1..])
      case None => None
      case Some(n) => Some(Hit(n + 1, []))
    else None
  }

  // The position of the first star-slash pair in `t`.
  function BlockEnd(t: string): (r: Option<nat>)
    ensures r.Some? ==> r.value + 2 <= |t| && t[r.value] == '*' && t[r.value + 1] == '/'
  {
    if |t| < 2 then None
    else if t[0] == '*' && t[1] == '/' then Some(0)
    else
      match BlockEnd(t[1..])
      case None => None
      case Some(k) => Some(k + 1)
  }

  /** The number of characters before the first line terminator (or the end). */
  function LineLength(t: string): (n: nat)
    ensures n <= |t| && (n < |t| ==> IsLineTerminator(t[n]))
  {
    if t == [] || IsLineTerminator(t[0]) then 0 else 1 + LineLength(t[1..])
  }

  function CommentAt(t: string): (r: Option<Hit>)
    ensures r.Some? ==> 2 <= r.value.len <= |t|
  {
    if |t| >= 2 && t[0] == '/' && t[1] == '*' && BlockEnd(t[2..]).Some? then
      Some(Hit(BlockEnd(t[2..]).value + 4, []))
    else if |t| >= 2 && t[0] == '/' && t[1] == '/' then
      Some(Hit(2 + LineLength(t[2..]), []))
    else None
  }

  /** The number of leading decimal digits. */
  function DigitRun(t: string): (n: nat)
    ensures n <= |t| && (n < |t| ==> !IsDigit(t[n]))
    ensures forall i :: 0 <= i < n ==> IsDigit(t[i])
  {
    if t == [] || !IsDigit(t[0]) then 0 else 1 + DigitRun(t[1..])
  }

  // The opening of a placeholder: slash, star, the tag and an underscore.
  function PlaceholderHead(tag: string): string {
    "/*" + tag + "_"
  }

  /** The one group is the digit run; the callback reads it with `parseInt`. */
  function PlaceholderAt(tag: string, t: string): (r: Option<Hit>)
    ensures r.Some? ==> 0 < r.value.len <= |t| && |r.value.groups| == 1
    ensures r.Some? ==> forall i :: 0 <= i < |r.value.groups[0]| ==> IsDigit(r.value.groups[0][i])
  {
    var h := PlaceholderHead(tag);
    if |t| >= |h| && t[..|h|] == h then
      var d := DigitRun(t[|h|..]);
      if d > 0 && |h| + d + 2 <= |t| && t[|h| + d] == '*' && t[|h| + d + 1] == '/' then
        Some(Hit(|h| + d + 2, [t[|h|..|h| + d]]))
      else None
    else None
  }

  /** The length of the declaration keyword `t` starts with. */
  function KeywordLen(t: string): (r: Option<nat>)
    ensures r.Some? ==> r.value <= |t| && r.value in {3, 5, 8}
  {
    if |t| >= 3 && t[..3] == "var" then Some(3)
    else if |t| >= 3 && t[..3] == "let" then Some(3)
    else if |t| >= 5 && t[..5] == "const" then Some(5)
    else if |t| >= 8 && t[..8] == "function" then Some(8)
    else None
  }

  /** The number of leading white-space characters (the greedy `\s*`). */
  function SpaceRun(t: string): (n: nat)
    ensures n <= |t| && (n < |t| ==> !IsSpace(t[n]))
    ensures forall i :: 0 <= i < n ==> IsSpace(t[i])
  {
    if t == [] || !IsSpace(t[0]) then 0 else 1 + SpaceRun(t[1..])
  }

  predicate IsNameStart(c: char) { ('a' <= c <= 'z') || ('A' <= c <= 'Z') || c == '_' || c == '$' }
  predicate IsNameChar(c: char) { IsNameStart(c) || IsDigit(c) }

  /** The greedy run `[a-zA-Z_$][0-9a-zA-Z_$]*`. */
  function NameRun(t: string): (n: nat)
    ensures n <= |t|
    ensures n > 0 ==> IsNameStart(t[0]) && (n < |t| ==> !IsNameChar(t[n]))
    ensures forall i :: 0 <= i < n ==> IsNameChar(t[i])
  {
    if t == [] || !IsNameStart(t[0]) then 0 else 1 + NamePartRun(t[1..])
  }

  function NamePartRun(t: string): (n: nat)
    ensures n <= |t| && (n < |t| ==> !IsNameChar(t[n]))
    ensures forall i :: 0 <= i < n ==> IsNameChar(t[i])
  {
    if t == [] || !IsNameChar(t[0]) then 0 else 1 + NamePartRun(t[1..])
  }

  /** `\b` between `t[e - 1]` and `t[e]`, the end of the text counting as a non-word character. */
  predicate Boundary(t: string, e: nat)
    requires 0 < e <= |t|
  {
    IsWordChar(t[e - 1]) != (e < |t| && IsWordChar(t[e]))
  }

  /** Backtracking of the greedy name run until `\b` holds: the largest end at most `e`. */
  function BoundaryEnd(t: string, e: nat): (r: Option<nat>)
    requires e <= |t|
    ensures r.Some? ==> 0 < r.value <= e && Boundary(t, r.value)
    ensures r.Some? ==> forall k :: r.value < k <= e ==> !Boundary(t, k)
    ensures r.None? ==> forall k :: 0 < k <= e ==> !Boundary(t, k)
  {
    if e == 0 then None else if Boundary(t, e) then Some(e) else BoundaryEnd(t, e - 1)
  }

  /** Groups: the keyword and the declared name. `prev` is the character before the
      match position, which the leading `\b` looks at. */
  function DeclarationAt(prev: Option<char>, t: string): (r: Option<Hit>)
    ensures r.Some? ==> 0 < r.value.len <= |t| && |r.value.groups| == 2
  {
    if prev.Some? && IsWordChar(prev.value) then None
    else
      match KeywordLen(t)
      case None => None
      case Some(k) =>
        var w := SpaceRun(t[k..]);
        var j := k + w;
        var n := NameRun(t[j..]);
        if w == 0 || n == 0 then None
        else
          match BoundaryEnd(t[j..], n)
          case None => None
          case Some(e) => Some(Hit(j + e, [t[..k], t[j..j + e]]))
  }

  /** The number of leading characters in `[^\s(]`. */
  function FnNameRun(t: string): (n: nat)
    ensures n <= |t| && (n < |t| ==> IsSpace(t[n]) || t[n] == '(')
  {
    if t == [] || IsSpace(t[0]) || t[0] == '(' then 0 else 1 + FnNameRun(t[1..])
  }

  /** The position of the first `c`. */
  function Find(t: string, c: char): (r: Option<nat>)
    ensures r.Some? <==> c in t
    ensures r.Some? ==> r.value < |t| && t[r.value] == c && c !in t[..r.value]
  {
    if c in t then Some(IndexOf(t, c)) else None
  }

  /** The characters `t[lo..hi]` of a group. */
  datatype Span = Span(lo: nat, hi: nat)

  /** `\s*{([^}]*)}` from position `d`: the body between the opening brace and the
      first closing brace. */
  function BraceBody(t: string, d: nat): (r: Option<Span>)
    requires d <= |t|
    ensures r.Some? ==> d < r.value.lo <= r.value.hi < |t|
    ensures r.Some? ==> t[r.value.hi] == '}' && '}' !in t[r.value.lo..r.value.hi]
  {
    var e := d + SpaceRun(t[d..]);
    if e >= |t| || t[e] != '{' then None
    else
      match Find(t[e + 1..], '}')
      case None => None
      case Some(bl) =>
        assert t[e + 1..][..bl] == t[e + 1..e + 1 + bl];
        Some(Span(e + 1, e + 1 + bl))
  }

  /** A function header: the span of its name and the position of `(`. */
  datatype FnHead = FnHead(name: Span, paren: nat)

  /** `function\s+([^\s(]+)\s*\(`: the name, and the position of the opening
      parenthesis after it. */
  function FunctionHead(t: string): (r: Option<FnHead>)
    ensures r.Some? ==> r.value.name.lo < r.value.name.hi <= r.value.paren < |t| && t[r.value.paren] == '('
  {
    if |t| >= 8 && t[..8] == "function" then
      var w := SpaceRun(t[8..]);
      var a := 8 + w;
      var n := FnNameRun(t[a..]);
      var b := a + n;
      var c := b + SpaceRun(t[b..]);
      if w == 0 || n == 0 || c >= |t| || t[c] != '(' then None
      else Some(FnHead(Span(a, b), c))
    else None
  }

  /** `\(([^)]*)\)` from the parenthesis at `c`: the position of the first `)` after it. */
  function ParamsEnd(t: string, c: nat): (r: Option<nat>)
    requires c < |t|
    ensures r.Some? ==> c < r.value < |t| && t[r.value] == ')' && ')' !in t[c + 1..r.value]
  {
    match Find(t[c + 1..], ')')
    case None => None
    case Some(pl) =>
      assert t[c + 1..][..pl] == t[c + 1..c + 1 + pl];
      Some(c + 1 + pl)
  }

  /** Groups: the function name, the parameter text and the body text, the body being
      everything up to the first `}`. */
  function FunctionAt(t: string): (r: Option<Hit>)
    ensures r.Some? ==> 0 < r.value.len <= |t| && |r.value.groups| == 3
    ensures r.Some? ==> t[r.value.len - 1] == '}' && '}' !in r.value.groups[2]
  {
    match FunctionHead(t)
    case None => None
    case Some(h) =>
      match ParamsEnd(t, h.paren)
      case None => None
      case Some(d) =>
        match BraceBody(t, d + 1)
        case None => None
        case Some(body) =>
          var groups := [t[h.name.lo..h.name.hi], t[h.paren + 1..d], t[body.lo..body.hi]];
          assert groups[2] == t[body.lo..body.hi];
          Some(Hit(body.hi + 1, groups))
  }

  /** The number of capture groups a callback reads for `p`. */
  function GroupCount(p: Pattern): nat {
    match p
    case StringLiteral => 0
    case Comment => 0
    case Placeholder(_) => 1
    case Declaration => 2
    case FunctionDef => 3
  }

  /** A match of `p` starting at the first character of `t`. */
  function MatchAt(p: Pattern, prev: Option<char>, t: string): (r: Option<Hit>)
    ensures r.Some? ==> 0 < r.value.len <= |t| && |r.value.groups| == GroupCount(p)
  {
    match p
    case StringLiteral => StringLiteralAt(t)
    case Comment => CommentAt(t)
    case Placeholder(tag) => PlaceholderAt(tag, t)
    case Declaration => DeclarationAt(prev, t)
    case FunctionDef => FunctionAt(t)
  }

  /** A character the search stepped over, or a match the callback receives. */
  datatype Piece = Plain(c: char) | Found(text: string, groups: seq<string>)

  /** The global search of `t` for `p`; `prev` is the character before `t`. */
  function Scan(p: Pattern, prev: Option<char>, t: string): seq<Piece>
    decreases |t|
  {
    if t == [] then []
    else
      match MatchAt(p, prev, t)
      case Some(h) => [Found(t[..h.len], h.groups)] + Scan(p, Some(t[h.len - 1]), t[h.len..])
      case None => [Plain(t[0])] + Scan(p, Some(t[0]), t[1..])
  }

  /** The text the pieces stand for. */
  function Flatten(ps: seq<Piece>): string {
    if ps == [] then ""
    else (match ps[0] case Plain(c) => [c] case Found(x, _) => x) + Flatten(ps[1..])
  }

  /** The matches, left to right. */
  function Matches(ps: seq<Piece>): (ms: seq<string>) {
    if ps == [] then []
    else (match ps[0] case Plain(_) => [] case Found(x, _) => [x]) + Matches(ps[1..])
  }

  /** The text with the i-th match replaced by `reps[i]` and every other character kept. */
  function Fill(ps: seq<Piece>, reps: seq<string>): string
    requires |reps| == |Matches(ps)|
  {
    if ps == [] then ""
    else
      match ps[0]
      case Plain(c) => [c] + Fill(ps[1..], reps)
      case Found(_, _) => reps[0] + Fill(ps[1..], reps[1..])
  }

  /** The search neither loses nor invents text. */
  lemma {:induction false} FlattenScan(p: Pattern, prev: Option<char>, t: string)
    ensures Flatten(Scan(p, prev, t)) == t
    decreases |t|
  {
    if t != [] {
      ScanStep(p, prev, t);
      match MatchAt(p, prev, t)
      case Some(h) =>
        FlattenScan(p, Some(t[h.len - 1]), t[h.len..]);
        SpellFound(t, h.len, h.groups, Scan(p, Some(t[h.len - 1]), t[h.len..]));
      case None =>
        FlattenScan(p, Some(t[0]), t[1..]);
        SpellPlain(t, Scan(p, Some(t[0]), t[1..]));
    }
  }

  /** A match of the first `n` characters followed by pieces that spell the rest spells
      the whole text. */
  lemma SpellFound(t: string, n: nat, g: seq<string>, rest: seq<Piece>)
    requires 0 < n <= |t| && Flatten(rest) == t[n..]
    ensures Flatten([Found(t[..n], g)] + rest) == t
  {
    FlattenFound(t[..n], g, rest);
    assert t == t[..n] + t[n..];
  }

  /** The first character followed by pieces that spell the rest spells the whole text. */
  lemma SpellPlain(t: string, rest: seq<Piece>)
    requires t != [] && Flatten(rest) == t[1..]
    ensures Flatten([Plain(t[0])] + rest) == t
  {
    FlattenPlain(t[0], rest);
    assert t == [t[0]] + t[1..];
  }

  lemma FlattenPlain(c: char, ps: seq<Piece>)
    ensures Flatten([Plain(c)] + ps) == [c] + Flatten(ps)
  {
    assert ([Plain(c)] + ps)[1..] == ps;
  }

  lemma FlattenFound(x: string, g: seq<string>, ps: seq<Piece>)
    ensures Flatten([Found(x, g)] + ps) == x + Flatten(ps)
  {
    assert ([Found(x, g)] + ps)[1..] == ps;
  }

  /** Filling each match with itself gives the text back. */
  lemma {:induction false} FillMatches(ps: seq<Piece>)
    ensures Fill(ps, Matches(ps)) == Flatten(ps)
  {
    if ps != [] {
      FillMatches(ps[1..]);
      match ps[0]
      case Plain(c) =>
        assert Matches(ps) == Matches(ps[1..]);
      case Found(x, _) =>
        assert Matches(ps) == [x] + Matches(ps[1..]);
    }
  }

  /** An independent description of the search result: the pieces spell `t`, every
      match sits where `p` matches and no match starts at a stepped-over character,
      each position seeing the character before it. */
  predicate Leftmost(p: Pattern, prev: Option<char>, t: string, ps: seq<Piece>)
    decreases |ps|
  {
    if ps == [] then t == []
    else if ps[0].Plain? then
      t != [] && t[0] == ps[0].c && MatchAt(p, prev, t).None?
      && Leftmost(p, Some(t[0]), t[1..], ps[1..])
    else
      var n := |ps[0].text|;
      0 < n <= |t| && ps[0].text == t[..n] && MatchAt(p, prev, t) == Some(Hit(n, ps[0].groups))
      && Leftmost(p, Some(t[n - 1]), t[n..], ps[1..])
  }

  /** The search meets that description ... */
  lemma {:induction false} ScanLeftmost(p: Pattern, prev: Option<char>, t: string)
    ensures Leftmost(p, prev, t, Scan(p, prev, t))
    decreases |t|
  {
    if t != [] {
      ScanStep(p, prev, t);
      match MatchAt(p, prev, t)
      case None =>
        ScanLeftmost(p, Some(t[0]), t[1..]);
        LeftmostPlainCons(p, prev, t, Scan(p, Some(t[0]), t[1..]));
      case Some(h) =>
        ScanLeftmost(p, Some(t[h.len - 1]), t[h.len..]);
        LeftmostFoundCons(p, prev, t, h, Scan(p, Some(t[h.len - 1]), t[h.len..]));
    }
  }

  lemma LeftmostPlainCons(p: Pattern, prev: Option<char>, t: string, rest: seq<Piece>)
    requires t != [] && MatchAt(p, prev, t).None? && Leftmost(p, Some(t[0]), t[1..], rest)
    ensures Leftmost(p, prev, t, [Plain(t[0])] + rest)
  {
    assert ([Plain(t[0])] + rest)[1..] == rest;
  }

  lemma LeftmostFoundCons(p: Pattern, prev: Option<char>, t: string, h: Hit, rest: seq<Piece>)
    requires MatchAt(p, prev, t) == Some(h) && Leftmost(p, Some(t[h.len - 1]), t[h.len..], rest)
    ensures Leftmost(p, prev, t, [Found(t[..h.len], h.groups)] + rest)
  {
    assert ([Found(t[..h.len], h.groups)] + rest)[1..] == rest;
  }

  /** One step of the search. */
  lemma ScanStep(p: Pattern, prev: Option<char>, t: string)
    requires t != []
    ensures MatchAt(p, prev, t).None? ==> Scan(p, prev, t) == [Plain(t[0])] + Scan(p, Some(t[0]), t[1..])
    ensures MatchAt(p, prev, t).Some? ==>
      var n := MatchAt(p, prev, t).value.len;
      Scan(p, prev, t) == [Found(t[..n], MatchAt(p, prev, t).value.groups)] + Scan(p, Some(t[n - 1]), t[n..])
  {
  }

  lemma LeftmostPlainStep(p: Pattern, prev: Option<char>, t: string, ps: seq<Piece>)
    requires ps != [] && ps[0].Plain?
    requires Leftmost(p, prev, t, ps)
    requires ps[1..] == Scan(p, Some(t[0]), t[1..])
    ensures ps == Scan(p, prev, t)
  {
    ScanStep(p, prev, t);
    assert ps == [ps[0]] + ps[1..];
  }

  lemma LeftmostFoundStep(p: Pattern, prev: Option<char>, t: string, ps: seq<Piece>)
    requires ps != [] && ps[0].Found?
    requires Leftmost(p, prev, t, ps)
    requires ps[1..] == Scan(p, Some(t[|ps[0].text| - 1]), t[|ps[0].text|..])
    ensures ps == Scan(p, prev, t)
  {
    ScanStep(p, prev, t);
    var n := |ps[0].text|;
    assert ps[0] == Found(t[..n], ps[0].groups);
    assert ps == [ps[0]] + ps[1..];
  }

  /** ... and is the only sequence of pieces that does. */
  lemma {:induction false} LeftmostUnique(p: Pattern, prev: Option<char>, t: string, ps: seq<Piece>)
    requires Leftmost(p, prev, t, ps)
    ensures ps == Scan(p, prev, t)
    decreases |ps|
  {
    if ps == [] {
      ScanEmpty(p, prev, t);
    } else {
      var n := LeftmostTail(p, prev, t, ps);
      LeftmostUnique(p, Some(t[n - 1]), t[n..], ps[1..]);
      if ps[0].Plain? {
        LeftmostPlainStep(p, prev, t, ps);
      } else {
        LeftmostFoundStep(p, prev, t, ps);
      }
    }
  }

  lemma ScanEmpty(p: Pattern, prev: Option<char>, t: string)
    requires t == []
    ensures Scan(p, prev, t) == []
  {
  }

  /** What the first piece of a leftmost search leaves to the rest: `n` characters
      taken, one for a stepped-over character. */
  lemma LeftmostTail(p: Pattern, prev: Option<char>, t: string, ps: seq<Piece>) returns (n: nat)
    requires ps != [] && Leftmost(p, prev, t, ps)
    ensures 0 < n <= |t| && Leftmost(p, Some(t[n - 1]), t[n..], ps[1..])
    ensures ps[0].Plain? ==> n == 1
    ensures ps[0].Found? ==> n == |ps[0].text|
  {
    n := if ps[0].Plain? then 1 else |ps[0].text|;
  }

  lemma {:induction false} FlattenAppend(a: seq<Piece>, b: seq<Piece>)
    ensures Flatten(a + b) == Flatten(a) + Flatten(b)
    decreases |a|
  {
    if a != [] {
      assert (a + b)[1..] == a[1..] + b;
      FlattenAppend(a[1..], b);
    } else {
      assert a + b == b;
    }
  }

  lemma {:induction false} MatchesAppend(a: seq<Piece>, b: seq<Piece>)
    ensures Matches(a + b) == Matches(a) + Matches(b)
    decreases |a|
  {
    if a != [] {
      assert (a + b)[1..] == a[1..] + b;
      MatchesAppend(a[1..], b);
    } else {
      assert a + b == b;
    }
  }

  /** Filling a concatenation fills each part with its own replacements. */
  lemma {:induction false} FillAppend(a: seq<Piece>, b: seq<Piece>, ra: seq<string>, rb: seq<string>)
    requires |ra| == |Matches(a)| && |rb| == |Matches(b)|
    ensures |ra + rb| == |Matches(a + b)|
    ensures Fill(a + b, ra + rb) == Fill(a, ra) + Fill(b, rb)
    decreases |a|
  {
    MatchesAppend(a, b);
    if a == [] {
      assert a + b == b && ra + rb == rb;
    } else {
      assert a + b == [a[0]] + (a[1..] + b);
      assert a == [a[0]] + a[1..];
      MatchesAppend(a[1..], b);
      FillCons(a[0], a[1..], ra);
      FillCons(a[0], a[1..] + b, ra + rb);
      if a[0].Plain? {
        FillAppend(a[1..], b, ra, rb);
        Assoc3([a[0].c], Fill(a[1..], ra), Fill(b, rb));
      } else {
        assert (ra + rb)[1..] == ra[1..] + rb;
        FillAppend(a[1..], b, ra[1..], rb);
        Assoc3(ra[0], Fill(a[1..], ra[1..]), Fill(b, rb));
      }
    }
  }

  /** Filling a piece in front of others. */
  lemma FillCons(x: Piece, rest: seq<Piece>, reps: seq<string>)
    requires |reps| == |Matches([x] + rest)|
    ensures x.Plain? ==> |reps| == |Matches(rest)| && Fill([x] + rest, reps) == [x.c] + Fill(rest, reps)
    ensures x.Found? ==> |reps| == 1 + |Matches(rest)| && Fill([x] + rest, reps) == reps[0] + Fill(rest, reps[1..])
  {
    assert ([x] + rest)[1..] == rest;
  }

  /** One more piece of a left-to-right search: a match adds itself to the matches. */
  lemma MatchesStep(ps: seq<Piece>, i: nat)
    requires i < |ps|
    ensures ps[i].Plain? ==> Matches(ps[..i + 1]) == Matches(ps[..i])
    ensures ps[i].Found? ==> Matches(ps[..i + 1]) == Matches(ps[..i]) + [ps[i].text]
  {
    assert ps[..i + 1] == ps[..i] + [ps[i]];
    MatchesAppend(ps[..i], [ps[i]]);
    assert [ps[i]][1..] == [];
  }

  /** One more piece of a left-to-right replace: a plain character is copied, a match
      takes its replacement. */
  lemma FillStep(ps: seq<Piece>, i: nat, done: seq<string>, rep: string)
    requires i < |ps| && |done| == |Matches(ps[..i])|
    ensures ps[i].Plain? ==> |done| == |Matches(ps[..i + 1])| && Fill(ps[..i + 1], done) == Fill(ps[..i], done) + [ps[i].c]
    ensures ps[i].Found? ==> |done + [rep]| == |Matches(ps[..i + 1])| && Fill(ps[..i + 1], done + [rep]) == Fill(ps[..i], done) + rep
  {
    assert ps[..i + 1] == ps[..i] + [ps[i]];
    MatchesAppend(ps[..i], [ps[i]]);
    if ps[i].Plain? {
      FillAppend(ps[..i], [ps[i]], done, []);
      assert done + [] == done;
    } else {
      FillAppend(ps[..i], [ps[i]], done, [rep]);
    }
  }


  /** Every match in `ps` carries `n` groups. */
  predicate Grouped(ps: seq<Piece>, n: nat) {
    forall j :: 0 <= j < |ps| && ps[j].Found? ==> |ps[j].groups| == n
  }

  lemma {:induction false} ScanGrouped(p: Pattern, prev: Option<char>, t: string)
    ensures Grouped(Scan(p, prev, t), GroupCount(p))
    decreases |t|
  {
    if t != [] {
      ScanStep(p, prev, t);
      match MatchAt(p, prev, t)
      case None =>
        ScanGrouped(p, Some(t[0]), t[1..]);
        GroupedCons(Plain(t[0]), Scan(p, Some(t[0]), t[1..]), GroupCount(p));
      case Some(h) =>
        ScanGrouped(p, Some(t[h.len - 1]), t[h.len..]);
        GroupedCons(Found(t[..h.len], h.groups), Scan(p, Some(t[h.len - 1]), t[h.len..]), GroupCount(p));
    }
  }

  lemma GroupedCons(x: Piece, ps: seq<Piece>, n: nat)
    requires Grouped(ps, n) && (x.Found? ==> |x.groups| == n)
    ensures Grouped([x] + ps, n)
  {
    forall j | 0 <= j < |[x] + ps| && ([x] + ps)[j].Found?
      ensures |([x] + ps)[j].groups| == n
    {
      if j > 0 {
        assert ([x] + ps)[j] == ps[j - 1];
      }
    }
  }

  lemma GroupedAppend(a: seq<Piece>, b: seq<Piece>, n: nat)
    requires Grouped(a, n) && Grouped(b, n)
    ensures Grouped(a + b, n)
  {
    forall j | 0 <= j < |a + b| && (a + b)[j].Found?
      ensures |(a + b)[j].groups| == n
    {
      if j < |a| {
        assert (a + b)[j] == a[j];
      } else {
        assert (a + b)[j] == b[j - |a|];
      }
    }
  }

  lemma GroupedTail(ps: seq<Piece>, n: nat)
    requires ps != [] && Grouped(ps, n)
    ensures Grouped(ps[1..], n)
  {
    forall j | 0 <= j < |ps[1..]| && ps[1..][j].Found?
      ensures |ps[1..][j].groups| == n
    {
      assert ps[1..][j] == ps[j + 1];
    }
  }

  lemma GroupedPrefix(ps: seq<Piece>, i: nat, n: nat)
    requires i <= |ps| && Grouped(ps, n)
    ensures Grouped(ps[..i], n)
  {
    forall j | 0 <= j < i && ps[..i][j].Found?
      ensures |ps[..i][j].groups| == n
    {
      assert ps[..i][j] == ps[j];
    }
  }
}

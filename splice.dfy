/** The line splicing shared by both dead-code injectors: the code is split into lines,
    one random number per line decides whether a block goes in before that line, and the
    chosen positions are then visited from the last to the first, each block spliced in
    with `lines.splice(pos, 0, block)` so that the positions still to come stay valid. */
module Splice {
  import opened Results
  import Text

  /** `Math.random() > t / 10` for the draw `d`: its last decimal digit stands for the
      first decimal digit of the random fraction. */
  predicate Above(d: nat, tenths: nat) {
    d % 10 >= tenths
  }

  /** One decision per line. */
  function Hits(ds: seq<nat>, tenths: nat): (h: seq<bool>)
    ensures |h| == |ds| && forall i :: 0 <= i < |ds| ==> (h[i] <==> Above(ds[i], tenths))
  {
    seq(|ds|, i requires 0 <= i < |ds| => Above(ds[i], tenths))
  }

  /** `insertPoints`: the chosen line numbers, in increasing order. */
  function Points(h: seq<bool>): (p: seq<nat>)
    ensures |p| <= |h|
    ensures forall j :: 0 <= j < |p| ==> p[j] < |h| && h[p[j]]
    ensures forall j, k :: 0 <= j < k < |p| ==> p[j] < p[k]
    ensures forall i :: 0 <= i < |h| && h[i] ==> i in p
  {
    if h == [] then []
    else
      var front := h[..|h| - 1];
      var p := Points(front);
      assert forall j :: 0 <= j < |p| ==> front[p[j]] == h[p[j]];
      assert forall i :: 0 <= i < |h| - 1 ==> front[i] == h[i];
      if h[|h| - 1] then p + [|h| - 1] else p
  }

  /** The reference result: every line, preceded by its block `at[i]` when line `i` was
      chosen. */
  function Weave(lines: seq<string>, h: seq<bool>, at: seq<string>): seq<string>
    requires |h| == |lines| && |at| == |lines|
  {
    if lines == [] then []
    else (if h[0] then [at[0], lines[0]] else [lines[0]]) + Weave(lines[1..], h[1..], at[1..])
  }

  /** Drops the block in front of every chosen line. */
  function Unweave(w: seq<string>, h: seq<bool>): seq<string> {
    if h == [] || w == [] then []
    else if h[0] then (if |w| < 2 then [] else [w[1]] + Unweave(w[2..], h[1..]))
    else [w[0]] + Unweave(w[1..], h[1..])
  }

  /** The original lines come back, in their order, once the blocks are dropped. */
  lemma {:induction false} UnweaveWeave(lines: seq<string>, h: seq<bool>, at: seq<string>)
    requires |h| == |lines| && |at| == |lines|
    ensures Unweave(Weave(lines, h, at), h) == lines
    decreases |lines|
  {
    if lines != [] {
      var w := Weave(lines, h, at);
      var rest := Weave(lines[1..], h[1..], at[1..]);
      UnweaveWeave(lines[1..], h[1..], at[1..]);
      if h[0] {
        assert w == [at[0], lines[0]] + rest;
        assert w[2..] == rest;
      } else {
        assert w == [lines[0]] + rest;
        assert w[1..] == rest;
      }
      assert lines == [lines[0]] + lines[1..];
    }
  }

  /** One block per chosen line: the output grows by exactly the number of points. */
  lemma {:induction false} WeaveLength(lines: seq<string>, h: seq<bool>, at: seq<string>)
    requires |h| == |lines| && |at| == |lines|
    ensures |Weave(lines, h, at)| == |lines| + |Points(h)|
    decreases |lines|
  {
    if lines != [] {
      WeaveLength(lines[1..], h[1..], at[1..]);
      PointsFront(h);
    }
  }

  /** The points of `h` are those of `h[1..]`, and the first line when it is chosen. */
  lemma {:induction false} PointsFront(h: seq<bool>)
    requires h != []
    ensures |Points(h)| == |Points(h[1..])| + (if h[0] then 1 else 0)
    decreases |h|
  {
    if |h| > 1 {
      var front := h[..|h| - 1];
      PointsFront(front);
      assert front[0] == h[0];
      assert front[1..] == h[1..][..|h[1..]| - 1];
    }
  }

  /** No line chosen, no point. */
  lemma {:induction false} PointsNone(h: seq<bool>)
    requires forall i :: 0 <= i < |h| ==> !h[i]
    ensures Points(h) == []
    decreases |h|
  {
    if h != [] {
      PointsNone(h[..|h| - 1]);
    }
  }

  /** A run of unchosen lines is copied as it is. */
  lemma {:induction false} WeaveSkip(lines: seq<string>, h: seq<bool>, at: seq<string>, a: nat, b: nat)
    requires |h| == |lines| && |at| == |lines| && a <= b <= |lines|
    requires forall i :: a <= i < b ==> !h[i]
    ensures Weave(lines[a..], h[a..], at[a..]) == lines[a..b] + Weave(lines[b..], h[b..], at[b..])
    decreases b - a
  {
    if a < b {
      WeaveSkip(lines, h, at, a + 1, b);
      WeaveUnchosen(lines[a..], h[a..], at[a..]);
      assert lines[a..][1..] == lines[a + 1..] && h[a..][1..] == h[a + 1..] && at[a..][1..] == at[a + 1..];
      assert lines[a..b] == [lines[a]] + lines[a + 1..b];
      Text.ConcatAssoc([lines[a]], lines[a + 1..b], Weave(lines[b..], h[b..], at[b..]));
    } else {
      assert lines[a..b] == [];
    }
  }

  /** An unchosen first line is copied alone. */
  lemma WeaveUnchosen(lines: seq<string>, h: seq<bool>, at: seq<string>)
    requires |h| == |lines| && |at| == |lines| && lines != [] && !h[0]
    ensures Weave(lines, h, at) == [lines[0]] + Weave(lines[1..], h[1..], at[1..])
  {
  }

  /** Where the splice loop stands after `k` points remain: the lowest position visited
      so far, or the end of the lines before the first visit. */
  function Lo(n: nat, p: seq<nat>, k: nat): nat
    requires k <= |p|
  {
    if k == |p| then n else p[k]
  }

  /** The lines from `pos` on, with the block of `pos` placed and the lines up to `lo`
      unchosen. */
  lemma SplicedAt(lines: seq<string>, h: seq<bool>, at: seq<string>, pos: nat, lo: nat)
    requires |h| == |lines| && |at| == |lines| && pos < lo <= |lines| && h[pos]
    requires forall i :: pos < i < lo ==> !h[i]
    ensures Weave(lines[pos..], h[pos..], at[pos..]) == [at[pos]] + lines[pos..lo] + Weave(lines[lo..], h[lo..], at[lo..])
  {
    WeaveSkip(lines, h, at, pos + 1, lo);
    assert lines[pos..][1..] == lines[pos + 1..] && h[pos..][1..] == h[pos + 1..] && at[pos..][1..] == at[pos + 1..];
    assert lines[pos..lo] == [lines[pos]] + lines[pos + 1..lo];
  }

  /** No chosen line lies strictly between the point `k - 1` and the next one visited. */
  lemma PointsGap(h: seq<bool>, k: nat)
    requires 0 < k <= |Points(h)|
    ensures Points(h)[k - 1] < Lo(|h|, Points(h), k)
    ensures forall i :: Points(h)[k - 1] < i < Lo(|h|, Points(h), k) ==> !h[i]
  {
    var p := Points(h);
    assert forall j :: 0 <= j < |p| ==> p[j] <= p[k - 1] || p[j] >= Lo(|h|, p, k);
  }

  /** No line before the first point is chosen. */
  lemma PointsBefore(h: seq<bool>)
    ensures forall i :: 0 <= i < Lo(|h|, Points(h), 0) ==> !h[i]
  {
    var p := Points(h);
    assert forall j :: 0 <= j < |p| ==> p[j] >= Lo(|h|, p, 0);
  }

  /** One turn of the splice loop: inserting the block at point `k - 1` extends the woven
      tail down to that point. */
  lemma SpliceStep(lines: seq<string>, h: seq<bool>, at: seq<string>, k: nat, block: string, cur: seq<string>)
    requires |h| == |lines| && |at| == |lines| && 0 < k <= |Points(h)|
    requires var lo := Lo(|lines|, Points(h), k);
      cur == lines[..lo] + Weave(lines[lo..], h[lo..], at[lo..])
    ensures var pos := Points(h)[k - 1];
      && pos < |cur|
      && cur[..pos] + [block] + cur[pos..] == lines[..pos] + Weave(lines[pos..], h[pos..], at[pos := block][pos..])
  {
    var p := Points(h);
    var pos := p[k - 1];
    var lo := Lo(|lines|, p, k);
    PointsGap(h, k);
    var at' := at[pos := block];
    SplicedAt(lines, h, at', pos, lo);
    assert at'[lo..] == at[lo..] && at'[pos] == block;
    InsertBefore(lines, lo, Weave(lines[lo..], h[lo..], at[lo..]), pos, block);
  }

  /** Splicing into `lines[..lo] + tail` below `lo`. */
  lemma InsertBefore(lines: seq<string>, lo: nat, tail: seq<string>, pos: nat, block: string)
    requires pos < lo <= |lines|
    ensures var cur := lines[..lo] + tail;
      cur[..pos] + [block] + cur[pos..] == lines[..pos] + ([block] + lines[pos..lo] + tail)
  {
    var cur := lines[..lo] + tail;
    assert cur[..pos] == lines[..pos];
    assert cur[pos..] == lines[pos..lo] + tail;
  }

  /** After the last turn the lines before the first point are untouched. */
  lemma SpliceEnd(lines: seq<string>, h: seq<bool>, at: seq<string>, cur: seq<string>)
    requires |h| == |lines| && |at| == |lines|
    requires var lo := Lo(|lines|, Points(h), 0);
      cur == lines[..lo] + Weave(lines[lo..], h[lo..], at[lo..])
    ensures cur == Weave(lines, h, at)
  {
    PointsBefore(h);
    WeaveSkip(lines, h, at, 0, Lo(|lines|, Points(h), 0));
    assert lines[0..] == lines && h[0..] == h && at[0..] == at;
  }

  /** Before the first turn nothing is woven yet. */
  lemma SpliceStart(lines: seq<string>, h: seq<bool>, at: seq<string>)
    requires |h| == |lines| && |at| == |lines|
    ensures var lo := Lo(|lines|, Points(h), |Points(h)|);
      lines == lines[..lo] + Weave(lines[lo..], h[lo..], at[lo..])
  {
    assert lines[|lines|..] == [];
  }

  /** The loop that fills `insertPoints`: one draw per line, the line number pushed when
      the draw is above the threshold; `None` when the oracle has fewer draws than lines. */
  method InsertPoints(n: nat, oracle: seq<nat>, tenths: nat) returns (r: Option<(seq<nat>, seq<nat>)>)
    ensures |oracle| < n ==> r.None?
    ensures |oracle| >= n ==> r == Some((Points(Hits(oracle[..n], tenths)), oracle[n..]))
  {
    if |oracle| < n {
      return None;
    }
    ghost var h := Hits(oracle[..n], tenths);
    var points: seq<nat> := [];
    var i := 0;
    while i < n
      invariant 0 <= i <= n && points == Points(h[..i])
    {
      assert h[..i + 1][..i] == h[..i];
      if oracle[i] % 10 >= tenths {
        points := points + [i];
      }
      i := i + 1;
    }
    assert h[..n] == h;
    r := Some((points, oracle[n..]));
  }
}

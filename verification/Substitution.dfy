/**
 * Replacing a register's aliases inside a statement's text.
 *
 * The procedure makes one pass per alias over a body that it edits in place,
 * and keeps the ranges of inserted text so that a later pass skips them. The
 * reference is a single simultaneous replacement of word tokens.
 */
module Substitution {
  import opened Common

  // ------------------------------------------------------------------- words

  predicate WordChar(c: char) {
    'a' <= c <= 'z' || 'A' <= c <= 'Z' || '0' <= c <= '9' || c == '_'
  }

  predicate IsWord(s: string) {
    s != [] && forall i :: 0 <= i < |s| ==> WordChar(s[i])
  }

  /** `needle` stands at `i` with no word character on either side. */
  predicate WordAt(h: string, needle: string, i: nat) {
    && needle != [] && i + |needle| <= |h|
    && (forall k :: 0 <= k < |needle| ==> h[i + k] == needle[k])
    && (i == 0 || !WordChar(h[i - 1]))
    && (i + |needle| == |h| || !WordChar(h[i + |needle|]))
  }

  method FindWord(h: string, needle: string, start: nat) returns (r: Option<nat>)
    ensures r.Some? ==> needle != [] && r.value + |needle| <= |h|
    ensures r.Some? ==> start <= r.value && WordAt(h, needle, r.value)
    ensures r.Some? ==> forall i :: start <= i < r.value ==> !WordAt(h, needle, i)
    ensures r.None? ==> forall i :: start <= i ==> !WordAt(h, needle, i)
  {
    if needle == [] { return None; }
    var i := start;
    while i + |needle| <= |h|
      invariant start <= i
      invariant forall k :: start <= k < i ==> !WordAt(h, needle, k)
    {
      var window := h[i..i + |needle|];
      assert forall k :: 0 <= k < |needle| ==> window[k] == h[i + k];
      if window == needle {
        var beforeOk := i == 0 || !WordChar(h[i - 1]);
        var afterOk := i + |needle| == |h| || !WordChar(h[i + |needle|]);
        if beforeOk && afterOk { return Some(i); }
      }
      i := i + 1;
    }
    return None;
  }

  // ------------------------------------------------------ token-wise reference

  /** Length of the leading run of word characters. */
  function RunLength(s: string): (n: nat)
    ensures n <= |s|
  {
    if s == [] || !WordChar(s[0]) then 0 else 1 + RunLength(s[1..])
  }

  /** Maximal words and single other characters. */
  function Tokens(s: string): seq<string> {
    if s == [] then []
    else
      var n := RunLength(s);
      if n == 0 then [s[..1]] + Tokens(s[1..]) else [s[..n]] + Tokens(s[n..])
  }

  /** Every token that is an alias becomes the inserted text; all at once. */
  function Replaced(tokens: seq<string>, aliases: set<string>, ins: string): string {
    if tokens == [] then [] else (if tokens[0] in aliases then ins else tokens[0]) + Replaced(tokens[1..], aliases, ins)
  }

  function Wrapped(expr: string): string { "(" + expr + ")" }

  // ------------------------------------------------------------ edited bodies

  /** A character of the body; `fixed` once it came from a substitution. */
  datatype Cell = Cell(c: char, fixed: bool)

  function Chars(cells: seq<Cell>): (s: string)
    ensures |s| == |cells|
    ensures forall i :: 0 <= i < |s| ==> s[i] == cells[i].c
  {
    seq(|cells|, i requires 0 <= i < |cells| => cells[i].c)
  }

  function Marked(s: string, fixed: bool): (cells: seq<Cell>)
    ensures |cells| == |s|
    ensures forall i :: 0 <= i < |s| ==> cells[i] == Cell(s[i], fixed)
  {
    seq(|s|, i requires 0 <= i < |s| => Cell(s[i], fixed))
  }

  predicate Free(x: Cell) { !x.fixed && WordChar(x.c) }

  function FreeRun(cells: seq<Cell>): (n: nat)
    ensures n <= |cells|
    ensures forall i :: 0 <= i < n ==> Free(cells[i])
    ensures n < |cells| ==> !Free(cells[n])
  {
    if cells == [] || !Free(cells[0]) then 0 else 1 + FreeRun(cells[1..])
  }

  /** Width of the leading token. */
  function Width(cells: seq<Cell>): (n: nat)
    requires cells != []
    ensures 0 < n <= |cells|
  {
    if FreeRun(cells) == 0 then 1 else FreeRun(cells)
  }

  /** What the leading token becomes: a fixed or non-word character is copied, a free word is looked up. */
  function Piece(token: seq<Cell>, aliases: set<string>, ins: string): string
    requires token != []
  {
    if Free(token[0]) && Chars(token) in aliases then ins else Chars(token)
  }

  /** The replacement still to come. */
  function Rewrite(cells: seq<Cell>, aliases: set<string>, ins: string): string {
    if cells == [] then []
    else Piece(cells[..Width(cells)], aliases, ins) + Rewrite(cells[Width(cells)..], aliases, ins)
  }

  /** Plain text has nothing fixed: the pending rewrite is the token-wise replacement. */
  lemma {:induction false} RewriteIsTokenwise(s: string, aliases: set<string>, ins: string)
    requires forall a :: a in aliases ==> IsWord(a)
    ensures Rewrite(Marked(s, false), aliases, ins) == Replaced(Tokens(s), aliases, ins)
    decreases |s|
  {
    if s != [] {
      var cells := Marked(s, false);
      var n := Width(cells);
      SameRun(s);
      assert Chars(cells[..n]) == s[..n] && cells[n..] == Marked(s[n..], false);
      FirstToken(s, n);
      assert Piece(cells[..n], aliases, ins) == if s[..n] in aliases then ins else s[..n] by {
        assert cells[..n][0] == cells[0] && s[..n][0] == s[0];
      }
      hide Piece, Width, Tokens, Marked, Chars;
      RewriteIsTokenwise(s[n..], aliases, ins);
      RewriteStep(cells, aliases, ins);
    }
  }

  lemma {:induction false} FirstToken(s: string, n: nat)
    requires s != [] && n == (if RunLength(s) == 0 then 1 else RunLength(s))
    ensures n <= |s| && Tokens(s) == [s[..n]] + Tokens(s[n..])
  {
  }

  lemma {:induction false} SameRun(s: string)
    ensures FreeRun(Marked(s, false)) == RunLength(s)
  {
    if s != [] && WordChar(s[0]) {
      assert Marked(s, false)[1..] == Marked(s[1..], false);
      SameRun(s[1..]);
    }
  }

  // ----------------------------------------------------------- rewriting splits

  /** No free word straddles the seam between `x` and `y`. */
  ghost predicate Seam(x: seq<Cell>, y: seq<Cell>) {
    x != [] && y != [] ==> !Free(x[|x| - 1]) || !Free(y[0])
  }

  lemma {:induction false} RunAtSeam(x: seq<Cell>, y: seq<Cell>)
    requires x != [] && Seam(x, y)
    ensures FreeRun(x + y) == FreeRun(x)
  {
    if Free(x[0]) {
      assert (x + y)[1..] == x[1..] + y;
      if |x| > 1 { RunAtSeam(x[1..], y); } else { assert x[1..] + y == y; }
    }
  }

  lemma {:induction false} WidthAtSeam(x: seq<Cell>, y: seq<Cell>)
    requires x != [] && Seam(x, y)
    ensures Width(x + y) == Width(x)
    ensures (x + y)[Width(x)..] == x[Width(x)..] + y && (x + y)[..Width(x)] == x[..Width(x)]
    ensures Seam(x[Width(x)..], y)
  {
    RunAtSeam(x, y);
    assert (x + y)[0] == x[0];
  }

  lemma {:induction false} RewriteStep(cells: seq<Cell>, aliases: set<string>, ins: string)
    requires cells != []
    ensures Rewrite(cells, aliases, ins)
        == Piece(cells[..Width(cells)], aliases, ins) + Rewrite(cells[Width(cells)..], aliases, ins)
  {
  }

  lemma {:induction false} RewriteSplits(x: seq<Cell>, y: seq<Cell>, aliases: set<string>, ins: string)
    requires Seam(x, y)
    ensures Rewrite(x + y, aliases, ins) == Rewrite(x, aliases, ins) + Rewrite(y, aliases, ins)
    decreases |x|
  {
    if x == [] {
      assert x + y == y;
      assert [] + Rewrite(y, aliases, ins) == Rewrite(y, aliases, ins);
    } else {
      hide *;
      WidthAtSeam(x, y);
      var n := Width(x);
      calc {
        Rewrite(x + y, aliases, ins);
        { RewriteStep(x + y, aliases, ins); }
        Piece(x[..n], aliases, ins) + Rewrite(x[n..] + y, aliases, ins);
        { RewriteSplits(x[n..], y, aliases, ins); }
        Piece(x[..n], aliases, ins) + (Rewrite(x[n..], aliases, ins) + Rewrite(y, aliases, ins));
        { Associate(Piece(x[..n], aliases, ins), Rewrite(x[n..], aliases, ins), Rewrite(y, aliases, ins)); }
        (Piece(x[..n], aliases, ins) + Rewrite(x[n..], aliases, ins)) + Rewrite(y, aliases, ins);
        { RewriteStep(x, aliases, ins); }
        Rewrite(x, aliases, ins) + Rewrite(y, aliases, ins);
      }
    }
  }

  lemma {:induction false} Associate(a: string, b: string, c: string)
    ensures a + (b + c) == (a + b) + c
  {
  }

  lemma {:induction false} RewriteFixed(s: string, aliases: set<string>, ins: string)
    ensures Rewrite(Marked(s, true), aliases, ins) == s
  {
    if s != [] {
      assert Marked(s, true)[1..] == Marked(s[1..], true);
      RewriteFixed(s[1..], aliases, ins);
    }
  }

  lemma {:induction false} RewriteAlias(w: seq<Cell>, aliases: set<string>, ins: string)
    requires w != [] && (forall i :: 0 <= i < |w| ==> Free(w[i])) && Chars(w) in aliases
    ensures Rewrite(w, aliases, ins) == ins
  {
    assert FreeRun(w) == |w|;
    assert w[..|w|] == w;
  }

  // ------------------------------------------------------------ one in-place edit

  /** Inserted text is fenced off from original text by its parentheses. */
  ghost predicate Fenced(cells: seq<Cell>) {
    forall i, j :: 0 <= i < j < |cells| && j == i + 1 ==> FenceAt(cells[i], cells[j])
  }

  ghost predicate FenceAt(x: Cell, y: Cell) {
    (!x.fixed && y.fixed ==> y.c == '(') && (x.fixed && !y.fixed ==> x.c == ')')
  }

  /** An original, not yet replaced occurrence. */
  ghost predicate FreeAt(cells: seq<Cell>, needle: string, i: nat) {
    i < |cells| && !cells[i].fixed && WordAt(Chars(cells), needle, i)
  }

  function Edit(cells: seq<Cell>, pos: nat, len: nat, ins: string): seq<Cell>
    requires pos + len <= |cells|
  {
    cells[..pos] + Marked(ins, true) + cells[pos + len..]
  }

  predicate IsWrapped(ins: string) {
    |ins| >= 2 && ins[0] == '(' && ins[|ins| - 1] == ')'
  }

  lemma {:induction false} OccurrenceIsFree(cells: seq<Cell>, needle: string, pos: nat, k: nat)
    requires Fenced(cells) && IsWord(needle) && FreeAt(cells, needle, pos) && k < |needle|
    ensures Free(cells[pos + k]) && cells[pos + k].c == needle[k]
  {
    assert Chars(cells)[pos + k] == needle[k];
    if k > 0 {
      OccurrenceIsFree(cells, needle, pos, k - 1);
      assert FenceAt(cells[pos + k - 1], cells[pos + k]);
    }
  }

  lemma {:induction false} SwapMiddle(pre: seq<Cell>, x: seq<Cell>, y: seq<Cell>, post: seq<Cell>,
                                      aliases: set<string>, ins: string)
    requires Seam(pre, x + post) && Seam(pre, y + post) && Seam(x, post) && Seam(y, post)
    requires Rewrite(x, aliases, ins) == Rewrite(y, aliases, ins)
    ensures Rewrite(pre + (x + post), aliases, ins) == Rewrite(pre + (y + post), aliases, ins)
  {
    hide *;
    RewriteSplits(pre, x + post, aliases, ins);
    RewriteSplits(x, post, aliases, ins);
    RewriteSplits(pre, y + post, aliases, ins);
    RewriteSplits(y, post, aliases, ins);
  }

  lemma {:induction false} EditSeams(cells: seq<Cell>, needle: string, pos: nat, ins: string)
    requires IsWord(needle) && FreeAt(cells, needle, pos) && IsWrapped(ins)
    ensures Seam(cells[..pos], cells[pos..pos + |needle|] + cells[pos + |needle|..])
    ensures Seam(cells[..pos], Marked(ins, true) + cells[pos + |needle|..])
    ensures Seam(cells[pos..pos + |needle|], cells[pos + |needle|..])
    ensures Seam(Marked(ins, true), cells[pos + |needle|..])
  {
    if pos > 0 { assert !WordChar(Chars(cells)[pos - 1]); }
    if pos + |needle| < |cells| { assert !WordChar(Chars(cells)[pos + |needle|]); }
  }

  lemma {:induction false} OccurrenceRewrites(cells: seq<Cell>, needle: string, pos: nat, aliases: set<string>,
                                              ins: string)
    requires Fenced(cells) && IsWord(needle) && FreeAt(cells, needle, pos) && needle in aliases
    ensures Rewrite(cells[pos..pos + |needle|], aliases, ins) == ins
  {
    var occ := cells[pos..pos + |needle|];
    forall k | 0 <= k < |occ| ensures Free(occ[k]) && occ[k].c == needle[k] { OccurrenceIsFree(cells, needle, pos, k); }
    assert Chars(occ) == needle;
    RewriteAlias(occ, aliases, ins);
  }

  /** Editing an occurrence does not change what the whole body will become. */
  lemma {:induction false} EditKeepsGoal(cells: seq<Cell>, needle: string, pos: nat, aliases: set<string>, ins: string)
    requires Fenced(cells) && IsWord(needle) && FreeAt(cells, needle, pos) && needle in aliases && IsWrapped(ins)
    ensures Rewrite(Edit(cells, pos, |needle|, ins), aliases, ins) == Rewrite(cells, aliases, ins)
  {
    var pre, occ, post := cells[..pos], cells[pos..pos + |needle|], cells[pos + |needle|..];
    assert cells == pre + (occ + post) && Edit(cells, pos, |needle|, ins) == pre + (Marked(ins, true) + post);
    hide *;
    EditSeams(cells, needle, pos, ins);
    OccurrenceRewrites(cells, needle, pos, aliases, ins);
    RewriteFixed(ins, aliases, ins);
    SwapMiddle(pre, occ, Marked(ins, true), post, aliases, ins);
  }

  lemma {:induction false} EditFenced(cells: seq<Cell>, needle: string, pos: nat, ins: string)
    requires Fenced(cells) && IsWord(needle) && FreeAt(cells, needle, pos) && IsWrapped(ins)
    ensures Fenced(Edit(cells, pos, |needle|, ins))
  {
    var n, l := |needle|, |ins|;
    var r := Edit(cells, pos, n, ins);
    forall h, i | 0 <= h < i < |r| && i == h + 1
      ensures FenceAt(r[h], r[i])
    {
      if i < pos {
        assert FenceAt(cells[h], cells[i]);
      } else if i > pos + l {
        var j := i - l + n;
        assert r[i] == cells[j] && r[h] == cells[j - 1];
        assert FenceAt(cells[j - 1], cells[j]);
      }
    }
  }

  /** Where a position of the edited body was before the edit. */
  function Origin(pos: nat, n: nat, l: nat, q: nat): int {
    if q < pos then q else q - l + n
  }

  lemma {:induction false} NothingNewLeft(cells: seq<Cell>, needle: string, pos: nat, ins: string, word: string, q: nat)
    requires IsWord(needle) && FreeAt(cells, needle, pos) && IsWrapped(ins) && IsWord(word)
    requires q < pos && FreeAt(Edit(cells, pos, |needle|, ins), word, q)
    ensures FreeAt(cells, word, q)
  {
    var m := |word|;
    var r := Edit(cells, pos, |needle|, ins);
    assert forall i :: 0 <= i < pos ==> Chars(r)[i] == Chars(cells)[i];
    assert Chars(r)[pos] == '(';
    forall p | q <= p < q + m ensures WordChar(Chars(r)[p]) { assert Chars(r)[q + (p - q)] == word[p - q]; }
    assert Chars(r)[q + (m - 1)] == word[m - 1];
  }

  /** A word occurrence depends only on the text from the character before it. */
  lemma {:induction false} SameTail(g: string, h: string, word: string, q: nat, j: nat)
    requires 0 < q && 0 < j && WordAt(g, word, q) && j <= |h| && g[q - 1..] == h[j - 1..]
    ensures WordAt(h, word, j)
  {
    var t := g[q - 1..];
    assert forall k :: 0 <= k < |t| ==> t[k] == g[q - 1 + k] && t[k] == h[j - 1 + k];
    forall k | 0 <= k < |word| ensures h[j + k] == word[k] { assert t[k + 1] == g[q + k]; }
    assert t[0] == h[j - 1];
    if j + |word| < |h| { assert t[|word| + 1] == h[j + |word|]; }
  }

  lemma {:induction false} NothingNewRight(cells: seq<Cell>, needle: string, pos: nat, ins: string, word: string,
                                           q: nat)
    requires IsWord(needle) && FreeAt(cells, needle, pos) && IsWrapped(ins) && IsWord(word)
    requires q >= pos + |ins| && FreeAt(Edit(cells, pos, |needle|, ins), word, q)
    ensures FreeAt(cells, word, q - |ins| + |needle|)
  {
    var r := Edit(cells, pos, |needle|, ins);
    var j := q - |ins| + |needle|;
    assert Chars(r)[q + 0] == word[0];
    assert r[q] == cells[j];
    assert q > pos + |ins|;
    assert r[q - 1..] == cells[j - 1..];
    TailChars(r, q - 1);
    TailChars(cells, j - 1);
    SameTail(Chars(r), Chars(cells), word, q, j);
  }

  lemma {:induction false} TailChars(cells: seq<Cell>, p: nat)
    requires p <= |cells|
    ensures Chars(cells)[p..] == Chars(cells[p..])
  {
  }

  /** An edit creates no new original occurrence of any word. */
  lemma {:induction false} EditCreatesNothing(cells: seq<Cell>, needle: string, pos: nat, ins: string, word: string,
                                              q: nat)
    requires IsWord(needle) && FreeAt(cells, needle, pos) && IsWrapped(ins) && IsWord(word)
    requires FreeAt(Edit(cells, pos, |needle|, ins), word, q)
    ensures q < pos || q >= pos + |ins|
    ensures 0 <= Origin(pos, |needle|, |ins|, q) && FreeAt(cells, word, Origin(pos, |needle|, |ins|, q))
  {
    assert q < pos || q >= pos + |ins|;
    if q < pos {
      NothingNewLeft(cells, needle, pos, ins, word, q);
    } else {
      NothingNewRight(cells, needle, pos, ins, word, q);
    }
  }

  /** One token of a body without original occurrences is copied. */
  lemma {:induction false} TokenCopied(cells: seq<Cell>, aliases: set<string>, ins: string, p: nat)
    requires Fenced(cells) && p < |cells| && Seam(cells[..p], cells[p..])
    requires forall a, i :: a in aliases ==> !FreeAt(cells, a, i)
    ensures Piece(cells[p..][..Width(cells[p..])], aliases, ins) == Chars(cells[p..][..Width(cells[p..])])
  {
    if Free(cells[p]) {
      WholeWordIsOccurrence(cells, p, Width(cells[p..]));
    }
  }

  lemma {:induction false} NextSeam(cells: seq<Cell>, p: nat)
    requires p < |cells|
    ensures p + Width(cells[p..]) <= |cells|
    ensures Seam(cells[..p + Width(cells[p..])], cells[p + Width(cells[p..])..])
    ensures cells[p..][Width(cells[p..])..] == cells[p + Width(cells[p..])..]
    ensures Chars(cells[p..]) == Chars(cells[p..][..Width(cells[p..])]) + Chars(cells[p + Width(cells[p..])..])
  {
    var n := Width(cells[p..]);
    assert n < |cells[p..]| ==> cells[p..][n] == cells[p + n];
    assert cells[..p + n][p + n - 1] == cells[p..][n - 1];
  }

  /** With no original occurrence left there is nothing to rewrite. */
  lemma {:induction false} NothingLeft(cells: seq<Cell>, aliases: set<string>, ins: string, p: nat)
    requires Fenced(cells) && p <= |cells| && Seam(cells[..p], cells[p..])
    requires forall a, i :: a in aliases ==> !FreeAt(cells, a, i)
    ensures Rewrite(cells[p..], aliases, ins) == Chars(cells[p..])
    decreases |cells| - p
  {
    if p == |cells| {
      assert cells[p..] == [];
    } else {
      hide *;
      var rest, n := cells[p..], Width(cells[p..]);
      TokenCopied(cells, aliases, ins, p);
      NextSeam(cells, p);
      NothingLeft(cells, aliases, ins, p + n);
      calc {
        Rewrite(rest, aliases, ins);
        { RewriteStep(rest, aliases, ins); }
        Piece(rest[..n], aliases, ins) + Rewrite(rest[n..], aliases, ins);
        Chars(rest[..n]) + Chars(cells[p + n..]);
      }
    }
  }

  lemma {:induction false} WholeWordIsOccurrence(cells: seq<Cell>, p: nat, n: nat)
    requires Fenced(cells) && p < |cells| && Seam(cells[..p], cells[p..]) && Free(cells[p]) && n == FreeRun(cells[p..])
    ensures FreeAt(cells, Chars(cells[p..][..n]), p)
  {
    if p > 0 { assert FenceAt(cells[p - 1], cells[p]); }
    if p + n < |cells| {
      assert cells[p..][n - 1] == cells[p + n - 1] && cells[p..][n] == cells[p + n];
      assert FenceAt(cells[p + n - 1], cells[p + n]);
    }
  }

  // ------------------------------------------------------------------- regions

  type Region = (int, int)

  predicate InRegions(regions: seq<Region>, p: int) {
    exists i :: 0 <= i < |regions| && regions[i].0 <= p < regions[i].1
  }

  /** The recorded ranges are exactly the fixed characters. */
  ghost predicate RegionsMark(cells: seq<Cell>, regions: seq<Region>) {
    && (forall i :: 0 <= i < |regions| ==> 0 <= regions[i].0 < regions[i].1 <= |cells|)
    && (forall p :: 0 <= p < |cells| ==> (cells[p].fixed <==> InRegions(regions, p)))
  }

  function ShiftOne(r: Region, pos: int, delta: int): Region {
    if r.0 > pos then (r.0 + delta, r.1 + delta) else r
  }

  function Shift(regions: seq<Region>, pos: int, delta: int): seq<Region> {
    seq(|regions|, i requires 0 <= i < |regions| => ShiftOne(regions[i], pos, delta))
  }

  lemma {:induction false} RegionSide(cells: seq<Cell>, regions: seq<Region>, pos: nat, n: nat, i: nat)
    requires RegionsMark(cells, regions) && i < |regions| && pos + n <= |cells| && n > 0
    requires forall k :: pos <= k < pos + n ==> !cells[k].fixed
    ensures if regions[i].0 > pos then regions[i].0 >= pos + n else regions[i].1 <= pos
  {
    var r := regions[i];
    assert cells[r.0].fixed by { assert InRegions(regions, r.0); }
    assert !InRegions(regions, pos);
  }

  lemma {:induction false} EditMarks(cells: seq<Cell>, regions: seq<Region>, pos: nat, n: nat, ins: string, p: nat)
    requires RegionsMark(cells, regions) && pos + n <= |cells| && n > 0 && |ins| >= 2
    requires forall k :: pos <= k < pos + n ==> !cells[k].fixed
    requires p < |Edit(cells, pos, n, ins)|
    ensures Edit(cells, pos, n, ins)[p].fixed <==> InRegions(Shift(regions, pos, |ins| - n) + [(pos, pos + |ins|)], p)
  {
    var delta := |ins| - n;
    var all := Shift(regions, pos, delta) + [(pos, pos + |ins|)];
    var oldP := Origin(pos, n, |ins|, p);
    if pos <= p < pos + |ins| {
      assert all[|regions|] == (pos, pos + |ins|);
    } else {
      assert Edit(cells, pos, n, ins)[p] == cells[oldP];
      if InRegions(regions, oldP) {
        var i :| 0 <= i < |regions| && regions[i].0 <= oldP < regions[i].1;
        RegionSide(cells, regions, pos, n, i);
        assert all[i] == ShiftOne(regions[i], pos, delta);
      }
      if InRegions(all, p) {
        var i :| 0 <= i < |all| && all[i].0 <= p < all[i].1;
        RegionSide(cells, regions, pos, n, i);
        assert regions[i].0 <= oldP < regions[i].1;
      }
    }
  }

  lemma {:induction false} EditRegions(cells: seq<Cell>, regions: seq<Region>, pos: nat, n: nat, ins: string)
    requires RegionsMark(cells, regions) && pos + n <= |cells| && n > 0 && |ins| >= 2
    requires forall k :: pos <= k < pos + n ==> !cells[k].fixed
    ensures RegionsMark(Edit(cells, pos, n, ins), Shift(regions, pos, |ins| - n) + [(pos, pos + |ins|)])
  {
    var all := Shift(regions, pos, |ins| - n) + [(pos, pos + |ins|)];
    forall i | 0 <= i < |all|
      ensures 0 <= all[i].0 < all[i].1 <= |Edit(cells, pos, n, ins)|
    {
      if i < |regions| { RegionSide(cells, regions, pos, n, i); }
    }
    forall p | 0 <= p < |Edit(cells, pos, n, ins)|
      ensures Edit(cells, pos, n, ins)[p].fixed <==> InRegions(all, p)
    {
      EditMarks(cells, regions, pos, n, ins, p);
    }
  }

  // ------------------------------------------------------------- the procedure

  /** Invariant of the passes: `cells` explains the body, the ranges and the work left. */
  ghost predicate Explains(cells: seq<Cell>, body: string, regions: seq<Region>, aliases: set<string>, ins: string,
                           goal: string) {
    Chars(cells) == body && RegionsMark(cells, regions) && Fenced(cells) && Rewrite(cells, aliases, ins) == goal
  }

  ghost predicate NoneFrom(cells: seq<Cell>, needle: string, bound: int) {
    forall i: nat :: i < bound ==> !FreeAt(cells, needle, i)
  }

  ghost predicate Words(needles: seq<string>) {
    forall k :: 0 <= k < |needles| ==> IsWord(needles[k])
  }

  lemma {:induction false} EditChars(cells: seq<Cell>, pos: nat, n: nat, ins: string)
    requires pos + n <= |cells|
    ensures Chars(Edit(cells, pos, n, ins)) == Chars(cells)[..pos] + ins + Chars(cells)[pos + n..]
  {
  }

  lemma {:induction false} OccurrenceUnfixed(cells: seq<Cell>, needle: string, pos: nat)
    requires Fenced(cells) && IsWord(needle) && FreeAt(cells, needle, pos)
    ensures pos + |needle| <= |cells| && forall k :: pos <= k < pos + |needle| ==> !cells[k].fixed
  {
    forall k | pos <= k < pos + |needle| ensures !cells[k].fixed { OccurrenceIsFree(cells, needle, pos, k - pos); }
  }

  lemma {:induction false} FreeHere(cells: seq<Cell>, regions: seq<Region>, needle: string, pos: nat)
    requires RegionsMark(cells, regions) && WordAt(Chars(cells), needle, pos) && !InRegions(regions, pos)
    ensures FreeAt(cells, needle, pos)
  {
  }

  /** One replacement: body, ranges and the explaining cells move together. */
  lemma {:induction false} ReplaceKeeps(cells: seq<Cell>, body: string, regions: seq<Region>, aliases: set<string>,
                                        ins: string, goal: string, needle: string, pos: nat)
    requires Explains(cells, body, regions, aliases, ins, goal)
    requires IsWord(needle) && needle in aliases && IsWrapped(ins)
    requires WordAt(body, needle, pos) && !InRegions(regions, pos)
    ensures Explains(Edit(cells, pos, |needle|, ins), body[..pos] + ins + body[pos + |needle|..],
                     Shift(regions, pos, |ins| - |needle|) + [(pos, pos + |ins|)], aliases, ins, goal)
  {
    hide Rewrite, Fenced, RegionsMark, Edit, Shift, Chars, FreeAt, WordAt;
    FreeHere(cells, regions, needle, pos);
    OccurrenceUnfixed(cells, needle, pos);
    EditRegions(cells, regions, pos, |needle|, ins);
    EditKeepsGoal(cells, needle, pos, aliases, ins);
    EditFenced(cells, needle, pos, ins);
    EditChars(cells, pos, |needle|, ins);
  }

  lemma {:induction false} ReplaceKeepsNone(cells: seq<Cell>, needle: string, pos: nat, ins: string, word: string,
                                            bound: int)
    requires IsWord(needle) && FreeAt(cells, needle, pos) && IsWrapped(ins) && IsWord(word)
    requires NoneFrom(cells, word, bound) && (bound >= |cells| || bound == pos)
    ensures NoneFrom(Edit(cells, pos, |needle|, ins), word, if bound == pos then pos + |ins|
        else |Edit(cells, pos, |needle|, ins)|)
  {
    var r := Edit(cells, pos, |needle|, ins);
    forall i: nat | i < (if bound == pos then pos + |ins| else |r|)
      ensures !FreeAt(r, word, i)
    {
      if FreeAt(r, word, i) { EditCreatesNothing(cells, needle, pos, ins, word, i); }
    }
  }

  /** Skipping over an occurrence inside inserted text misses nothing. */
  lemma {:induction false} SkipKeepsNone(cells: seq<Cell>, regions: seq<Region>, needle: string, from: nat, pos: nat)
    requires RegionsMark(cells, regions) && IsWord(needle) && NoneFrom(cells, needle, from) && from <= pos
    requires WordAt(Chars(cells), needle, pos) && InRegions(regions, pos)
    requires forall i :: from <= i < pos ==> !WordAt(Chars(cells), needle, i)
    ensures NoneFrom(cells, needle, pos + |needle|)
  {
    forall i: nat | i < pos + |needle|
      ensures !FreeAt(cells, needle, i)
    {
      if i > pos { assert Chars(cells)[pos + (i - 1 - pos)] == needle[i - 1 - pos]; }
    }
  }

  lemma {:induction false} ReachKeepsNone(cells: seq<Cell>, needle: string, from: nat, pos: nat)
    requires NoneFrom(cells, needle, from) && forall i :: from <= i < pos ==> !WordAt(Chars(cells), needle, i)
    ensures NoneFrom(cells, needle, pos)
  {
  }

  ghost predicate StillNone(before: seq<Cell>, after: seq<Cell>) {
    forall w :: IsWord(w) && NoneFrom(before, w, |before|) ==> NoneFrom(after, w, |after|)
  }

  lemma {:induction false} ReplaceStillNone(before: seq<Cell>, cells: seq<Cell>, needle: string, pos: nat, ins: string)
    requires StillNone(before, cells) && IsWord(needle) && FreeAt(cells, needle, pos) && IsWrapped(ins)
    ensures StillNone(before, Edit(cells, pos, |needle|, ins))
  {
    forall w | IsWord(w) && NoneFrom(before, w, |before|)
      ensures NoneFrom(Edit(cells, pos, |needle|, ins), w, |Edit(cells, pos, |needle|, ins)|)
    {
      ReplaceKeepsNone(cells, needle, pos, ins, w, |cells|);
    }
  }

  /** What one pass has achieved when its cursor stands at `from`. */
  ghost predicate PassState(before: seq<Cell>, cells: seq<Cell>, body: string, regions: seq<Region>,
                            aliases: set<string>, ins: string, goal: string, needle: string, from: nat) {
    && Explains(cells, body, regions, aliases, ins, goal)
    && NoneFrom(cells, needle, from) && StillNone(before, cells)
  }

  lemma {:induction false} PassReplace(before: seq<Cell>, cells: seq<Cell>, body: string, regions: seq<Region>,
                                       aliases: set<string>, ins: string, goal: string, needle: string, from: nat,
                                       pos: nat)
    requires PassState(before, cells, body, regions, aliases, ins, goal, needle, from)
    requires IsWord(needle) && needle in aliases && IsWrapped(ins) && from <= pos
    requires WordAt(body, needle, pos) && !InRegions(regions, pos)
    requires forall i :: from <= i < pos ==> !WordAt(body, needle, i)
    ensures FreeAt(cells, needle, pos)
    ensures PassState(before, Edit(cells, pos, |needle|, ins), body[..pos] + ins + body[pos + |needle|..],
                      Shift(regions, pos, |ins| - |needle|) + [(pos, pos + |ins|)], aliases, ins, goal, needle,
                      pos + |ins|)
  {
    hide Rewrite, WordAt, Fenced, RegionsMark, Edit, Shift, NoneFrom, StillNone, IsWord, IsWrapped, FreeAt, InRegions;
    ReplaceKeeps(cells, body, regions, aliases, ins, goal, needle, pos);
    FreeHere(cells, regions, needle, pos);
    ReachKeepsNone(cells, needle, from, pos);
    ReplaceKeepsNone(cells, needle, pos, ins, needle, pos);
    ReplaceStillNone(before, cells, needle, pos, ins);
  }

  lemma {:induction false} PassSkip(before: seq<Cell>, cells: seq<Cell>, body: string, regions: seq<Region>,
                                    aliases: set<string>, ins: string, goal: string, needle: string, from: nat,
                                    pos: nat)
    requires PassState(before, cells, body, regions, aliases, ins, goal, needle, from) && IsWord(needle) && from <= pos
    requires WordAt(body, needle, pos) && InRegions(regions, pos)
    requires forall i :: from <= i < pos ==> !WordAt(body, needle, i)
    ensures PassState(before, cells, body, regions, aliases, ins, goal, needle, pos + |needle|)
  {
    hide Rewrite, WordAt, Fenced, RegionsMark, NoneFrom, StillNone, IsWord, InRegions;
    SkipKeepsNone(cells, regions, needle, from, pos);
  }

  lemma {:induction false} PassStart(before: seq<Cell>, body: string, regions: seq<Region>, aliases: set<string>,
                                     ins: string, goal: string, needle: string)
    requires Explains(before, body, regions, aliases, ins, goal)
    ensures PassState(before, before, body, regions, aliases, ins, goal, needle, 0)
  {
  }

  lemma {:induction false} PassBounds(before: seq<Cell>, cells: seq<Cell>, body: string, regions: seq<Region>,
                                      aliases: set<string>, ins: string, goal: string, needle: string, from: nat)
    requires PassState(before, cells, body, regions, aliases, ins, goal, needle, from)
    ensures |cells| == |body|
  {
  }

  lemma {:induction false} PassEnd(before: seq<Cell>, cells: seq<Cell>, body: string, regions: seq<Region>,
                                   aliases: set<string>, ins: string, goal: string, needle: string, from: nat)
    requires PassState(before, cells, body, regions, aliases, ins, goal, needle, from)
    requires forall i :: from <= i ==> !WordAt(body, needle, i)
    ensures PassState(before, cells, body, regions, aliases, ins, goal, needle, |body|)
  {
    hide Rewrite, Fenced, RegionsMark, StillNone;
    ReachKeepsNone(cells, needle, from, |body|);
  }

  // ------------------------------------------------------ one needle, any needle

  /** The left-to-right scan: each word-bounded occurrence is replaced, and the scan goes on behind the insertion. */
  function Sweep(body: string, needle: string, ins: string, from: nat): string
    decreases |body| - from
  {
    if needle == [] || from + |needle| > |body| then body
    else if WordAt(body, needle, from) then
      Sweep(body[..from] + ins + body[from + |needle|..], needle, ins, from + |ins|)
    else Sweep(body, needle, ins, from + 1)
  }

  lemma {:induction false} SweepSkips(body: string, needle: string, ins: string, from: nat, pos: nat)
    requires from <= pos && forall i :: from <= i < pos ==> !WordAt(body, needle, i)
    ensures Sweep(body, needle, ins, from) == Sweep(body, needle, ins, pos)
    decreases pos - from
  {
    if from < pos { SweepSkips(body, needle, ins, from + 1, pos); }
  }

  lemma {:induction false} SweepEnds(body: string, needle: string, ins: string, from: nat)
    requires forall i :: from <= i ==> !WordAt(body, needle, i)
    ensures Sweep(body, needle, ins, from) == body
  {
    SweepSkips(body, needle, ins, from, from + |body| + 1);
  }

  ghost predicate RegionsBelow(regions: seq<Region>, from: nat) {
    forall i :: 0 <= i < |regions| ==> regions[i].0 < regions[i].1 <= from
  }

  lemma {:induction false} BelowIsOutside(regions: seq<Region>, from: nat, pos: nat)
    requires RegionsBelow(regions, from) && from <= pos
    ensures !InRegions(regions, pos)
  {
  }

  lemma {:induction false} BelowGrows(regions: seq<Region>, from: nat, pos: nat, delta: int, end: nat)
    requires RegionsBelow(regions, from) && from <= pos < end
    ensures RegionsBelow(Shift(regions, pos, delta) + [(pos, end)], end)
  {
    var all := Shift(regions, pos, delta) + [(pos, end)];
    forall i | 0 <= i < |all| ensures all[i].0 < all[i].1 <= end {
      if i < |regions| { assert all[i] == ShiftOne(regions[i], pos, delta); }
    }
  }

  ghost predicate OccursIn(body: string, needle: string) {
    exists p: nat :: WordAt(body, needle, p)
  }

  /** A first pass has no ranges to skip: it is the plain scan. */
  ghost predicate Scanning(body: string, newBody: string, regions: seq<Region>, needle: string, ins: string,
                           from: nat, hit: bool)
  {
    && RegionsBelow(regions, from)
    && Sweep(body, needle, ins, 0) == Sweep(newBody, needle, ins, from)
    && (hit ==> OccursIn(body, needle))
    && (!hit ==> newBody == body && forall i: nat :: i < from ==> !WordAt(body, needle, i))
  }

  lemma {:induction false} ScanReplaces(body: string, newBody: string, regions: seq<Region>, needle: string,
                                        ins: string, from: nat, hit: bool, pos: nat)
    requires Scanning(body, newBody, regions, needle, ins, from, hit) && from <= pos && WordAt(newBody, needle, pos)
    requires (forall i :: from <= i < pos ==> !WordAt(newBody, needle, i)) && |ins| > 0
    ensures !InRegions(regions, pos)
    ensures Scanning(body, newBody[..pos] + ins + newBody[pos + |needle|..],
                     Shift(regions, pos, |ins| - |needle|) + [(pos, pos + |ins|)], needle, ins, pos + |ins|, true)
  {
    hide WordAt, Shift, InRegions, RegionsBelow;
    BelowIsOutside(regions, from, pos);
    BelowGrows(regions, from, pos, |ins| - |needle|, pos + |ins|);
    SweepSkips(newBody, needle, ins, from, pos);
    SweepStep(newBody, needle, ins, pos);
    hide Sweep;
    assert OccursIn(body, needle);
  }

  lemma {:induction false} ScanStarts(body: string, needle: string, ins: string)
    ensures Scanning(body, body, [], needle, ins, 0, false)
  {
  }

  lemma {:induction false} SweepStep(body: string, needle: string, ins: string, pos: nat)
    requires WordAt(body, needle, pos)
    ensures pos + |needle| <= |body|
    ensures Sweep(body, needle, ins, pos)
         == Sweep(body[..pos] + ins + body[pos + |needle|..], needle, ins, pos + |ins|)
  {
  }

  lemma {:induction false} ScanEnds(body: string, newBody: string, regions: seq<Region>, needle: string, ins: string,
                                    from: nat, hit: bool)
    requires Scanning(body, newBody, regions, needle, ins, from, hit)
    requires forall i :: from <= i ==> !WordAt(newBody, needle, i)
    ensures newBody == Sweep(body, needle, ins, 0) && (hit <==> OccursIn(body, needle))
  {
    hide WordAt, RegionsBelow;
    SweepEnds(newBody, needle, ins, from);
    hide Sweep;
  }

  /** One pass for one needle. When tracked (every needle is a word) it replaces exactly the original occurrences. */
  method Pass(body: string, regions: seq<Region>, needle: string, expr: string, ghost tracked: bool,
              ghost before: seq<Cell>, ghost aliases: set<string>, ghost goal: string)
    returns (newBody: string, newRegions: seq<Region>, hit: bool, ghost cells: seq<Cell>)
    requires tracked
        ==> IsWord(needle) && needle in aliases && Explains(before, body, regions, aliases, Wrapped(expr), goal)
    ensures tracked ==> PassState(before, cells, newBody, newRegions, aliases, Wrapped(expr), goal, needle, |newBody|)
    ensures !hit ==> newBody == body && newRegions == regions && cells == before
    ensures tracked && hit ==> exists p :: FreeAt(before, needle, p)
    ensures regions == [] ==> newBody == Sweep(body, needle, Wrapped(expr), 0) && (hit <==> OccursIn(body, needle))
  {
    hide PassState, Explains, WordAt, FreeAt, Edit, IsWord, InRegions, Shift, Scanning, Sweep, OccursIn;
    ghost var first := regions == [];
    if first { ScanStarts(body, needle, Wrapped(expr)); }
    newBody, newRegions, hit, cells := body, regions, false, before;
    var searchFrom := 0;
    if tracked { PassStart(before, body, regions, aliases, Wrapped(expr), goal, needle); }
    while true
      invariant 0 <= searchFrom <= |newBody|
      invariant tracked
          ==> PassState(before, cells, newBody, newRegions, aliases, Wrapped(expr), goal, needle, searchFrom)
      invariant !hit ==> newBody == body && newRegions == regions && cells == before
      invariant tracked && hit ==> exists p :: FreeAt(before, needle, p)
      invariant first ==> Scanning(body, newBody, newRegions, needle, Wrapped(expr), searchFrom, hit)
      decreases |newBody| - searchFrom
    {
      var found := FindWord(newBody, needle, searchFrom);
      if found.None? {
        if first { ScanEnds(body, newBody, newRegions, needle, Wrapped(expr), searchFrom, hit); }
        if tracked { PassEnd(before, cells, newBody, newRegions, aliases, Wrapped(expr), goal, needle, searchFrom); }
        break;
      }
      var pos := found.value;
      if first { ScanReplaces(body, newBody, newRegions, needle, Wrapped(expr), searchFrom, hit, pos); }
      if InRegions(newRegions, pos) {
        if tracked { PassSkip(before, cells, newBody, newRegions, aliases, Wrapped(expr), goal, needle, searchFrom,
            pos); }
        searchFrom := pos + |needle|;
        continue;
      }
      var ins := Wrapped(expr);
      if tracked {
        PassReplace(before, cells, newBody, newRegions, aliases, ins, goal, needle, searchFrom, pos);
        PassBounds(before, cells, newBody, newRegions, aliases, ins, goal, needle, searchFrom);
        cells := Edit(cells, pos, |needle|, ins);
      }
      newRegions := Shift(newRegions, pos, |ins| - |needle|) + [(pos, pos + |ins|)];
      newBody := newBody[..pos] + ins + newBody[pos + |needle|..];
      hit := true;
      searchFrom := pos + |ins|;
    }
  }

  // ---------------------------------------------------------------- all passes

  function AliasSet(needles: seq<string>): set<string> {
    set k | 0 <= k < |needles| :: needles[k]
  }

  ghost predicate Occurs(body: string, needles: seq<string>) {
    exists k, i :: 0 <= k < |needles| && WordAt(body, needles[k], i)
  }

  ghost predicate NoneOf(cells: seq<Cell>, needles: seq<string>, n: nat) {
    n <= |needles| && forall k :: 0 <= k < n ==> NoneFrom(cells, needles[k], |cells|)
  }

  lemma {:induction false} PlainExplains(body: string, needles: seq<string>, expr: string)
    requires Words(needles)
    ensures Explains(Marked(body, false), body, [], AliasSet(needles), Wrapped(expr),
        Replaced(Tokens(body), AliasSet(needles), Wrapped(expr)))
  {
    RewriteIsTokenwise(body, AliasSet(needles), Wrapped(expr));
    hide Rewrite, Replaced, Tokens;
  }

  lemma {:induction false} AllDone(cells: seq<Cell>, body: string, regions: seq<Region>, needles: seq<string>,
                                   ins: string, goal: string)
    requires Explains(cells, body, regions, AliasSet(needles), ins, goal) && NoneOf(cells, needles, |needles|)
    ensures body == goal
  {
    forall a, i | a in AliasSet(needles) ensures !FreeAt(cells, a, i) {
      var k :| 0 <= k < |needles| && needles[k] == a;
      assert NoneFrom(cells, needles[k], |cells|);
    }
    assert cells[0..] == cells;
    hide Rewrite;
    NothingLeft(cells, AliasSet(needles), ins, 0);
  }

  lemma {:induction false} PassAdvances(before: seq<Cell>, cells: seq<Cell>, body: string, regions: seq<Region>,
                                        aliases: set<string>, ins: string, goal: string, needles: seq<string>, n: nat)
    requires n < |needles| && Words(needles) && NoneOf(before, needles, n)
    requires PassState(before, cells, body, regions, aliases, ins, goal, needles[n], |body|)
    ensures Explains(cells, body, regions, aliases, ins, goal) && NoneOf(cells, needles, n + 1)
  {
    hide Rewrite, Fenced, RegionsMark, NoneFrom, IsWord;
    assert |cells| == |body|;
  }

  /**
   * Whatever the order of the needles, the in-place passes with their shifting ranges give the
   * one simultaneous token-wise replacement, and report a substitution exactly when some needle
   * occurs as a word.
   */
  method SubstituteBody(body: string, needles: seq<string>, expr: string) returns (newBody: string, substituted: bool)
    ensures Words(needles) ==> newBody == Replaced(Tokens(body), AliasSet(needles), Wrapped(expr))
    ensures |needles| == 1 ==> newBody == Sweep(body, needles[0], Wrapped(expr), 0)
    ensures substituted <==> Occurs(body, needles)
    ensures !substituted ==> newBody == body
  {
    hide Explains, PassState, Replaced, Tokens, Marked, NoneOf, Occurs, FreeAt, IsWord, Sweep, OccursIn;
    ghost var aliases, ins := AliasSet(needles), Wrapped(expr);
    ghost var goal := Replaced(Tokens(body), aliases, ins);
    ghost var words := Words(needles);
    var regions: seq<Region> := [];
    newBody, substituted := body, false;
    ghost var cells := Marked(body, false);
    if words { PlainExplains(body, needles, expr); NoneYet(cells, needles); }
    for n := 0 to |needles|
      invariant !substituted ==> newBody == body && cells == Marked(body, false) && regions == []
      invariant substituted <==> OccursBelow(body, needles, n)
      invariant n == 0 ==> !substituted
      invariant n == 1 ==> newBody == Sweep(body, needles[0], ins, 0)
      invariant words ==> Explains(cells, newBody, regions, aliases, ins, goal) && NoneOf(cells, needles, n)
    {
      ghost var before := cells;
      assert needles[n] in aliases;
      var hit;
      newBody, regions, hit, cells := Pass(newBody, regions, needles[n], expr, words, before, aliases, goal);
      if words {
        PassAdvances(before, cells, newBody, regions, aliases, ins, goal, needles, n);
      }
      OccursNext(body, needles, n);
      substituted := substituted || hit;
    }
    OccursAll(body, needles);
    if words { AllDone(cells, newBody, regions, needles, ins, goal); }
  }

  ghost predicate OccursBelow(body: string, needles: seq<string>, n: nat) {
    exists k :: 0 <= k < n && k < |needles| && OccursIn(body, needles[k])
  }

  lemma {:induction false} OccursNext(body: string, needles: seq<string>, n: nat)
    requires n < |needles|
    ensures OccursBelow(body, needles, n + 1) <==> OccursBelow(body, needles, n) || OccursIn(body, needles[n])
  {
    hide OccursIn;
  }

  lemma {:induction false} OccursAll(body: string, needles: seq<string>)
    ensures OccursBelow(body, needles, |needles|) <==> Occurs(body, needles)
  {
    hide WordAt;
    if Occurs(body, needles) {
      var k, i: nat :| 0 <= k < |needles| && WordAt(body, needles[k], i);
      assert OccursIn(body, needles[k]);
    }
  }

  lemma {:induction false} NoneYet(cells: seq<Cell>, needles: seq<string>)
    ensures NoneOf(cells, needles, 0)
  {
  }

  /** A body without the needles is its own replacement. */
  lemma {:induction false} NothingToReplace(body: string, needles: seq<string>, ins: string)
    requires Words(needles) && !Occurs(body, needles)
    ensures Replaced(Tokens(body), AliasSet(needles), ins) == body
  {
    var cells := Marked(body, false);
    assert Chars(cells) == body && cells[0..] == cells;
    forall a, i: nat | a in AliasSet(needles) ensures !FreeAt(cells, a, i) {
      var k :| 0 <= k < |needles| && needles[k] == a;
      assert !WordAt(body, needles[k], i);
    }
    hide Rewrite, Replaced, Tokens;
    NothingLeft(cells, AliasSet(needles), ins, 0);
    RewriteIsTokenwise(body, AliasSet(needles), ins);
  }
}

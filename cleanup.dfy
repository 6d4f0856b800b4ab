/**
 * The regular-expression rewrites the pages apply to the extracted payload
 * before handing it to `JSON.parse`, and the two cleanup chains built from
 * them: the long chain of the reply page and the short chain shared by the
 * alibi and overthink pages.
 */
module Cleanup {
  import opened JsString

  /** Every whitespace character left is a plain space. */
  predicate OnlyPlainSpaces(s: string) {
    Avoids(s, Whitespace - {' '})
  }

  /** The characters the content theorems ignore: whitespace and the backslash. */
  const Blank: set<char> := Whitespace + {'\\'}

  /** The punctuation the gap rewrites look for is not whitespace. */
  lemma PunctuationIsNotSpace()
    ensures !IsSpace('"') && !IsSpace('{') && !IsSpace('}') && !IsSpace(',')
  {
  }

  /** `s.replace(/\s+/g, ' ')`: every maximal whitespace run becomes one space. */
  function CollapseSpaces(s: string): (r: string)
    ensures |r| <= |s|
    ensures OnlyPlainSpaces(r)
    ensures r == [] <==> s == []
    ensures r != [] ==> (IsSpace(r[0]) <==> IsSpace(s[0]))
    ensures forall i :: 0 <= i < |r| - 1 ==> !(IsSpace(r[i]) && IsSpace(r[i + 1]))
    decreases |s|
  {
    if s == [] then []
    else if IsSpace(s[0]) then
      var n := LeadingSpaces(s);
      " " + CollapseSpaces(s[n..])
    else [s[0]] + CollapseSpaces(s[1..])
  }

  /** Collapsing whitespace leaves every other character where it was. */
  lemma {:induction false} CollapseKeepsText(s: string)
    ensures Remove(CollapseSpaces(s), Whitespace) == Remove(s, Whitespace)
    decreases |s|
  {
    if s != [] {
      if IsSpace(s[0]) {
        var n := LeadingSpaces(s);
        CollapseKeepsText(s[n..]);
        RemoveLeading(s, n, Whitespace);
        RemoveLeading(" " + CollapseSpaces(s[n..]), 1, Whitespace);
        assert (" " + CollapseSpaces(s[n..]))[1..] == CollapseSpaces(s[n..]);
      } else {
        CollapseKeepsText(s[1..]);
      }
    }
  }

  /**
   * A whitespace run between two non-blank neighbours becomes exactly one
   * space, and the text on either side is collapsed on its own.
   */
  lemma {:induction false} CollapseRun(x: string, w: string, y: string)
    requires x == [] || !IsSpace(x[|x| - 1])
    requires w != [] && forall i :: 0 <= i < |w| ==> IsSpace(w[i])
    requires y == [] || !IsSpace(y[0])
    ensures CollapseSpaces(x + w + y) == CollapseSpaces(x) + " " + CollapseSpaces(y)
    decreases |x|
  {
    if x == [] {
      CollapseRunAlone(x, w, y);
    } else if IsSpace(x[0]) {
      var k := LeadingSpaces(x);
      assert k < |x|;
      CollapseRun(x[k..], w, y);
      assert x == x[..k] + x[k..];
      CollapseRunAfterSpaces(x[..k], x[k..], w, y);
    } else {
      CollapseRun(x[1..], w, y);
      assert x == [x[0]] + x[1..];
      CollapseRunAfterChar(x[0], x[1..], w, y);
    }
  }

  lemma CollapseRunAlone(x: string, w: string, y: string)
    requires x == []
    requires w != [] && forall i :: 0 <= i < |w| ==> IsSpace(w[i])
    requires y == [] || !IsSpace(y[0])
    ensures CollapseSpaces(x + w + y) == CollapseSpaces(x) + " " + CollapseSpaces(y)
  {
    assert x + w + y == w + y;
    CollapseSpacesHead(w, y);
  }

  lemma CollapseRunAfterSpaces(v: string, t: string, w: string, y: string)
    requires v != [] && forall i :: 0 <= i < |v| ==> IsSpace(v[i])
    requires t != [] && !IsSpace(t[0])
    requires CollapseSpaces(t + w + y) == CollapseSpaces(t) + " " + CollapseSpaces(y)
    ensures CollapseSpaces(v + t + w + y) == CollapseSpaces(v + t) + " " + CollapseSpaces(y)
  {
    var u := t + w + y;
    assert v + t + w + y == v + u && u[0] == t[0];
    CollapseSpacesHead(v, u);
    CollapseSpacesHead(v, t);
    Prefixed(" ", CollapseSpaces(t), CollapseSpaces(y));
  }

  /** A whitespace run before a non-blank character (or the end) becomes one space. */
  lemma CollapseSpacesHead(w: string, u: string)
    requires w != [] && forall i :: 0 <= i < |w| ==> IsSpace(w[i])
    requires u == [] || !IsSpace(u[0])
    ensures CollapseSpaces(w + u) == " " + CollapseSpaces(u)
  {
    var s := w + u;
    LeadingSpacesExact(s, |w|);
    assert s[|w|..] == u;
  }

  lemma CollapseRunAfterChar(c: char, t: string, w: string, y: string)
    requires !IsSpace(c)
    requires CollapseSpaces(t + w + y) == CollapseSpaces(t) + " " + CollapseSpaces(y)
    ensures CollapseSpaces([c] + t + w + y) == CollapseSpaces([c] + t) + " " + CollapseSpaces(y)
  {
    var u := t + w + y;
    assert [c] + t + w + y == [c] + u;
    CollapseCons(c, u);
    CollapseCons(c, t);
    Prefixed([c], CollapseSpaces(t), CollapseSpaces(y));
  }

  lemma CollapseCons(c: char, u: string)
    requires !IsSpace(c)
    ensures CollapseSpaces([c] + u) == [c] + CollapseSpaces(u)
  {
    assert ([c] + u)[1..] == u;
  }

  lemma Prefixed(c: string, a: string, b: string)
    ensures c + (a + " " + b) == (c + a) + " " + b
  {
  }

  /**
   * `s.replace(/A\s+B/g, 'AB')` for non-blank characters `a` and `b`: an
   * `a`, a non-empty whitespace run and a `b` lose the run. Matches are
   * taken left to right and do not overlap; since `\s+` cannot end on `b`,
   * the greedy run either reaches `b` or the match fails.
   */
  function DropGap(s: string, a: char, b: char): (r: string)
    requires !IsSpace(a) && !IsSpace(b)
    ensures |r| <= |s|
    ensures s != [] ==> r != [] && r[0] == s[0]
    decreases |s|
  {
    if s == [] then []
    else
      var n := LeadingSpaces(s[1..]);
      if s[0] == a && n > 0 && 1 + n < |s| && s[1 + n] == b then
        [a, b] + DropGap(s[2 + n..], a, b)
      else [s[0]] + DropGap(s[1..], a, b)
  }

  lemma {:induction false} DropGapKeepsText(s: string, a: char, b: char)
    requires !IsSpace(a) && !IsSpace(b)
    ensures Remove(DropGap(s, a, b), Whitespace) == Remove(s, Whitespace)
    decreases |s|
  {
    if s != [] {
      var n := LeadingSpaces(s[1..]);
      if s[0] == a && n > 0 && 1 + n < |s| && s[1 + n] == b {
        var rest := s[2 + n..];
        DropGapKeepsText(rest, a, b);
        GapText(s, n, a, b);
      } else {
        DropGapKeepsText(s[1..], a, b);
      }
    }
  }

  /** Dropping gaps introduces no character. */
  lemma {:induction false} DropGapAvoids(s: string, a: char, b: char, cs: set<char>)
    requires !IsSpace(a) && !IsSpace(b) && Avoids(s, cs)
    ensures Avoids(DropGap(s, a, b), cs)
    decreases |s|
  {
    if s != [] {
      var n := LeadingSpaces(s[1..]);
      if s[0] == a && n > 0 && 1 + n < |s| && s[1 + n] == b {
        var t := s[2 + n..];
        assert forall i :: 0 <= i < |t| ==> t[i] == s[2 + n + i];
        DropGapAvoids(t, a, b, cs);
      } else {
        assert forall i :: 0 <= i < |s[1..]| ==> s[1..][i] == s[i + 1];
        DropGapAvoids(s[1..], a, b, cs);
      }
    }
  }

  /** `a`, `n` blanks, `b`, rest: without whitespace, that is `a`, `b`, rest. */
  lemma GapText(s: string, n: nat, a: char, b: char)
    requires !IsSpace(a) && !IsSpace(b)
    requires 1 + n < |s| && s[0] == a && s[1 + n] == b
    requires forall i :: 0 <= i < n ==> IsSpace(s[1..][i])
    ensures Remove(s, Whitespace) == [a, b] + Remove(s[2 + n..], Whitespace)
  {
    var t := s[1..];
    var u := t[n..];
    RemoveCons(s, Whitespace);
    RemoveLeading(t, n, Whitespace);
    GapParts(s, n);
    RemoveCons(u, Whitespace);
    PairConcat(a, b, Remove(s[2 + n..], Whitespace));
  }

  lemma GapParts(s: string, n: nat)
    requires 1 + n < |s|
    ensures s[1..][n..][0] == s[1 + n]
    ensures s[1..][n..][1..] == s[2 + n..]
  {
  }

  lemma PairConcat(a: char, b: char, r: string)
    ensures [a] + ([b] + r) == [a, b] + r
  {
  }

  /** `s` starts with `a`, a non-empty whitespace run and `b`: a match of `/A\s+B/`. */
  predicate GapAtHead(s: string, a: char, b: char) {
    s != [] && s[0] == a &&
    var n := LeadingSpaces(s[1..]);
    n > 0 && 1 + n < |s| && s[1 + n] == b
  }

  /** No position of `s` starts an `a`, a whitespace run and a `b`. */
  predicate NoGap(s: string, a: char, b: char) {
    forall i :: 0 <= i < |s| ==> !GapAtHead(s[i..], a, b)
  }

  lemma NoGapCons(s: string, a: char, b: char)
    requires s != []
    ensures NoGap(s, a, b) <==> !GapAtHead(s, a, b) && NoGap(s[1..], a, b)
  {
    assert s[0..] == s;
    assert forall i :: 0 <= i < |s| - 1 ==> s[1..][i..] == s[i + 1..];
    if !GapAtHead(s, a, b) && NoGap(s[1..], a, b) {
      forall i | 0 <= i < |s| ensures !GapAtHead(s[i..], a, b) {
        if i > 0 {
          assert s[i..] == s[1..][i - 1..];
        }
      }
    }
  }

  lemma NoGapSuffix(s: string, k: nat, a: char, b: char)
    requires k <= |s| && NoGap(s, a, b)
    ensures NoGap(s[k..], a, b)
  {
    assert forall i :: 0 <= i < |s| - k ==> s[k..][i..] == s[k + i..];
  }

  /**
   * Outside gaps the text is copied: the leading whitespace run of the
   * result is that of the input, and so is the character after it.
   */
  lemma {:induction false} DropGapLead(s: string, a: char, b: char)
    requires !IsSpace(a) && !IsSpace(b)
    ensures var m := LeadingSpaces(s); var r := DropGap(s, a, b);
      LeadingSpaces(r) == m && (m < |s| ==> m < |r| && r[m] == s[m])
    decreases |s|
  {
    if s != [] && IsSpace(s[0]) {
      DropGapLead(s[1..], a, b);
      var r := DropGap(s, a, b);
      assert r[1..] == DropGap(s[1..], a, b);
    }
  }

  /** Rewriting `/A\s+B/g` for `a != b` leaves no `a`, whitespace run, `b`. */
  lemma {:induction false} DropGapClears(s: string, a: char, b: char)
    requires !IsSpace(a) && !IsSpace(b) && a != b
    ensures NoGap(DropGap(s, a, b), a, b)
    decreases |s|
  {
    var r := DropGap(s, a, b);
    if s != [] {
      var n := LeadingSpaces(s[1..]);
      if s[0] == a && n > 0 && 1 + n < |s| && s[1 + n] == b {
        var r' := DropGap(s[2 + n..], a, b);
        DropGapClears(s[2 + n..], a, b);
        assert r[1..] == [b] + r' && ([b] + r')[1..] == r';
        NoGapCons([b] + r', a, b);
        NoGapCons(r, a, b);
      } else {
        var r' := DropGap(s[1..], a, b);
        DropGapClears(s[1..], a, b);
        DropGapLead(s[1..], a, b);
        assert r[1..] == r';
        NoGapCons(r, a, b);
      }
    }
  }

  /** A rewrite `/A\s+B/g` creates no gap of another pair. */
  lemma {:induction false} DropGapKeepsNoGap(s: string, a: char, b: char, c: char, d: char)
    requires !IsSpace(a) && !IsSpace(b) && NoGap(s, c, d)
    ensures NoGap(DropGap(s, a, b), c, d)
    decreases |s|
  {
    var r := DropGap(s, a, b);
    if s != [] {
      var n := LeadingSpaces(s[1..]);
      NoGapCons(s, c, d);
      if s[0] == a && n > 0 && 1 + n < |s| && s[1 + n] == b {
        var t := s[2 + n..];
        var r' := DropGap(t, a, b);
        NoGapSuffix(s, 2 + n, c, d);
        NoGapSuffix(s, 1 + n, c, d);
        DropGapKeepsNoGap(t, a, b, c, d);
        DropGapLead(t, a, b);
        assert s[1 + n..][1..] == t;
        NoGapCons(s[1 + n..], c, d);
        assert r[1..] == [b] + r' && ([b] + r')[1..] == r';
        NoGapCons([b] + r', c, d);
        NoGapCons(r, c, d);
      } else {
        var r' := DropGap(s[1..], a, b);
        DropGapKeepsNoGap(s[1..], a, b, c, d);
        DropGapLead(s[1..], a, b);
        assert r[1..] == r';
        NoGapCons(r, c, d);
      }
    }
  }

  /** Whitespace never stands right before an `e`. */
  predicate NoSpaceBefore(s: string, e: char) {
    forall i :: 0 < i < |s| && s[i] == e ==> !IsSpace(s[i - 1])
  }

  /** A rewrite `/A\s+B/g` puts no whitespace before any character. */
  lemma {:induction false} DropGapKeepsNoSpaceBefore(s: string, a: char, b: char, e: char)
    requires !IsSpace(a) && !IsSpace(b) && NoSpaceBefore(s, e)
    ensures NoSpaceBefore(DropGap(s, a, b), e)
    decreases |s|
  {
    var r := DropGap(s, a, b);
    if s != [] {
      var n := LeadingSpaces(s[1..]);
      if s[0] == a && n > 0 && 1 + n < |s| && s[1 + n] == b {
        var t := s[2 + n..];
        DropGapKeepsNoSpaceBefore(t, a, b, e);
        assert r == [a, b] + DropGap(t, a, b);
      } else {
        DropGapKeepsNoSpaceBefore(s[1..], a, b, e);
        assert r == [s[0]] + DropGap(s[1..], a, b);
      }
    }
  }

  /**
   * Position-wise reading of the gap rewrites. A position is marked when it
   * deletes; the result of a rewrite is the text with exactly the marked
   * positions deleted.
   */
  function DeleteMarked(s: string, marked: seq<bool>): (r: string)
    requires |marked| == |s|
    ensures |r| <= |s|
    decreases |s|
  {
    if s == [] then []
    else (if marked[0] then [] else [s[0]]) + DeleteMarked(s[1..], marked[1..])
  }

  /** Deleting a marked prefix leaves the rest to decide. */
  lemma {:induction false} DeleteMarkedSkip(s: string, marked: seq<bool>, k: nat)
    requires |marked| == |s| && k <= |s|
    requires forall i :: 0 <= i < k ==> marked[i]
    ensures DeleteMarked(s, marked) == DeleteMarked(s[k..], marked[k..])
    decreases k
  {
    if k > 0 {
      DeleteMarkedSkip(s[1..], marked[1..], k - 1);
      assert s[1..][k - 1..] == s[k..] && marked[1..][k - 1..] == marked[k..];
    }
  }

  /** Position `i` is whitespace, and so is everything from it up to an `e` at some later position. */
  predicate RunEndsWith(s: string, i: int, e: char) {
    exists k :: 0 <= i < k < |s| && s[k] == e && forall m :: i <= m < k ==> IsSpace(s[m])
  }

  /** Position `i` is whitespace, and so is everything back to an `a` at some earlier position. */
  predicate RunStartsAfter(s: string, i: int, a: char) {
    exists j :: 0 <= j < i < |s| && s[j] == a && forall m :: j < m <= i ==> IsSpace(s[m])
  }

  /**
   * The positions `/A\s+B/` deletes, judged one at a time: the whitespace
   * whose run lies between an `a` and a `b`.
   */
  function GapMarks(s: string, a: char, b: char): (marks: seq<bool>)
    ensures |marks| == |s|
    ensures forall i :: 0 <= i < |s| ==> (marks[i] <==> RunStartsAfter(s, i, a) && RunEndsWith(s, i, b))
  {
    seq(|s|, i requires 0 <= i < |s| => RunStartsAfter(s, i, a) && RunEndsWith(s, i, b))
  }

  lemma RunEndsWithSuffix(s: string, d: nat, i: nat, e: char)
    requires d + i < |s|
    ensures RunEndsWith(s, d + i, e) <==> RunEndsWith(s[d..], i, e)
  {
    var t := s[d..];
    if RunEndsWith(s, d + i, e) {
      var k :| d + i < k < |s| && s[k] == e && forall m :: d + i <= m < k ==> IsSpace(s[m]);
      assert t[k - d] == e && forall m :: i <= m < k - d ==> IsSpace(t[m]) by {
        forall m | i <= m < k - d ensures IsSpace(t[m]) { assert t[m] == s[d + m]; }
      }
    }
    if RunEndsWith(t, i, e) {
      var k :| i < k < |t| && t[k] == e && forall m :: i <= m < k ==> IsSpace(t[m]);
      assert s[d + k] == e && forall m :: d + i <= m < d + k ==> IsSpace(s[m]) by {
        forall m | d + i <= m < d + k ensures IsSpace(s[m]) { assert s[m] == t[m - d]; }
      }
    }
  }

  /** Past a non-blank character other than `a`, the runs after an `a` are judged the same. */
  lemma RunStartsAfterSuffix(s: string, d: nat, i: nat, a: char)
    requires 0 < d && d + i < |s| && s[d - 1] != a && !IsSpace(s[d - 1])
    ensures RunStartsAfter(s, d + i, a) <==> RunStartsAfter(s[d..], i, a)
  {
    var t := s[d..];
    if RunStartsAfter(s, d + i, a) {
      var j :| 0 <= j < d + i && s[j] == a && forall m :: j < m <= d + i ==> IsSpace(s[m]);
      if j < d {
        assert false;
      }
      assert t[j - d] == a && forall m :: j - d < m <= i ==> IsSpace(t[m]) by {
        forall m | j - d < m <= i ensures IsSpace(t[m]) { assert t[m] == s[d + m]; }
      }
    }
    if RunStartsAfter(t, i, a) {
      var j :| 0 <= j < i && t[j] == a && forall m :: j < m <= i ==> IsSpace(t[m]);
      assert s[d + j] == a && forall m :: d + j < m <= d + i ==> IsSpace(s[m]) by {
        forall m | d + j < m <= d + i ensures IsSpace(s[m]) { assert s[m] == t[m - d]; }
      }
    }
  }

  /** Without a gap at the head, the head is not marked and the rest is judged on its own. */
  lemma GapMarkCons(s: string, i: nat, a: char, b: char)
    requires !IsSpace(a) && !IsSpace(b)
    requires 1 + i < |s| && !GapAtHead(s, a, b)
    ensures RunStartsAfter(s, 1 + i, a) && RunEndsWith(s, 1 + i, b) <==>
            RunStartsAfter(s[1..], i, a) && RunEndsWith(s[1..], i, b)
  {
    var t := s[1..];
    RunEndsWithSuffix(s, 1, i, b);
    if RunStartsAfter(s, 1 + i, a) && RunEndsWith(s, 1 + i, b) {
      var j :| 0 <= j < 1 + i && s[j] == a && forall m :: j < m <= 1 + i ==> IsSpace(s[m]);
      var k :| 1 + i < k < |s| && s[k] == b && forall m :: 1 + i <= m < k ==> IsSpace(s[m]);
      if j == 0 {
        GapFromHead(s, 1 + i, k, a, b);
        assert false;
      }
      assert t[j - 1] == a && forall m :: j - 1 < m <= i ==> IsSpace(t[m]) by {
        forall m | j - 1 < m <= i ensures IsSpace(t[m]) { assert t[m] == s[1 + m]; }
      }
    }
    if RunStartsAfter(t, i, a) {
      var j :| 0 <= j < i && t[j] == a && forall m :: j < m <= i ==> IsSpace(t[m]);
      assert s[1 + j] == a && forall m :: 1 + j < m <= 1 + i ==> IsSpace(s[m]) by {
        forall m | 1 + j < m <= 1 + i ensures IsSpace(s[m]) { assert s[m] == t[m - 1]; }
      }
    }
  }

  /** An `a` at the head and one whitespace run up to a `b` is a gap at the head. */
  lemma GapFromHead(s: string, i: nat, k: nat, a: char, b: char)
    requires 0 < i < k < |s| && s[0] == a && s[k] == b && !IsSpace(b)
    requires forall m :: 0 < m <= i ==> IsSpace(s[m])
    requires forall m :: i <= m < k ==> IsSpace(s[m])
    ensures GapAtHead(s, a, b)
  {
    var t := s[1..];
    assert forall m :: 0 <= m < k - 1 ==> IsSpace(t[m]) by {
      forall m | 0 <= m < k - 1 ensures IsSpace(t[m]) { assert t[m] == s[1 + m]; }
    }
    LeadingSpacesExact(t, k - 1);
  }

  lemma GapMarksCons(s: string, a: char, b: char)
    requires !IsSpace(a) && !IsSpace(b)
    requires s != [] && !GapAtHead(s, a, b)
    ensures GapMarks(s, a, b) == [false] + GapMarks(s[1..], a, b)
  {
    var m := GapMarks(s, a, b);
    var m' := GapMarks(s[1..], a, b);
    forall i | 0 <= i < |s| - 1 ensures m[1 + i] == m'[i] {
      GapMarkCons(s, i, a, b);
    }
    assert m == [false] + m';
  }

  /** At a gap: the `a` stays, its run is marked, the `b` stays, and the rest is judged on its own. */
  lemma GapMarksAtGap(s: string, a: char, b: char)
    requires !IsSpace(a) && !IsSpace(b) && a != b && GapAtHead(s, a, b)
    ensures var n := LeadingSpaces(s[1..]); var m := GapMarks(s, a, b);
      !m[0] && (forall p :: 1 <= p <= n ==> m[p]) && !m[1 + n] &&
      m[2 + n..] == GapMarks(s[2 + n..], a, b)
  {
    var n := LeadingSpaces(s[1..]);
    var m := GapMarks(s, a, b);
    assert forall q :: 1 <= q <= n ==> IsSpace(s[q]) by {
      forall q | 1 <= q <= n ensures IsSpace(s[q]) { assert s[q] == s[1..][q - 1]; }
    }
    forall p | 1 <= p <= n ensures m[p] {
      assert RunStartsAfter(s, p, a) by {
        assert s[0] == a && forall q :: 0 < q <= p ==> IsSpace(s[q]);
      }
      assert RunEndsWith(s, p, b) by {
        assert s[1 + n] == b && forall q :: p <= q < 1 + n ==> IsSpace(s[q]);
      }
    }
    GapMarksSuffix(s, 2 + n, a, b);
  }

  /** Past a non-blank character other than `a`, the rest is judged on its own. */
  lemma GapMarksSuffix(s: string, d: nat, a: char, b: char)
    requires 0 < d <= |s| && s[d - 1] != a && !IsSpace(s[d - 1])
    ensures GapMarks(s, a, b)[d..] == GapMarks(s[d..], a, b)
  {
    var m := GapMarks(s, a, b);
    var m' := GapMarks(s[d..], a, b);
    forall i | 0 <= i < |s| - d ensures m[d + i] == m'[i] {
      RunEndsWithSuffix(s, d, i, b);
      RunStartsAfterSuffix(s, d, i, a);
    }
    assert m[d..] == m';
  }

  /** An unmarked head is kept. */
  lemma DeleteKeptHead(s: string, marked: seq<bool>, rest: seq<bool>)
    requires s != [] && |marked| == |s| && marked == [false] + rest
    ensures DeleteMarked(s, marked) == [s[0]] + DeleteMarked(s[1..], rest)
  {
    assert marked[1..] == rest;
  }

  /** Deleting a marked run between two kept characters. */
  lemma DeleteAroundRun(s: string, marked: seq<bool>, n: nat)
    requires |marked| == |s| && 1 + n < |s|
    requires !marked[0] && (forall p :: 1 <= p <= n ==> marked[p]) && !marked[1 + n]
    ensures DeleteMarked(s, marked) == [s[0], s[1 + n]] + DeleteMarked(s[2 + n..], marked[2 + n..])
  {
    DeleteMarkedSkip(s[1..], marked[1..], n);
    assert s[1..][n..] == s[1 + n..] && marked[1..][n..] == marked[1 + n..];
    assert s[1 + n..][1..] == s[2 + n..] && marked[1 + n..][1..] == marked[2 + n..];
  }

  /**
   * The left-to-right rewrite `/A\s+B/g` for `a != b` deletes exactly the
   * whitespace whose run lies between an `a` and a `b`; every other
   * character of the text, whitespace included, is kept in order.
   */
  lemma {:induction false} DropGapIsPositionwise(s: string, a: char, b: char)
    requires !IsSpace(a) && !IsSpace(b) && a != b
    ensures DropGap(s, a, b) == DeleteMarked(s, GapMarks(s, a, b))
    decreases |s|
  {
    if s != [] {
      var m := GapMarks(s, a, b);
      var n := LeadingSpaces(s[1..]);
      if GapAtHead(s, a, b) {
        DropGapIsPositionwise(s[2 + n..], a, b);
        GapMarksAtGap(s, a, b);
        DeleteAroundRun(s, m, n);
      } else {
        GapMarksCons(s, a, b);
        DropGapIsPositionwise(s[1..], a, b);
        DeleteKeptHead(s, m, GapMarks(s[1..], a, b));
      }
    }
  }

  /**
   * `s.replace(/\s+B/g, 'B')` for a non-blank `b`: a whitespace run right
   * before `b` is deleted.
   */
  function DropSpacesBefore(s: string, b: char): (r: string)
    requires !IsSpace(b)
    ensures |r| <= |s|
    ensures s != [] ==> r != [] && (r[0] == s[0] || r[0] == b)
    decreases |s|
  {
    if s == [] then []
    else
      var n := LeadingSpaces(s);
      if n > 0 && n < |s| && s[n] == b then [b] + DropSpacesBefore(s[n + 1..], b)
      else [s[0]] + DropSpacesBefore(s[1..], b)
  }

  lemma {:induction false} DropSpacesBeforeKeepsText(s: string, b: char)
    requires !IsSpace(b)
    ensures Remove(DropSpacesBefore(s, b), Whitespace) == Remove(s, Whitespace)
    decreases |s|
  {
    if s != [] {
      var n := LeadingSpaces(s);
      if n > 0 && n < |s| && s[n] == b {
        DropSpacesBeforeKeepsText(s[n + 1..], b);
        RemoveLeading(s, n, Whitespace);
        var u := s[n..];
        assert u[0] == b && u[1..] == s[n + 1..];
        assert Remove(u, Whitespace) == [b] + Remove(u[1..], Whitespace);
      } else {
        DropSpacesBeforeKeepsText(s[1..], b);
      }
    }
  }

  lemma {:induction false} DropSpacesBeforeAvoids(s: string, b: char, cs: set<char>)
    requires !IsSpace(b) && b !in cs && Avoids(s, cs)
    ensures Avoids(DropSpacesBefore(s, b), cs)
    decreases |s|
  {
    if s != [] {
      var n := LeadingSpaces(s);
      if n > 0 && n < |s| && s[n] == b {
        var t := s[n + 1..];
        assert forall i :: 0 <= i < |t| ==> t[i] == s[n + 1 + i];
        DropSpacesBeforeAvoids(t, b, cs);
      } else {
        assert forall i :: 0 <= i < |s[1..]| ==> s[1..][i] == s[i + 1];
        DropSpacesBeforeAvoids(s[1..], b, cs);
      }
    }
  }

  /** A result starting with `b` comes from a whitespace run (possibly empty) and `b`. */
  lemma DropSpacesBeforeHead(s: string, b: char)
    requires !IsSpace(b)
    ensures var r := DropSpacesBefore(s, b);
      r != [] && r[0] == b ==> LeadingSpaces(s) < |s| && s[LeadingSpaces(s)] == b
  {
  }

  /**
   * A leading whitespace run that survives is the input's own, and the
   * character after it is copied.
   */
  lemma {:induction false} DropSpacesBeforeLead(s: string, b: char)
    requires !IsSpace(b)
    ensures var r := DropSpacesBefore(s, b); var m := LeadingSpaces(r);
      m > 0 ==> LeadingSpaces(s) == m && (m < |r| ==> m < |s| && r[m] == s[m])
    decreases |s|
  {
    var r := DropSpacesBefore(s, b);
    if s != [] && IsSpace(s[0]) {
      var n := LeadingSpaces(s);
      if !(n > 0 && n < |s| && s[n] == b) {
        var u := s[1..];
        var r' := DropSpacesBefore(u, b);
        assert r == [s[0]] + r' && r[1..] == r';
        DropSpacesBeforeLead(u, b);
        if r' != [] && !IsSpace(r'[0]) {
          DropSpacesBeforeHead(u, b);
        }
      }
    }
  }

  /** Rewriting `/\s+B/g` leaves no whitespace right before a `b`. */
  lemma {:induction false} DropSpacesBeforeClears(s: string, b: char)
    requires !IsSpace(b)
    ensures NoSpaceBefore(DropSpacesBefore(s, b), b)
    decreases |s|
  {
    var r := DropSpacesBefore(s, b);
    if s != [] {
      var n := LeadingSpaces(s);
      if n > 0 && n < |s| && s[n] == b {
        DropSpacesBeforeClears(s[n + 1..], b);
        assert r == [b] + DropSpacesBefore(s[n + 1..], b);
      } else {
        DropSpacesBeforeClears(s[1..], b);
        DropSpacesBeforeHead(s[1..], b);
        assert r == [s[0]] + DropSpacesBefore(s[1..], b);
      }
    }
  }

  /** A rewrite `/\s+B/g` creates no `c`, whitespace run, `d`. */
  lemma {:induction false} DropSpacesBeforeKeepsNoGap(s: string, b: char, c: char, d: char)
    requires !IsSpace(b) && NoGap(s, c, d)
    ensures NoGap(DropSpacesBefore(s, b), c, d)
    decreases |s|
  {
    var r := DropSpacesBefore(s, b);
    if s != [] {
      var n := LeadingSpaces(s);
      NoGapCons(s, c, d);
      if n > 0 && n < |s| && s[n] == b {
        var t := s[n + 1..];
        var r' := DropSpacesBefore(t, b);
        NoGapSuffix(s, n + 1, c, d);
        NoGapSuffix(s, n, c, d);
        DropSpacesBeforeKeepsNoGap(t, b, c, d);
        DropSpacesBeforeLead(t, b);
        NoGapCons(s[n..], c, d);
        assert s[n..] == [b] + t;
        GapHeadCopied(b, t, r', c, d);
        assert r == [b] + r';
        NoGapCons(r, c, d);
      } else {
        var r' := DropSpacesBefore(s[1..], b);
        DropSpacesBeforeKeepsNoGap(s[1..], b, c, d);
        DropSpacesBeforeLead(s[1..], b);
        assert s == [s[0]] + s[1..];
        GapHeadCopied(s[0], s[1..], r', c, d);
        assert r == [s[0]] + r';
        NoGapCons(r, c, d);
      }
    }
  }

  /**
   * When `r` keeps the leading whitespace run of `t` and the character
   * after it, a gap at the head of `[x] + r` was already one of `[x] + t`.
   */
  lemma GapHeadCopied(x: char, t: string, r: string, c: char, d: char)
    requires var m := LeadingSpaces(r);
      m > 0 ==> LeadingSpaces(t) == m && (m < |r| ==> m < |t| && r[m] == t[m])
    requires !GapAtHead([x] + t, c, d)
    ensures !GapAtHead([x] + r, c, d)
  {
    assert ([x] + t)[1..] == t && ([x] + r)[1..] == r;
  }

  /** The positions `/\s+B/` deletes, judged one at a time: the whitespace whose run ends at a `b`. */
  function SpaceMarks(s: string, b: char): (marks: seq<bool>)
    ensures |marks| == |s|
    ensures forall i :: 0 <= i < |s| ==> (marks[i] <==> RunEndsWith(s, i, b))
  {
    seq(|s|, i requires 0 <= i < |s| => RunEndsWith(s, i, b))
  }

  /** A text that does not start with a run ending at `b` has an unmarked head. */
  lemma SpaceMarksCons(s: string, b: char)
    requires !IsSpace(b) && s != []
    requires var n := LeadingSpaces(s); !(n > 0 && n < |s| && s[n] == b)
    ensures SpaceMarks(s, b) == [false] + SpaceMarks(s[1..], b)
  {
    var m := SpaceMarks(s, b);
    var m' := SpaceMarks(s[1..], b);
    if RunEndsWith(s, 0, b) {
      var k :| 0 < k < |s| && s[k] == b && forall q :: 0 <= q < k ==> IsSpace(s[q]);
      LeadingSpacesExact(s, k);
      assert false;
    }
    SpaceMarksSuffix(s, 1, b);
    assert m == [m[0]] + m[1..];
  }

  /** A leading run ending at `b` is marked, the `b` is not, and the rest is judged on its own. */
  lemma SpaceMarksAtRun(s: string, b: char)
    requires !IsSpace(b)
    requires var n := LeadingSpaces(s); n > 0 && n < |s| && s[n] == b
    ensures var n := LeadingSpaces(s); var m := SpaceMarks(s, b);
      (forall p :: 0 <= p < n ==> m[p]) && !m[n] && m[n + 1..] == SpaceMarks(s[n + 1..], b)
  {
    var n := LeadingSpaces(s);
    var m := SpaceMarks(s, b);
    forall p | 0 <= p < n ensures RunEndsWith(s, p, b) {
      RunBeforeMark(s, p, n, b);
    }
    NotSpaceUnmarked(s, n, b);
    SpaceMarksSuffix(s, n + 1, b);
  }

  /** Whether a run ends at a `b` looks only to the right. */
  lemma SpaceMarksSuffix(s: string, d: nat, b: char)
    requires d <= |s|
    ensures SpaceMarks(s, b)[d..] == SpaceMarks(s[d..], b)
  {
    var m := SpaceMarks(s, b);
    var m' := SpaceMarks(s[d..], b);
    forall i | 0 <= i < |s| - d ensures m[d + i] == m'[i] {
      RunEndsWithSuffix(s, d, i, b);
    }
    assert m[d..] == m';
  }

  lemma RunBeforeMark(s: string, p: nat, k: nat, b: char)
    requires p < k < |s| && s[k] == b && forall q :: 0 <= q < k ==> IsSpace(s[q])
    ensures RunEndsWith(s, p, b)
  {
    assert forall q :: p <= q < k ==> IsSpace(s[q]);
  }

  lemma NotSpaceUnmarked(s: string, i: nat, b: char)
    requires i < |s| && !IsSpace(s[i])
    ensures !RunEndsWith(s, i, b)
  {
  }

  /**
   * The left-to-right rewrite `/\s+B/g` deletes exactly the whitespace
   * whose run ends at a `b`; every other character, whitespace included,
   * is kept in order.
   */
  lemma {:induction false} DropSpacesBeforeIsPositionwise(s: string, b: char)
    requires !IsSpace(b)
    ensures DropSpacesBefore(s, b) == DeleteMarked(s, SpaceMarks(s, b))
    decreases |s|
  {
    if s != [] {
      var m := SpaceMarks(s, b);
      var n := LeadingSpaces(s);
      if n > 0 && n < |s| && s[n] == b {
        DropSpacesBeforeIsPositionwise(s[n + 1..], b);
        SpaceMarksAtRun(s, b);
        DeleteMarkedSkip(s, m, n);
        assert s[n..][1..] == s[n + 1..] && m[n..][1..] == m[n + 1..];
        DeleteKeptHead(s[n..], m[n..], m[n + 1..]);
      } else {
        SpaceMarksCons(s, b);
        DropSpacesBeforeIsPositionwise(s[1..], b);
        DeleteKeptHead(s, m, SpaceMarks(s[1..], b));
      }
    }
  }

  /** A backslash followed by a character other than `"` and `\`. */
  predicate EscapeAt(s: string) {
    |s| >= 2 && s[0] == '\\' && s[1] != '"' && s[1] != '\\'
  }

  /**
   * `s.replace(/\\([^"\\])/g, '$1')`: a backslash followed by a character
   * other than `"` or `\` is removed and the character kept; the scan goes
   * left to right and resumes after each match.
   */
  function Unescape(s: string): (r: string)
    ensures |r| <= |s|
    decreases |s|
  {
    if s == [] then []
    else if EscapeAt(s) then [s[1]] + Unescape(s[2..])
    else [s[0]] + Unescape(s[1..])
  }

  /**
   * Reference reading of the escape rule, one position at a time: drop each
   * backslash whose next character is neither `"` nor `\`, keep everything
   * else.
   */
  function DropEscapes(s: string): (r: string)
    decreases |s|
  {
    if s == [] then []
    else (if EscapeAt(s) then [] else [s[0]]) + DropEscapes(s[1..])
  }

  /**
   * The left-to-right scan with resumption after each match drops exactly
   * the backslashes the position-wise rule drops: a character consumed as
   * the second half of a match is never itself a backslash, so no match is
   * ever skipped.
   */
  lemma {:induction false} UnescapeIsPositionwise(s: string)
    ensures Unescape(s) == DropEscapes(s)
    decreases |s|
  {
    if s != [] {
      if EscapeAt(s) {
        assert !EscapeAt(s[1..]);
        assert s[1..][1..] == s[2..];
        UnescapeIsPositionwise(s[2..]);
      } else {
        UnescapeIsPositionwise(s[1..]);
      }
    }
  }

  /** The escape step deletes backslashes only. */
  lemma {:induction false} UnescapeKeepsText(s: string)
    ensures Remove(Unescape(s), {'\\'}) == Remove(s, {'\\'})
    decreases |s|
  {
    if s != [] {
      if EscapeAt(s) {
        UnescapeKeepsText(s[2..]);
        assert s[1..][1..] == s[2..];
        assert Remove(s[1..], {'\\'}) == [s[1]] + Remove(s[2..], {'\\'});
      } else {
        UnescapeKeepsText(s[1..]);
      }
    }
  }

  /** The escape step introduces no character. */
  lemma {:induction false} UnescapeAvoids(s: string, cs: set<char>)
    requires Avoids(s, cs)
    ensures Avoids(Unescape(s), cs)
    decreases |s|
  {
    if s != [] {
      if EscapeAt(s) {
        assert forall i :: 0 <= i < |s[2..]| ==> s[2..][i] == s[i + 2];
        UnescapeAvoids(s[2..], cs);
      } else {
        assert forall i :: 0 <= i < |s[1..]| ==> s[1..][i] == s[i + 1];
        UnescapeAvoids(s[1..], cs);
      }
    }
  }

  /** With no backslash in the text the escape step changes nothing. */
  lemma {:induction false} UnescapePlain(s: string)
    requires Avoids(s, {'\\'})
    ensures Unescape(s) == s
    decreases |s|
  {
    if s != [] {
      var t := s[1..];
      assert s[0] != '\\' && s == [s[0]] + t;
      assert forall i :: 0 <= i < |t| ==> t[i] == s[i + 1];
      UnescapePlain(t);
      assert Unescape(s) == [s[0]] + Unescape(t);
    }
  }

  /**
   * The six whitespace-tightening rewrites of the reply page, in order:
   * `" }`, `} ,`, `" ,`, `, "`, ` {` and `{ "` lose their whitespace.
   */
  function Tighten(s: string): (r: string)
    ensures |r| <= |s|
  {
    PunctuationIsNotSpace();
    var s3 := DropGap(s, '"', '}');
    var s4 := DropGap(s3, '}', ',');
    var s5 := DropGap(s4, '"', ',');
    var s6 := DropGap(s5, ',', '"');
    var s7 := DropSpacesBefore(s6, '{');
    DropGap(s7, '{', '"')
  }

  /** Tightening keeps the whitespace plain. */
  lemma TightenKeepsPlain(s: string)
    requires OnlyPlainSpaces(s)
    ensures OnlyPlainSpaces(Tighten(s))
  {
    PunctuationIsNotSpace();
    var cs := Whitespace - {' '};
    var s3 := DropGap(s, '"', '}');
    DropGapAvoids(s, '"', '}', cs);
    var s4 := DropGap(s3, '}', ',');
    DropGapAvoids(s3, '}', ',', cs);
    var s5 := DropGap(s4, '"', ',');
    DropGapAvoids(s4, '"', ',', cs);
    var s6 := DropGap(s5, ',', '"');
    DropGapAvoids(s5, ',', '"', cs);
    var s7 := DropSpacesBefore(s6, '{');
    DropSpacesBeforeAvoids(s6, '{', cs);
    DropGapAvoids(s7, '{', '"', cs);
  }

  /** The tightening rewrites delete whitespace only. */
  lemma TightenKeepsText(s: string)
    ensures Remove(Tighten(s), Whitespace) == Remove(s, Whitespace)
  {
    PunctuationIsNotSpace();
    var s3 := DropGap(s, '"', '}');
    DropGapKeepsText(s, '"', '}');
    var s4 := DropGap(s3, '}', ',');
    DropGapKeepsText(s3, '}', ',');
    var s5 := DropGap(s4, '"', ',');
    DropGapKeepsText(s4, '"', ',');
    var s6 := DropGap(s5, ',', '"');
    DropGapKeepsText(s5, ',', '"');
    var s7 := DropSpacesBefore(s6, '{');
    DropSpacesBeforeKeepsText(s6, '{');
    DropGapKeepsText(s7, '{', '"');
  }

  /**
   * None of the six patterns is left: no `"`, `}`, `"`, `,` or `{` followed
   * by a whitespace run and the partner character of its rewrite, and no
   * whitespace right before a `{`.
   */
  predicate Tight(s: string) {
    NoGap(s, '"', '}') && NoGap(s, '}', ',') && NoGap(s, '"', ',') &&
    NoGap(s, ',', '"') && NoSpaceBefore(s, '{') && NoGap(s, '{', '"')
  }

  /**
   * Tightening leaves no pattern any of its rewrites looks for: each
   * rewrite clears its own pattern and creates none of the others.
   */
  lemma TightenClears(s: string)
    ensures Tight(Tighten(s))
  {
    PunctuationIsNotSpace();
    var s3 := DropGap(s, '"', '}');
    DropGapClears(s, '"', '}');
    var s4 := DropGap(s3, '}', ',');
    DropGapClears(s3, '}', ',');
    DropGapKeepsNoGap(s3, '}', ',', '"', '}');
    var s5 := DropGap(s4, '"', ',');
    DropGapClears(s4, '"', ',');
    DropGapKeepsNoGap(s4, '"', ',', '"', '}');
    DropGapKeepsNoGap(s4, '"', ',', '}', ',');
    var s6 := DropGap(s5, ',', '"');
    DropGapClears(s5, ',', '"');
    DropGapKeepsNoGap(s5, ',', '"', '"', '}');
    DropGapKeepsNoGap(s5, ',', '"', '}', ',');
    DropGapKeepsNoGap(s5, ',', '"', '"', ',');
    var s7 := DropSpacesBefore(s6, '{');
    DropSpacesBeforeClears(s6, '{');
    DropSpacesBeforeKeepsNoGap(s6, '{', '"', '}');
    DropSpacesBeforeKeepsNoGap(s6, '{', '}', ',');
    DropSpacesBeforeKeepsNoGap(s6, '{', '"', ',');
    DropSpacesBeforeKeepsNoGap(s6, '{', ',', '"');
    DropGapClears(s7, '{', '"');
    DropGapKeepsNoGap(s7, '{', '"', '"', '}');
    DropGapKeepsNoGap(s7, '{', '"', '}', ',');
    DropGapKeepsNoGap(s7, '{', '"', '"', ',');
    DropGapKeepsNoGap(s7, '{', '"', ',', '"');
    DropGapKeepsNoSpaceBefore(s7, '{', '"', '{');
  }

  /**
   * The six tightening rewrites, each read position by position: every
   * step deletes exactly the whitespace its pattern covers in the text the
   * step before left, and keeps every other character in order.
   */
  lemma TightenIsPositionwise(s: string)
    ensures var s3 := DeleteMarked(s, GapMarks(s, '"', '}'));
      var s4 := DeleteMarked(s3, GapMarks(s3, '}', ','));
      var s5 := DeleteMarked(s4, GapMarks(s4, '"', ','));
      var s6 := DeleteMarked(s5, GapMarks(s5, ',', '"'));
      var s7 := DeleteMarked(s6, SpaceMarks(s6, '{'));
      Tighten(s) == DeleteMarked(s7, GapMarks(s7, '{', '"'))
  {
    PunctuationIsNotSpace();
    var s3 := DropGap(s, '"', '}');
    DropGapIsPositionwise(s, '"', '}');
    var s4 := DropGap(s3, '}', ',');
    DropGapIsPositionwise(s3, '}', ',');
    var s5 := DropGap(s4, '"', ',');
    DropGapIsPositionwise(s4, '"', ',');
    var s6 := DropGap(s5, ',', '"');
    DropGapIsPositionwise(s5, ',', '"');
    var s7 := DropSpacesBefore(s6, '{');
    DropSpacesBeforeIsPositionwise(s6, '{');
    DropGapIsPositionwise(s7, '{', '"');
  }

  /**
   * The reply page's cleanup chain: delete `\n`, `\r` and `\t`; collapse
   * whitespace runs; tighten the whitespace around JSON punctuation; apply
   * the escape step; trim.
   */
  function CleanReplyJson(s: string): (r: string)
    ensures |r| <= |s|
    ensures Trimmed(r)
    ensures OnlyPlainSpaces(r)
  {
    var s2 := CollapseSpaces(Remove(s, {'\n', '\r', '\t'}));
    var s8 := Tighten(s2);
    var s9 := Unescape(s8);
    TightenKeepsPlain(s2);
    UnescapeAvoids(s8, Whitespace - {' '});
    TrimAvoids(s9, Whitespace - {' '});
    Trim(s9)
  }

  /** Two texts agree once whitespace and backslashes are ignored. */
  ghost predicate SameText(x: string, y: string) {
    Remove(x, Blank) == Remove(y, Blank)
  }

  lemma SameTextFromSpaces(x: string, y: string)
    requires Remove(x, Whitespace) == Remove(y, Whitespace)
    ensures SameText(x, y)
  {
    RemoveRemove(x, Whitespace, {'\\'});
    RemoveRemove(y, Whitespace, {'\\'});
  }

  lemma SameTextFromBackslashes(x: string, y: string)
    requires Remove(x, {'\\'}) == Remove(y, {'\\'})
    ensures SameText(x, y)
  {
    RemoveRemove(x, {'\\'}, Whitespace);
    RemoveRemove(y, {'\\'}, Whitespace);
    assert {'\\'} + Whitespace == Blank;
  }

  lemma SameTextFromDeleting(x: string, cs: set<char>)
    requires cs <= Blank
    ensures SameText(Remove(x, cs), x)
  {
    RemoveRemove(x, cs, Blank);
    assert cs + Blank == Blank;
  }

  /**
   * The reply cleanup only ever deletes whitespace and backslashes (or
   * turns whitespace into spaces): every other character of the payload
   * survives, in order.
   */
  lemma CleanReplyKeepsText(s: string)
    ensures SameText(CleanReplyJson(s), s)
  {
    var s1 := Remove(s, {'\n', '\r', '\t'});
    SameTextFromDeleting(s, {'\n', '\r', '\t'});
    var s2 := CollapseSpaces(s1);
    CollapseKeepsText(s1);
    var s8 := Tighten(s2);
    TightenKeepsText(s2);
    SameTextFromSpaces(s8, s1);
    var s9 := Unescape(s8);
    UnescapeKeepsText(s8);
    SameTextFromBackslashes(s9, s8);
    TrimKeepsText(s9);
    SameTextFromSpaces(Trim(s9), s9);
  }

  /**
   * The cleanup chain of the alibi and overthink pages: delete every `\n`,
   * delete every `\`, trim.
   */
  function CleanPlainJson(s: string): (r: string)
    ensures |r| <= |s|
    ensures Trimmed(r)
    ensures Avoids(r, {'\n', '\\'})
  {
    var s1 := Remove(s, {'\n'});
    var s2 := Remove(s1, {'\\'});
    RemoveDeletes(s, {'\n'});
    RemoveDeletes(s1, {'\\'});
    RemoveAvoids(s1, {'\\'}, {'\n'});
    assert Avoids(s2, {'\n', '\\'});
    TrimAvoids(s2, {'\n', '\\'});
    Trim(s2)
  }

  /** A payload that is already clean passes unchanged. */
  lemma CleanPlainFixed(s: string)
    requires Avoids(s, {'\n', '\\'}) && Trimmed(s)
    ensures CleanPlainJson(s) == s
  {
    RemoveNothing(s, {'\n'});
    RemoveNothing(s, {'\\'});
  }

  /** A clean payload followed by its line's newline comes out as the payload. */
  lemma CleanPlainLine(s: string)
    requires Avoids(s, {'\n', '\\'}) && Trimmed(s)
    ensures CleanPlainJson(s + "\n") == s
  {
    assert Avoids(s, {'\n'}) && Avoids(s, {'\\'});
    RemoveConcat(s, "\n", {'\n'});
    RemoveNothing(s, {'\n'});
    RemoveOnly("\n", {'\n'});
    assert Remove(s + "\n", {'\n'}) == s + [];
    assert s + [] == s;
    RemoveNothing(s, {'\\'});
  }

  /** Cleaning a cleaned payload again changes nothing. */
  lemma CleanPlainIdempotent(s: string)
    ensures CleanPlainJson(CleanPlainJson(s)) == CleanPlainJson(s)
  {
    CleanPlainFixed(CleanPlainJson(s));
  }

  /**
   * The short cleanup is the payload with every newline and backslash
   * deleted, less whitespace at its two ends only.
   */
  lemma CleanPlainKeepsText(s: string)
    ensures MarginsCut(Remove(s, {'\n', '\\'}), CleanPlainJson(s), LeadingSpaces(Remove(s, {'\n', '\\'})))
    ensures SameText(CleanPlainJson(s), s)
  {
    var s1 := Remove(s, {'\n'});
    SameTextFromDeleting(s, {'\n'});
    var s2 := Remove(s1, {'\\'});
    SameTextFromDeleting(s1, {'\\'});
    RemoveRemove(s, {'\n'}, {'\\'});
    assert {'\n'} + {'\\'} == {'\n', '\\'};
    TrimKeepsText(s2);
    SameTextFromSpaces(Trim(s2), s2);
  }
}

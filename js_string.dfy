/**
 * The JavaScript string built-ins that the three tool pages chain together:
 * `includes`, `replace` with a string pattern (first occurrence only, with
 * `$`-pattern expansion of the replacement), `split` followed by indexing,
 * the regular-expression replacements used for cleanup, and `trim`.
 */
module JsString {

  datatype Option<+T> = None | Some(value: T)

  /**
   * The code points ECMAScript classes as WhiteSpace or LineTerminator:
   * the set matched by the regular-expression class `\s` and removed by
   * `String.prototype.trim` (the Zs category as of Unicode 15).
   */
  const Whitespace: set<char> := {
    '\t', '\n', '\U{B}', '\U{C}', '\r', ' ', '\U{A0}', '\U{1680}',
    '\U{2000}', '\U{2001}', '\U{2002}', '\U{2003}', '\U{2004}', '\U{2005}',
    '\U{2006}', '\U{2007}', '\U{2008}', '\U{2009}', '\U{200A}',
    '\U{2028}', '\U{2029}', '\U{202F}', '\U{205F}', '\U{3000}', '\U{FEFF}'
  }

  predicate IsSpace(c: char) {
    c in Whitespace
  }

  /** `p` occurs in `s` starting at index `i`. */
  predicate OccursAt(s: string, p: string, i: nat) {
    i + |p| <= |s| && s[i..i + |p|] == p
  }

  /** `t` is a contiguous part of `s`. */
  ghost predicate IsSubstring(t: string, s: string) {
    exists k: nat :: OccursAt(s, t, k)
  }

  /** The first index at or after `k` at which `p` occurs in `s`, if any. */
  function IndexFrom(s: string, p: string, k: nat): (r: Option<nat>)
    ensures r.Some? ==> k <= r.value && OccursAt(s, p, r.value)
    ensures r.Some? ==> forall j: nat :: k <= j < r.value ==> !OccursAt(s, p, j)
    ensures r.None? ==> forall j: nat :: k <= j ==> !OccursAt(s, p, j)
    decreases |s| - k
  {
    if k + |p| > |s| then None
    else if s[k..k + |p|] == p then Some(k)
    else IndexFrom(s, p, k + 1)
  }

  /** `s.indexOf(p)`: the first index at which `p` occurs, if any. */
  function IndexOf(s: string, p: string): (r: Option<nat>)
    ensures r.Some? ==> OccursAt(s, p, r.value)
    ensures r.Some? ==> forall j: nat :: j < r.value ==> !OccursAt(s, p, j)
    ensures r.None? ==> forall j: nat :: !OccursAt(s, p, j)
  {
    IndexFrom(s, p, 0)
  }

  /** `s.includes(p)`. */
  predicate Contains(s: string, p: string)
    ensures Contains(s, p) <==> exists i: nat :: OccursAt(s, p, i)
  {
    IndexOf(s, p).Some?
  }

  /** An occurrence with no earlier one is the one `IndexOf` finds. */
  lemma IndexOfIsFirst(s: string, p: string, i: nat)
    requires OccursAt(s, p, i)
    requires forall j: nat :: j < i ==> !OccursAt(s, p, j)
    ensures IndexOf(s, p) == Some(i)
  {
  }

  lemma ContainsWhenOccurs(s: string, p: string, i: nat)
    requires OccursAt(s, p, i)
    ensures Contains(s, p)
    ensures IndexOf(s, p).value <= i
  {
  }

  lemma SliceOfSlice(s: string, k: nat, n: nat, j: nat, m: nat)
    requires k <= n <= |s| && j + m <= n - k
    ensures s[k..n][j..j + m] == s[k + j..k + j + m]
  {
    var w := s[k..n][j..j + m];
    assert forall i :: 0 <= i < m ==> w[i] == s[k + j + i];
  }

  /** An occurrence inside a substring is an occurrence in the whole text. */
  lemma ContainsWithin(s: string, k: nat, n: nat, p: string)
    requires k <= n <= |s|
    requires Contains(s[k..n], p)
    ensures Contains(s, p)
  {
    var j := IndexOf(s[k..n], p).value;
    SliceOfSlice(s, k, n, j, |p|);
    ContainsWhenOccurs(s, p, k + j);
  }

  /** Occurrences in a prefix are exactly the occurrences that end inside it. */
  lemma OccursInPrefix(s: string, n: nat, p: string)
    requires n <= |s|
    ensures forall j: nat :: OccursAt(s[..n], p, j) <==> j + |p| <= n && OccursAt(s, p, j)
  {
    forall j: nat ensures OccursAt(s[..n], p, j) <==> j + |p| <= n && OccursAt(s, p, j) {
      if j + |p| <= n {
        assert s[..n][j..j + |p|] == s[j..j + |p|];
      }
    }
  }

  /**
   * The replacement text `String.prototype.replace` inserts for a string
   * pattern (GetSubstitution with no capture groups): `$$` is `$`, `$&` the
   * matched text, `` $` `` the text before the match, `$'` the text after it;
   * any other `$`, including `$1` and `$<`, is kept literally.
   */
  function Expand(rep: string, matched: string, before: string, after: string): (r: string)
    ensures rep == "$$" ==> r == "$"
    ensures rep == "$&" ==> r == matched
    ensures rep == "$`" ==> r == before
    ensures rep == "$'" ==> r == after
    ensures |rep| == 2 && rep[0] == '$' && rep[1] !in "$&`'" ==> r == rep
    decreases |rep|
  {
    if |rep| >= 2 && rep[0] == '$' && rep[1] == '$' then "$" + Expand(rep[2..], matched, before, after)
    else if |rep| >= 2 && rep[0] == '$' && rep[1] == '&' then matched + Expand(rep[2..], matched, before, after)
    else if |rep| >= 2 && rep[0] == '$' && rep[1] == '`' then before + Expand(rep[2..], matched, before, after)
    else if |rep| >= 2 && rep[0] == '$' && rep[1] == '\'' then after + Expand(rep[2..], matched, before, after)
    else if rep == [] then []
    else [rep[0]] + Expand(rep[1..], matched, before, after)
  }

  /** A replacement without `$` is inserted as it is. */
  lemma {:induction false} ExpandPlain(rep: string, matched: string, before: string, after: string)
    requires '$' !in rep
    ensures Expand(rep, matched, before, after) == rep
    decreases |rep|
  {
    if rep != [] {
      assert rep[0] != '$';
      assert '$' !in rep[1..] by {
        forall i | 0 <= i < |rep[1..]| ensures rep[1..][i] != '$' {
          assert rep[1..][i] == rep[i + 1];
        }
      }
      ExpandPlain(rep[1..], matched, before, after);
    }
  }

  /** `s.replace(p, rep)` with a string pattern: only the first occurrence is replaced. */
  function ReplaceFirst(s: string, p: string, rep: string): (r: string)
    ensures !Contains(s, p) ==> r == s
  {
    match IndexOf(s, p)
    case None => s
    case Some(i) => s[..i] + Expand(rep, p, s[..i], s[i + |p|..]) + s[i + |p|..]
  }

  /**
   * When `p` starts with a character that `head` lacks, the first occurrence
   * of `p` in `head + p + tail` is the one right after `head`.
   */
  lemma {:induction false} ReplaceAfterHead(head: string, p: string, tail: string, rep: string)
    requires |p| > 0 && p[0] !in head
    ensures ReplaceFirst(head + p + tail, p, rep) == head + Expand(rep, p, head, tail) + tail
  {
    var s := head + p + tail;
    assert s[|head|..|head| + |p|] == p;
    forall j: nat | j < |head| ensures !OccursAt(s, p, j) {
      assert s[j] == head[j];
      if j + |p| <= |s| {
        assert s[j..j + |p|][0] == s[j];
      }
    }
    IndexOfIsFirst(s, p, |head|);
    assert s[..|head|] == head;
    assert s[|head| + |p|..] == tail;
  }

  /** No occurrence of `p` in `x + y` starts inside `x`. */
  predicate NoEarlyMatch(x: string, y: string, p: string) {
    forall j: nat :: j < |x| ==> !OccursAt(x + y, p, j)
  }

  /** `x` lacks the first character of `p`, so nothing in `x + y` starts a match inside `x`. */
  lemma NoEarlyMatchByFirstChar(x: string, y: string, p: string)
    requires |p| > 0 && p[0] !in x
    ensures NoEarlyMatch(x, y, p)
  {
    forall j: nat | j < |x| ensures !OccursAt(x + y, p, j) {
      assert (x + y)[j] == x[j];
      if j + |p| <= |x + y| {
        assert (x + y)[j..j + |p|][0] == (x + y)[j];
      }
    }
  }

  /**
   * `x` holds no occurrence of `p` and `y` begins with a character that `p`
   * has only at its start, so no occurrence straddles the boundary either.
   */
  lemma NoEarlyMatchByBoundary(x: string, y: string, p: string)
    requires |p| > 0 && !Contains(x, p)
    requires |y| > 0 && y[0] !in p[1..]
    ensures NoEarlyMatch(x, y, p)
  {
    forall j: nat | j < |x| ensures !OccursAt(x + y, p, j) {
      if j + |p| <= |x| {
        assert (x + y)[j..j + |p|] == x[j..j + |p|];
        assert !OccursAt(x, p, j);
      } else if j + |p| <= |x + y| {
        var d := |x| - j;
        assert (x + y)[j..j + |p|][d] == y[0];
        assert p[1..][d - 1] == p[d];
      }
    }
  }

  /** With no `$` in the replacement, `ReplaceFirst` is plain substitution at the first match. */
  lemma ReplaceFirstAt(s: string, p: string, rep: string, i: nat)
    requires IndexOf(s, p) == Some(i)
    requires '$' !in rep
    ensures ReplaceFirst(s, p, rep) == s[..i] + rep + s[i + |p|..]
  {
    ExpandPlain(rep, p, s[..i], s[i + |p|..]);
  }

  /** A window of `x + y` that starts past `x` is a window of `y`. */
  lemma SliceRight(x: string, y: string, j: nat, m: nat)
    requires |x| <= j && j + m <= |x| + |y|
    ensures (x + y)[j..j + m] == y[j - |x|..j - |x| + m]
  {
  }

  /** A window of `x + y` that ends inside `x` is a window of `x`. */
  lemma SliceLeft(x: string, y: string, j: nat, m: nat)
    requires j + m <= |x|
    ensures (x + y)[j..j + m] == x[j..j + m]
  {
  }

  /** Cutting `x + y` around a part of `y`. */
  lemma CutRight(x: string, y: string, i: nat, m: nat)
    requires i + m <= |y|
    ensures (x + y)[..|x| + i] == x + y[..i]
    ensures (x + y)[|x| + i + m..] == y[i + m..]
  {
  }

  /** Cutting `x + y` around a part of `x`. */
  lemma CutLeft(x: string, y: string, i: nat, m: nat)
    requires i + m <= |x|
    ensures (x + y)[..i] == x[..i]
    ensures (x + y)[i + m..] == x[i + m..] + y
  {
  }

  /** Matches in `x + y` that start past `x` are the matches in `y`, shifted. */
  lemma IndexOfPastPrefix(x: string, y: string, p: string)
    requires NoEarlyMatch(x, y, p)
    ensures IndexOf(x + y, p) == match IndexOf(y, p) case None => None case Some(i) => Some(|x| + i)
  {
    var s := x + y;
    forall j: nat | j >= |x| ensures OccursAt(s, p, j) <==> OccursAt(y, p, j - |x|) {
      if j + |p| <= |s| {
        SliceRight(x, y, j, |p|);
      }
    }
    match IndexOf(y, p)
    case None =>
    case Some(i) =>
      IndexOfIsFirst(s, p, |x| + i);
  }

  /** A match inside `x` is still the first match once `y` is appended. */
  lemma IndexOfInPrefix(x: string, y: string, p: string)
    requires Contains(x, p)
    ensures IndexOf(x + y, p) == IndexOf(x, p)
  {
    var s := x + y;
    var i := IndexOf(x, p).value;
    forall j: nat | j + |p| <= |x| ensures OccursAt(s, p, j) <==> OccursAt(x, p, j) {
      SliceLeft(x, y, j, |p|);
    }
    IndexOfIsFirst(s, p, i);
  }

  lemma ConcatAssoc(x: string, a: string, r: string, b: string)
    ensures (x + a) + r + b == x + (a + r + b)
    ensures a + r + (b + x) == (a + r + b) + x
  {
  }

  lemma ReplaceFirstShifted(x: string, y: string, p: string, rep: string, i: nat)
    requires IndexOf(x + y, p) == Some(|x| + i) && IndexOf(y, p) == Some(i)
    requires '$' !in rep
    ensures ReplaceFirst(x + y, p, rep) == x + ReplaceFirst(y, p, rep)
  {
    ReplaceFirstAt(x + y, p, rep, |x| + i);
    ReplaceFirstAt(y, p, rep, i);
    CutRight(x, y, i, |p|);
    ConcatAssoc(x, y[..i], rep, y[i + |p|..]);
  }

  /** Skipping a part that holds no match start leaves the replacement to the rest. */
  lemma ReplaceFirstSkip(x: string, y: string, p: string, rep: string)
    requires NoEarlyMatch(x, y, p)
    requires '$' !in rep
    ensures ReplaceFirst(x + y, p, rep) == x + ReplaceFirst(y, p, rep)
  {
    IndexOfPastPrefix(x, y, p);
    if IndexOf(y, p).Some? {
      ReplaceFirstShifted(x, y, p, rep, IndexOf(y, p).value);
    }
  }

  /** When `x` holds `p`, the first match lies in `x` and `y` is left alone. */
  lemma ReplaceFirstWithin(x: string, y: string, p: string, rep: string)
    requires Contains(x, p)
    requires '$' !in rep
    ensures ReplaceFirst(x + y, p, rep) == ReplaceFirst(x, p, rep) + y
  {
    IndexOfInPrefix(x, y, p);
    var i := IndexOf(x, p).value;
    ReplaceFirstAt(x + y, p, rep, i);
    ReplaceFirstAt(x, p, rep, i);
    CutLeft(x, y, i, |p|);
    ConcatAssoc(y, x[..i], rep, x[i + |p|..]);
  }

  /**
   * Text spliced in after a head that cannot start a match: if it holds
   * `p`, the first match is its own and the text after it is left alone.
   */
  lemma ReplaceFirstInSplice(head: string, e: string, rest: string, p: string, rep: string)
    requires |p| > 0 && p[0] !in head && Contains(e, p)
    requires '$' !in rep
    ensures ReplaceFirst(head + e + rest, p, rep) == head + ReplaceFirst(e, p, rep) + rest
  {
    Regroup(head, e, rest);
    NoEarlyMatchByFirstChar(head, e + rest, p);
    ReplaceFirstSkip(head, e + rest, p, rep);
    ReplaceFirstWithin(e, rest, p, rep);
    Regroup(head, ReplaceFirst(e, p, rep), rest);
  }

  lemma Regroup(a: string, b: string, c: string)
    ensures a + b + c == a + (b + c)
  {
  }

  /**
   * A template with one slot after a head that cannot start a match: the
   * text lands in the slot, as typed when it has no `$`.
   */
  lemma FillSlot(head: string, slot: string, tail: string, text: string)
    requires |slot| > 0 && slot[0] !in head
    ensures ReplaceFirst(head + slot + tail, slot, text) == head + Expand(text, slot, head, tail) + tail
    ensures '$' !in text ==> ReplaceFirst(head + slot + tail, slot, text) == head + text + tail
  {
    ReplaceAfterHead(head, slot, tail, text);
    if '$' !in text {
      ExpandPlain(text, slot, head, tail);
    }
  }

  /**
   * If the spliced text does not hold `p` and nothing can start a match
   * across its end or inside `mid`, the match is the one after `mid`.
   */
  lemma ReplaceFirstAfterSplice(head: string, e: string, mid: string, tail: string, p: string, rep: string)
    requires |p| > 0 && p[0] !in head && p[0] !in mid && !Contains(e, p)
    requires |mid| > 0 && mid[0] !in p[1..]
    requires '$' !in rep
    ensures ReplaceFirst(head + e + (mid + p + tail), p, rep) == head + e + mid + rep + tail
  {
    var x := head + e;
    NoEarlyMatchByFirstChar(head, e, p);
    IndexOfPastPrefix(head, e, p);
    NoEarlyMatchByBoundary(x, mid + p + tail, p);
    ReplaceFirstSkip(x, mid + p + tail, p, rep);
    ReplaceAfterHead(mid, p, tail, rep);
    ExpandPlain(rep, p, mid, tail);
    ConcatAssoc(x, mid, rep, tail);
  }

  /** `s.split(sep)` for a non-empty string separator. */
  function Split(s: string, sep: string): (r: seq<string>)
    requires |sep| > 0
    ensures |r| >= 1
    ensures forall k :: 0 <= k < |r| ==> !Contains(r[k], sep)
    decreases |s|
  {
    match IndexOf(s, sep)
    case None => [s]
    case Some(i) =>
      OccursInPrefix(s, i, sep);
      [s[..i]] + Split(s[i + |sep|..], sep)
  }

  /** `parts.join(sep)`. */
  function Join(parts: seq<string>, sep: string): string
    requires |parts| >= 1
  {
    if |parts| == 1 then parts[0] else parts[0] + sep + Join(parts[1..], sep)
  }

  /** Joining the pieces of a split with the same separator gives the text back. */
  lemma {:induction false} SplitJoin(s: string, sep: string)
    requires |sep| > 0
    ensures Join(Split(s, sep), sep) == s
    decreases |s|
  {
    match IndexOf(s, sep)
    case None =>
    case Some(i) =>
      var head, rest := s[..i], s[i + |sep|..];
      var parts := Split(s, sep);
      assert parts == [head] + Split(rest, sep);
      assert parts[0] == head && parts[1..] == Split(rest, sep);
      SplitJoin(rest, sep);
      assert Join(parts, sep) == head + sep + rest;
      assert s[i..i + |sep|] == sep;
      assert s == head + s[i..i + |sep|] + rest;
  }

  /** Every piece of a split is a contiguous part of the text. */
  lemma {:induction false} SplitPieceIsSubstring(s: string, sep: string, k: nat)
    requires |sep| > 0 && k < |Split(s, sep)|
    ensures IsSubstring(Split(s, sep)[k], s)
    decreases |s|
  {
    match IndexOf(s, sep)
    case None =>
      SubstringPrefix(s, |s|);
      assert s[..|s|] == s;
    case Some(i) =>
      if k == 0 {
        SubstringPrefix(s, i);
      } else {
        var rest := s[i + |sep|..];
        SplitAtMatch(s, sep, i, k);
        SplitPieceIsSubstring(rest, sep, k - 1);
        SubstringOfSuffix(s, i + |sep|, Split(rest, sep)[k - 1]);
      }
  }

  lemma SubstringPrefix(s: string, n: nat)
    requires n <= |s|
    ensures IsSubstring(s[..n], s)
  {
    assert s[0..n] == s[..n];
    assert OccursAt(s, s[..n], 0);
  }

  /** Past the first piece, the pieces are those of the text after the first separator. */
  lemma SplitAtMatch(s: string, sep: string, i: nat, k: nat)
    requires |sep| > 0 && IndexOf(s, sep) == Some(i)
    requires 0 < k < |Split(s, sep)|
    ensures k - 1 < |Split(s[i + |sep|..], sep)|
    ensures Split(s, sep)[k] == Split(s[i + |sep|..], sep)[k - 1]
  {
    var tail := Split(s[i + |sep|..], sep);
    assert Split(s, sep) == [s[..i]] + tail;
    ConsIndex(s[..i], tail, k);
  }

  lemma ConsIndex(head: string, tail: seq<string>, k: nat)
    requires 0 < k < 1 + |tail|
    ensures ([head] + tail)[k] == tail[k - 1]
  {
  }

  lemma SubstringOfSuffix(s: string, n: nat, t: string)
    requires n <= |s| && IsSubstring(t, s[n..])
    ensures IsSubstring(t, s)
  {
    var k: nat :| OccursAt(s[n..], t, k);
    assert s[n..][k..k + |t|] == s[n + k..n + k + |t|];
    assert OccursAt(s, t, n + k);
  }

  lemma SubstringTransitive(t: string, u: string, s: string)
    requires IsSubstring(t, u) && IsSubstring(u, s)
    ensures IsSubstring(t, s)
  {
    var k: nat :| OccursAt(u, t, k);
    var m: nat :| OccursAt(s, u, m);
    forall i | 0 <= i < |t| ensures t[i] == s[m + k + i] {
      assert t[i] == u[k..k + |t|][i] == u[k + i];
      assert u[k + i] == s[m..m + |u|][k + i];
    }
    assert t == s[m + k..m + k + |t|];
    assert OccursAt(s, t, m + k);
  }

  /** The text before the first `sep`, or all of `s` when there is none. */
  function Before(s: string, sep: string): (r: string)
    requires |sep| > 0
    ensures r <= s
    ensures !Contains(r, sep)
    ensures Contains(s, sep) ==> OccursAt(s, sep, |r|) && IndexOf(s, sep) == Some(|r|)
    ensures !Contains(s, sep) ==> r == s
  {
    match IndexOf(s, sep)
    case None => s
    case Some(i) =>
      OccursInPrefix(s, i, sep);
      s[..i]
  }

  /** The text after the first `sep`. */
  function After(s: string, sep: string): (r: string)
    requires |sep| > 0 && Contains(s, sep)
    ensures s == Before(s, sep) + sep + r
  {
    var i := IndexOf(s, sep).value;
    assert s == s[..i] + s[i..i + |sep|] + s[i + |sep|..];
    s[i + |sep|..]
  }

  /** `s.split(sep)[k]`: `None` stands for JavaScript's `undefined` past the last piece. */
  function SplitAt(s: string, sep: string, k: nat): (r: Option<string>)
    requires |sep| > 0
    ensures k == 0 ==> r == Some(Before(s, sep))
    ensures k == 1 ==> (r.Some? <==> Contains(s, sep))
    ensures k == 1 && Contains(s, sep) ==> r == Some(Before(After(s, sep), sep))
    ensures r.Some? ==> IsSubstring(r.value, s)
  {
    var parts := Split(s, sep);
    if k < |parts| then
      SplitPieceIsSubstring(s, sep, k);
      Some(parts[k])
    else None
  }

  /** No character of `s` belongs to `cs`. */
  predicate Avoids(s: string, cs: set<char>) {
    forall i :: 0 <= i < |s| ==> s[i] !in cs
  }

  /** Leading whitespace run of `s`. */
  function LeadingSpaces(s: string): (n: nat)
    ensures n <= |s|
    ensures forall i :: 0 <= i < n ==> IsSpace(s[i])
    ensures n < |s| ==> !IsSpace(s[n])
  {
    if |s| > 0 && IsSpace(s[0]) then 1 + LeadingSpaces(s[1..]) else 0
  }

  /** A whitespace run of length `n` followed by a non-blank (or the end) is the leading run. */
  lemma LeadingSpacesExact(s: string, n: nat)
    requires n <= |s| && forall i :: 0 <= i < n ==> IsSpace(s[i])
    requires n < |s| ==> !IsSpace(s[n])
    ensures LeadingSpaces(s) == n
  {
  }

  /** `s` neither starts nor ends with whitespace. */
  predicate Trimmed(s: string) {
    s == [] || (!IsSpace(s[0]) && !IsSpace(s[|s| - 1]))
  }

  /** Trailing whitespace run of `s`. */
  function TrailingSpaces(s: string): (n: nat)
    ensures n <= |s|
    ensures forall i :: |s| - n <= i < |s| ==> IsSpace(s[i])
    ensures n < |s| ==> !IsSpace(s[|s| - 1 - n])
  {
    if |s| > 0 && IsSpace(s[|s| - 1]) then 1 + TrailingSpaces(s[..|s| - 1]) else 0
  }

  /**
   * `r` is the part of `s` that starts at index `a`, and every character of
   * `s` before or after that part is whitespace.
   */
  predicate MarginsCut(s: string, r: string, a: nat) {
    a + |r| <= |s| && r == s[a..a + |r|] &&
    (forall i :: 0 <= i < a ==> IsSpace(s[i])) &&
    (forall i :: a + |r| <= i < |s| ==> IsSpace(s[i]))
  }

  /**
   * `s.trim()`: `s` with its leading and trailing whitespace removed. Only
   * the whitespace at the two ends goes; everything between stays in place.
   */
  function Trim(s: string): (r: string)
    ensures |r| <= |s| && Trimmed(r)
    ensures MarginsCut(s, r, LeadingSpaces(s))
    ensures Trimmed(s) ==> r == s
  {
    var a := LeadingSpaces(s);
    TrimMargins(s, a);
    s[a..|s| - TrailingSpaces(s[a..])]
  }

  /** The characters cut from the end of `s[a..]` are whitespace of `s`. */
  lemma TrimMargins(s: string, a: nat)
    requires a <= |s|
    ensures forall i :: |s| - TrailingSpaces(s[a..]) <= i < |s| ==> IsSpace(s[i])
  {
    var t := s[a..];
    var n := TrailingSpaces(t);
    forall i | |s| - n <= i < |s|
      ensures IsSpace(s[i])
    {
      assert s[i] == t[i - a];
    }
  }

  /** Trimming introduces no character. */
  lemma TrimAvoids(s: string, cs: set<char>)
    requires Avoids(s, cs)
    ensures Avoids(Trim(s), cs)
  {
  }

  lemma PrefixOfSuffix(s: string, a: nat, m: nat)
    requires a + m <= |s|
    ensures s[a..][..m] == s[a..a + m]
  {
  }

  /** Trimming deletes whitespace only. */
  lemma TrimKeepsText(s: string)
    ensures Remove(Trim(s), Whitespace) == Remove(s, Whitespace)
  {
    var a := LeadingSpaces(s);
    var t := s[a..];
    RemoveLeading(s, a, Whitespace);
    var m := |t| - TrailingSpaces(t);
    RemoveTrailing(t, m, Whitespace);
    PrefixOfSuffix(s, a, m);
  }

  /** `s` with every character of `cs` deleted (`s.replace(/[...]/g, '')`). */
  function Remove(s: string, cs: set<char>): (r: string)
    ensures |r| <= |s|
  {
    if s == [] then []
    else (if s[0] in cs then [] else [s[0]]) + Remove(s[1..], cs)
  }

  lemma RemoveCons(s: string, cs: set<char>)
    requires s != []
    ensures Remove(s, cs) == (if s[0] in cs then [] else [s[0]]) + Remove(s[1..], cs)
  {
  }

  /** No character of `cs` is left. */
  lemma {:induction false} RemoveDeletes(s: string, cs: set<char>)
    ensures Avoids(Remove(s, cs), cs)
  {
    if s != [] {
      RemoveDeletes(s[1..], cs);
    }
  }

  /** A text without characters of `cs` is left as it is. */
  lemma {:induction false} RemoveNothing(s: string, cs: set<char>)
    requires Avoids(s, cs)
    ensures Remove(s, cs) == s
  {
    if s != [] {
      assert forall i :: 0 <= i < |s[1..]| ==> s[1..][i] == s[i + 1];
      RemoveNothing(s[1..], cs);
    }
  }

  /** Deleting characters introduces none. */
  lemma {:induction false} RemoveAvoids(s: string, cs: set<char>, ds: set<char>)
    requires Avoids(s, ds)
    ensures Avoids(Remove(s, cs), ds)
  {
    if s != [] {
      assert forall i :: 0 <= i < |s[1..]| ==> s[1..][i] == s[i + 1];
      RemoveAvoids(s[1..], cs, ds);
    }
  }

  lemma {:induction false} RemoveConcat(a: string, b: string, cs: set<char>)
    ensures Remove(a + b, cs) == Remove(a, cs) + Remove(b, cs)
  {
    if a != [] {
      assert (a + b)[1..] == a[1..] + b;
      RemoveConcat(a[1..], b, cs);
    } else {
      assert a + b == b;
    }
  }

  lemma {:induction false} RemoveOnly(s: string, cs: set<char>)
    requires forall i :: 0 <= i < |s| ==> s[i] in cs
    ensures Remove(s, cs) == []
  {
    if s != [] {
      assert forall i :: 0 <= i < |s[1..]| ==> s[1..][i] == s[i + 1];
      RemoveOnly(s[1..], cs);
    }
  }

  /** A prefix made only of deleted characters disappears. */
  lemma RemoveLeading(s: string, n: nat, cs: set<char>)
    requires n <= |s|
    requires forall i :: 0 <= i < n ==> s[i] in cs
    ensures Remove(s, cs) == Remove(s[n..], cs)
  {
    var a, b := s[..n], s[n..];
    assert s == a + b;
    RemoveConcat(a, b, cs);
    RemoveOnly(a, cs);
  }

  /** A suffix made only of deleted characters disappears. */
  lemma RemoveTrailing(s: string, n: nat, cs: set<char>)
    requires n <= |s|
    requires forall i :: n <= i < |s| ==> s[i] in cs
    ensures Remove(s, cs) == Remove(s[..n], cs)
  {
    var a, b := s[..n], s[n..];
    assert s == a + b;
    RemoveConcat(a, b, cs);
    assert forall i :: 0 <= i < |b| ==> b[i] == s[n + i];
    RemoveOnly(b, cs);
  }

  /** Deleting one set of characters and then another deletes their union. */
  lemma {:induction false} RemoveRemove(s: string, a: set<char>, b: set<char>)
    ensures Remove(Remove(s, a), b) == Remove(s, a + b)
  {
    if s != [] {
      RemoveRemove(s[1..], a, b);
      RemoveConcat(if s[0] in a then [] else [s[0]], Remove(s[1..], a), b);
    }
  }

  /** Deleting characters commutes with deleting other characters. */
  lemma RemoveCommutes(s: string, a: set<char>, b: set<char>)
    ensures Remove(Remove(s, a), b) == Remove(Remove(s, b), a)
  {
    RemoveRemove(s, a, b);
    RemoveRemove(s, b, a);
    assert a + b == b + a;
  }
}

/** The JavaScript string operations the adapter relies on, with their ECMAScript
    meaning: `indexOf`/`includes` (first occurrence), `endsWith`, `slice(0, -1)`,
    `split` with a non-empty string separator, `join`, `trim` and `replace` with a
    string pattern (first occurrence only). A JavaScript string is modelled as a
    sequence of characters. */
module JsText {
  import opened Common

  /** `pat` occurs in `s` starting at index `j`. */
  ghost predicate OccursAt(s: string, pat: string, j: int)
  {
    0 <= j && j + |pat| <= |s| && s[j..j + |pat|] == pat
  }

  /** The first occurrence of `pat` in `s` at or after index `k`. */
  function IndexFrom(s: string, pat: string, k: nat): (r: Option<nat>)
    decreases |s| + 1 - k
    ensures r.Some? ==> k <= r.value && OccursAt(s, pat, r.value)
    ensures r.Some? ==> forall j :: k <= j < r.value ==> !OccursAt(s, pat, j)
    ensures r.None? ==> forall j :: k <= j ==> !OccursAt(s, pat, j)
  {
    if k + |pat| > |s| then None
    else if s[k..k + |pat|] == pat then Some(k)
    else IndexFrom(s, pat, k + 1)
  }

  /** `s.indexOf(pat)`, with `None` for -1. */
  function IndexOf(s: string, pat: string): (r: Option<nat>)
    ensures r.Some? ==> OccursAt(s, pat, r.value)
    ensures r.Some? ==> forall j :: 0 <= j < r.value ==> !OccursAt(s, pat, j)
    ensures r.None? ==> forall j :: !OccursAt(s, pat, j)
  {
    IndexFrom(s, pat, 0)
  }

  /** `s.includes(pat)`. */
  predicate Contains(s: string, pat: string)
  {
    IndexOf(s, pat).Some?
  }

  /** `s.endsWith(suffix)`. */
  predicate EndsWith(s: string, suffix: string)
  {
    |suffix| <= |s| && s[|s| - |suffix|..] == suffix
  }

  /** `s.slice(0, -1)`: everything but the last character ("" stays ""). */
  function DropLast(s: string): (r: string)
    ensures |s| > 0 ==> |r| == |s| - 1 && r + [s[|s| - 1]] == s
    ensures |s| == 0 ==> r == ""
  {
    if |s| == 0 then "" else s[..|s| - 1]
  }

  /** `s.split(sep)` for a non-empty separator: the pieces between the occurrences
      of `sep`, scanning from the left; there is always at least one piece. */
  function Split(s: string, sep: string): (r: seq<string>)
    requires |sep| > 0
    decreases |s|
    ensures |r| >= 1
  {
    match IndexOf(s, sep)
    case None => [s]
    case Some(i) => [s[..i]] + Split(s[i + |sep|..], sep)
  }

  /** `pieces.join(sep)`; `[].join(sep)` is "". */
  function Join(pieces: seq<string>, sep: string): (r: string)
    ensures |pieces| == 1 ==> r == pieces[0]
  {
    if |pieces| == 0 then ""
    else if |pieces| == 1 then pieces[0]
    else pieces[0] + sep + Join(pieces[1..], sep)
  }

  /** The characters `String.prototype.trim` removes: ECMAScript WhiteSpace
      (tab, vertical tab, form feed, space, no-break space, byte order mark and
      the Unicode space separators) and LineTerminator (LF, CR, U+2028, U+2029). */
  predicate IsJsSpace(c: char)
  {
    c == '\t' || c == '\n' || c == '\U{000B}' || c == '\U{000C}' || c == '\r' || c == ' '
    || c == '\U{00A0}' || c == '\U{1680}' || ('\U{2000}' <= c <= '\U{200A}')
    || c == '\U{2028}' || c == '\U{2029}' || c == '\U{202F}' || c == '\U{205F}'
    || c == '\U{3000}' || c == '\U{FEFF}'
  }

  /** The length of the run of spaces that starts `s`. */
  function LeadingSpaces(s: string): (n: nat)
    ensures n <= |s|
    ensures forall i :: 0 <= i < n ==> IsJsSpace(s[i])
    ensures n < |s| ==> !IsJsSpace(s[n])
  {
    if |s| > 0 && IsJsSpace(s[0]) then 1 + LeadingSpaces(s[1..]) else 0
  }

  /** The length of the run of spaces that ends `s`. */
  function TrailingSpaces(s: string): (n: nat)
    ensures n <= |s|
    ensures forall i :: |s| - n <= i < |s| ==> IsJsSpace(s[i])
    ensures n < |s| ==> !IsJsSpace(s[|s| - n - 1])
  {
    if |s| > 0 && IsJsSpace(s[|s| - 1]) then 1 + TrailingSpaces(s[..|s| - 1]) else 0
  }

  /** `s.trim()`: the longest infix of `s` that neither starts nor ends with a
      space, i.e. `s` with its leading and trailing spaces removed. */
  function Trim(s: string): (r: string)
    ensures |r| > 0 ==> !IsJsSpace(r[0]) && !IsJsSpace(r[|r| - 1])
    ensures LeadingSpaces(s) + |r| <= |s| && r == s[LeadingSpaces(s)..LeadingSpaces(s) + |r|]
    ensures forall k :: 0 <= k < |s| && !IsJsSpace(s[k]) ==> LeadingSpaces(s) <= k < LeadingSpaces(s) + |r|
  {
    var t := s[LeadingSpaces(s)..];
    t[..|t| - TrailingSpaces(t)]
  }

  /** `s.replace(pat, rep)` with a string pattern: only the first occurrence is
      replaced. */
  function ReplaceFirst(s: string, pat: string, rep: string): (r: string)
    ensures (forall j :: !OccursAt(s, pat, j)) ==> r == s
    ensures Contains(s, pat) ==> |r| == |s| - |pat| + |rep|
  {
    match IndexOf(s, pat)
    case None => s
    case Some(i) => s[..i] + rep + s[i + |pat|..]
  }

  // ---------------------------------------------------------------------------
  // Facts about the operations above.

  /** `includes` of a one-character string is membership of that character. */
  lemma ContainsChar(s: string, c: char)
    ensures Contains(s, [c]) <==> c in s
  {
    if c in s {
      var j :| 0 <= j < |s| && s[j] == c;
      assert s[j..j + 1] == [c];
      assert OccursAt(s, [c], j);
    }
    if Contains(s, [c]) {
      var j := IndexOf(s, [c]).value;
      assert s[j..j + 1][0] == s[j];
    }
  }

  /** Occurrences in a suffix of `a + b` past `a` are occurrences in `b`. */
  lemma OccursAtShift(a: string, b: string, pat: string, j: nat)
    ensures OccursAt(a + b, pat, |a| + j) <==> OccursAt(b, pat, j)
  {
    if 0 <= j && j + |pat| <= |b| {
      assert (a + b)[|a| + j..|a| + j + |pat|] == b[j..j + |pat|];
    }
  }

  /** Occurrences in a prefix `s[..n]` are occurrences in `s`. */
  lemma OccursAtPrefix(s: string, pat: string, n: nat, j: int)
    requires n <= |s|
    ensures OccursAt(s[..n], pat, j) <==> OccursAt(s, pat, j) && j + |pat| <= n
  {
    if 0 <= j && j + |pat| <= n {
      assert s[..n][j..j + |pat|] == s[j..j + |pat|];
    }
  }

  /** No occurrence of `pat` starts inside `a` when `a` does not hold it and
      the first character of `b` appears in `pat` at most as its first. */
  lemma NoOccurrenceAcross(a: string, b: string, pat: string, j: nat)
    requires !Contains(a, pat) && j < |a| && |b| > 0
    requires forall k :: 0 < k < |pat| ==> pat[k] != b[0]
    ensures !OccursAt(a + b, pat, j)
  {
    var s := a + b;
    if j + |pat| <= |a| {
      OccursAtPrefix(s, pat, |a|, j);
      assert s[..|a|] == a;
      assert !OccursAt(a, pat, j);
    } else if j + |pat| <= |s| {
      assert s[j..j + |pat|][|a| - j] == b[0];
    }
  }

  /** When `pat` does not start anywhere inside `a`, searching `a + b` finds the
      first occurrence in `b`, shifted by `|a|`. */
  lemma IndexOfAfterPrefix(a: string, b: string, pat: string)
    requires forall j :: 0 <= j < |a| ==> !OccursAt(a + b, pat, j)
    ensures IndexOf(a + b, pat) == match IndexOf(b, pat) { case None => None case Some(i) => Some(|a| + i) }
  {
    match IndexOf(b, pat)
    case None =>
      if IndexOf(a + b, pat).Some? {
        var k := IndexOf(a + b, pat).value;
        assert k >= |a|;
        OccursAtShift(a, b, pat, k - |a|);
        assert false;
      }
    case Some(i) =>
      OccursAtShift(a, b, pat, i);
      var r := IndexOf(a + b, pat);
      if r.None? {
        assert false;
      } else if r.value < |a| + i {
        assert r.value >= |a|;
        OccursAtShift(a, b, pat, r.value - |a|);
        assert false;
      } else if r.value > |a| + i {
        assert false;
      }
  }

  /** The pieces `split` returns join back, with the same separator, into the
      original text. */
  lemma {:induction false} SplitJoin(s: string, sep: string)
    requires |sep| > 0
    ensures Join(Split(s, sep), sep) == s
    decreases |s|
  {
    match IndexOf(s, sep)
    case None =>
    case Some(i) =>
      var rest := s[i + |sep|..];
      var tail := Split(rest, sep);
      SplitJoin(rest, sep);
      assert Split(s, sep) == [s[..i]] + tail;
      assert ([s[..i]] + tail)[1..] == tail;
      calc {
        Join(Split(s, sep), sep);
        s[..i] + sep + Join(tail, sep);
        s[..i] + sep + rest;
        { assert s[i..i + |sep|] == sep; }
        s;
      }
  }

  /** No piece returned by `split` contains the separator. */
  lemma {:induction false} SplitPiecesFree(s: string, sep: string)
    requires |sep| > 0
    ensures forall k :: 0 <= k < |Split(s, sep)| ==> !Contains(Split(s, sep)[k], sep)
    decreases |s|
  {
    match IndexOf(s, sep)
    case None =>
    case Some(i) =>
      var rest := s[i + |sep|..];
      SplitPiecesFree(rest, sep);
      if Contains(s[..i], sep) {
        var j := IndexOf(s[..i], sep).value;
        OccursAtPrefix(s, sep, i, j);
        assert false;
      }
      assert Split(s, sep) == [s[..i]] + Split(rest, sep);
  }

  /** `split` returns the text itself, as the only piece, exactly when the
      separator does not occur in it. */
  lemma SplitSingleton(s: string, sep: string)
    requires |sep| > 0
    ensures !Contains(s, sep) <==> Split(s, sep) == [s]
    ensures !Contains(s, sep) <==> |Split(s, sep)| == 1
  {
    if Contains(s, sep) {
      var i := IndexOf(s, sep).value;
      assert |Split(s, sep)| == 1 + |Split(s[i + |sep|..], sep)|;
    }
  }

  /** `replace` with a pattern whose first occurrence is at `i`: the result is
      the text up to that occurrence, the replacement, and the rest. (A pattern
      that does not occur leaves the text unchanged: `ReplaceFirst`'s own
      contract.) */
  lemma ReplaceFirstAt(s: string, pat: string, rep: string, i: nat)
    requires OccursAt(s, pat, i)
    requires forall j :: 0 <= j < i ==> !OccursAt(s, pat, j)
    ensures ReplaceFirst(s, pat, rep) == s[..i] + rep + s[i + |pat|..]
  {
    assert IndexOf(s, pat) == Some(i);
  }

  /** A one-character pattern is first found at `i` when `s[i]` is that
      character and no earlier character is. */
  lemma IndexOfChar(s: string, c: char, i: nat)
    requires i < |s| && s[i] == c && c !in s[..i]
    ensures IndexOf(s, [c]) == Some(i)
  {
    assert s[i..i + 1] == [c];
    forall j | 0 <= j < i ensures !OccursAt(s, [c], j) {
      assert s[..i][j] == s[j];
      assert s[j..j + 1] == [s[j]];
    }
    IndexOfIs(s, [c], i);
  }

  /** The first occurrence is unique. */
  lemma IndexOfIs(s: string, pat: string, i: nat)
    requires OccursAt(s, pat, i)
    requires forall j :: 0 <= j < i ==> !OccursAt(s, pat, j)
    ensures IndexOf(s, pat) == Some(i)
  {
  }

  /** A text holding a non-empty pattern holds the pattern's first character. */
  lemma ContainsFirstChar(s: string, pat: string)
    requires |pat| > 0 && Contains(s, pat)
    ensures pat[0] in s
  {
    var i := IndexOf(s, pat).value;
    assert s[i..i + |pat|][0] == s[i];
  }

  /** Splitting on a character that occurs once gives the two sides. */
  lemma SplitOnce(s: string, c: char, i: nat)
    requires i < |s| && s[i] == c && c !in s[..i] && c !in s[i + 1..]
    ensures Split(s, [c]) == [s[..i], s[i + 1..]]
  {
    IndexOfChar(s, c, i);
    ContainsChar(s[i + 1..], c);
    SplitSingleton(s[i + 1..], [c]);
  }

  /** Splitting on a character that does not occur gives the text itself. */
  lemma SplitNone(s: string, c: char)
    requires c !in s
    ensures Split(s, [c]) == [s]
  {
    ContainsChar(s, c);
    SplitSingleton(s, [c]);
  }

  /** A text without spaces at either end is its own trim. */
  lemma TrimUnpadded(s: string)
    requires |s| > 0 ==> !IsJsSpace(s[0]) && !IsJsSpace(s[|s| - 1])
    ensures Trim(s) == s
  {
  }
}

/** The response sanitizer: `terminateAndRespond`'s post-processing of the text
    accumulated for one prompt (src/gpt4allplus.ts:376-434, src/gpt4all.ts:118-166).

    It strips one trailing `>`, splits the text into lines on the first line
    ending it finds (`\r`, else `\n`, else — plus variant only — the garbled
    replacement character), keeps the lines a regular expression accepts, and
    joins several survivors with spaces or trims a single one. When no line
    survives, `newResponse[0]` is `undefined` and the `.trim()` call throws. */
module Sanitizer {
  import opened Common
  import opened JsText

  /** The literal the plus variant splits on last: U+FFFD (the replacement
      character) whose UTF-8 bytes have been read as three Latin-1 characters. */
  const Garbled: string := "\U{00EF}\U{00BF}\U{00BD}"

  /** The character class of each variant's line filter:
      plus `/[a-zA-Z0-9`{}#-]/gm`, basic `/[a-zA-z0-9`{}]/gm`. In the basic one the
      range `A-z` runs from U+0041 to U+007A and so also takes `[ \ ] ^ _`. */
  predicate InClass(v: Variant, c: char)
  {
    match v
    case Plus =>
      ('a' <= c <= 'z') || ('A' <= c <= 'Z') || ('0' <= c <= '9')
      || c == '`' || c == '{' || c == '}' || c == '#' || c == '-'
    case Basic =>
      ('a' <= c <= 'z') || ('A' <= c <= 'z') || ('0' <= c <= '9')
      || c == '`' || c == '{' || c == '}'
  }

  /** Some character of `s` at index `k` or later is in the class. */
  ghost predicate ClassCharFrom(v: Variant, s: string, k: nat)
  {
    exists j :: k <= j < |s| && InClass(v, s[j])
  }

  /** The index of the first class character of `s` at or after `k`. */
  function FirstMatchFrom(v: Variant, s: string, k: nat): (r: Option<nat>)
    decreases |s| - k
    ensures r.Some? ==> k <= r.value < |s| && InClass(v, s[r.value])
    ensures r.Some? ==> forall j :: k <= j < r.value ==> !InClass(v, s[j])
    ensures r.None? <==> !ClassCharFrom(v, s, k)
  {
    if k >= |s| then None
    else if InClass(v, s[k]) then Some(k)
    else FirstMatchFrom(v, s, k + 1)
  }

  /** What `RegExp.prototype.test` returns on a global regular expression, and
      the `lastIndex` it leaves behind. */
  datatype TestStep = TestStep(matched: bool, lastIndex: nat)

  /** `re.test(s)` for the global one-character-class expression of variant `v`
      whose `lastIndex` is `lastIndex`: the search starts at `lastIndex`; a match
      at `i` sets `lastIndex` to `i + 1`; a failure (including a `lastIndex`
      past the end) resets it to 0. */
  function GlobalTest(v: Variant, s: string, lastIndex: nat): (r: TestStep)
    ensures r.matched <==> ClassCharFrom(v, s, lastIndex)
    ensures r.matched ==> lastIndex < r.lastIndex <= |s| && InClass(v, s[r.lastIndex - 1])
    ensures r.matched ==> forall j :: lastIndex <= j < r.lastIndex - 1 ==> !InClass(v, s[j])
    ensures !r.matched ==> r.lastIndex == 0
  {
    if lastIndex > |s| then TestStep(false, 0)
    else match FirstMatchFrom(v, s, lastIndex)
      case None => TestStep(false, 0)
      case Some(i) => TestStep(true, i + 1)
  }

  /** `pieces.filter(c => re.test(c))` with ONE regular expression object shared
      by every call (src/gpt4allplus.ts:383, 398-400, 404-406): the `lastIndex`
      one test leaves is where the next piece's search starts. */
  function KeepShared(v: Variant, pieces: seq<string>, lastIndex: nat): (r: seq<string>)
    decreases |pieces|
    ensures |r| <= |pieces|
    ensures forall k :: 0 <= k < |r| ==> r[k] in pieces && ClassCharFrom(v, r[k], 0)
  {
    if |pieces| == 0 then []
    else
      var t := GlobalTest(v, pieces[0], lastIndex);
      (if t.matched then [pieces[0]] else []) + KeepShared(v, pieces[1..], t.lastIndex)
  }

  /** `pieces.filter(t => /…/gm.test(t))` with the literal evaluated afresh for
      each piece (src/gpt4all.ts:134-142): every test starts at index 0. */
  function KeepFresh(v: Variant, pieces: seq<string>): (r: seq<string>)
    decreases |pieces|
    ensures |r| <= |pieces|
    ensures forall k :: 0 <= k < |r| ==> r[k] in pieces && ClassCharFrom(v, r[k], 0)
  {
    if |pieces| == 0 then []
    else (if GlobalTest(v, pieces[0], 0).matched then [pieces[0]] else []) + KeepFresh(v, pieces[1..])
  }

  /** `pieces.filter(c => c !== "")`. */
  function KeepNonEmpty(pieces: seq<string>): (r: seq<string>)
    decreases |pieces|
    ensures |r| <= |pieces|
    ensures forall k :: 0 <= k < |r| ==> r[k] in pieces && r[k] != ""
  {
    if |pieces| == 0 then []
    else (if pieces[0] != "" then [pieces[0]] else []) + KeepNonEmpty(pieces[1..])
  }

  /** The line filter each variant applies after splitting on `\r` or `\n`. */
  function KeepLines(v: Variant, lines: seq<string>): seq<string>
  {
    match v
    case Plus => KeepShared(Plus, lines, 0)
    case Basic => KeepFresh(Basic, lines)
  }

  /** The separator `terminateAndRespond` splits on: `\r` if the text has one,
      else `\n`, else (plus variant only) the garbled character; `None` when the
      text is left whole. */
  function Delimiter(v: Variant, text: string): (d: Option<string>)
    ensures d == Some("\r") <==> Contains(text, "\r")
    ensures d == Some("\n") <==> Contains(text, "\n") && !Contains(text, "\r")
    ensures d == Some(Garbled) <==> v == Plus && Contains(text, Garbled) && !Contains(text, "\r") && !Contains(text, "\n")
    ensures d.Some? ==> Contains(text, d.value) && d.value in {"\r", "\n", Garbled}
  {
    if Contains(text, "\r") then Some("\r")
    else if Contains(text, "\n") then Some("\n")
    else if v == Plus && Contains(text, Garbled) then Some(Garbled)
    else None
  }

  /** The filter applied to the pieces split on `d`: the line filter for the line
      endings, non-emptiness alone for the garbled character. */
  function KeepPieces(v: Variant, d: string, pieces: seq<string>): (r: seq<string>)
    ensures |r| <= |pieces|
    ensures forall k :: 0 <= k < |r| ==> r[k] in pieces && r[k] != ""
  {
    if d == Garbled then KeepNonEmpty(pieces) else KeepLines(v, pieces)
  }

  /** The array `newResponse` becomes, or `None` while it is still a string
      (no delimiter found). The split always reads the unstripped text. */
  function Pieces(v: Variant, text: string): Option<seq<string>>
  {
    match Delimiter(v, text)
    case None => None
    case Some(d) => Some(KeepPieces(v, d, Split(text, d)))
  }

  /** The rejection when no piece survives: the plus variant rejects with the
      TypeError itself; the basic variant catches it and rejects with "". */
  function EmptyReason(v: Variant): Reason
  {
    match v
    case Plus => TrimOfUndefined
    case Basic => Thrown("")
  }

  /** The text with one trailing `>` removed. */
  function StripMarker(text: string): string
  {
    if EndsWith(text, ">") then DropLast(text) else text
  }

  /** The whole of `terminateAndRespond`'s `try` block. */
  function Sanitize(v: Variant, text: string): (r: Answer)
    ensures r.Rejected? ==> r.reason == EmptyReason(v) && Delimiter(v, text).Some?
    ensures Delimiter(v, text).None? ==> r == Resolved(Trim(StripMarker(text)))
  {
    match Pieces(v, text)
    case None => Resolved(Trim(StripMarker(text)))
    case Some(ps) =>
      if |ps| > 1 then Resolved(Join(ps, " "))
      else if |ps| == 1 then Resolved(Trim(ps[0]))
      else Rejected(EmptyReason(v))
  }

  // ---------------------------------------------------------------------------
  // The line filters.

  /** `xs` is `ys` with some elements left out. */
  ghost predicate IsSubsequence(xs: seq<string>, ys: seq<string>)
    decreases |ys|
  {
    if |xs| == 0 then true
    else if |ys| == 0 then false
    else (xs[0] == ys[0] && IsSubsequence(xs[1..], ys[1..])) || IsSubsequence(xs, ys[1..])
  }

  /** A fresh test accepts exactly the pieces holding a class character, so the
      basic filter keeps exactly those, in order. */
  lemma {:induction false} KeepFreshExact(v: Variant, pieces: seq<string>)
    ensures KeepFresh(v, pieces) == FilterByClass(v, pieces)
    decreases |pieces|
  {
    if |pieces| > 0 {
      KeepFreshExact(v, pieces[1..]);
    }
  }

  /** The reference for the line filter: the pieces holding a character of the
      class, in order. */
  ghost function FilterByClass(v: Variant, pieces: seq<string>): (r: seq<string>)
    decreases |pieces|
    ensures forall k :: 0 <= k < |r| ==> r[k] in pieces && ClassCharFrom(v, r[k], 0)
    ensures forall k :: 0 <= k < |pieces| && ClassCharFrom(v, pieces[k], 0) ==> pieces[k] in r
  {
    if |pieces| == 0 then []
    else
      var rest := FilterByClass(v, pieces[1..]);
      assert forall k :: 1 <= k < |pieces| ==> pieces[k] == pieces[1..][k - 1];
      (if ClassCharFrom(v, pieces[0], 0) then [pieces[0]] else []) + rest
  }

  /** The shared-`lastIndex` filter keeps a subsequence of what the reference
      keeps: it never accepts a piece without a class character, but it can
      reject one that has one. */
  lemma {:induction false} KeepSharedWithinReference(v: Variant, pieces: seq<string>, lastIndex: nat)
    ensures IsSubsequence(KeepShared(v, pieces, lastIndex), FilterByClass(v, pieces))
    decreases |pieces|
  {
    if |pieces| > 0 {
      var p := pieces[0];
      var t := GlobalTest(v, p, lastIndex);
      var rest := KeepShared(v, pieces[1..], t.lastIndex);
      var ref := FilterByClass(v, pieces[1..]);
      KeepSharedWithinReference(v, pieces[1..], t.lastIndex);
      if t.matched {
        assert ClassCharFrom(v, p, 0);
        assert KeepShared(v, pieces, lastIndex) == [p] + rest;
        assert FilterByClass(v, pieces) == [p] + ref;
        assert ([p] + rest)[1..] == rest && ([p] + ref)[1..] == ref;
      } else if ClassCharFrom(v, p, 0) {
        assert KeepShared(v, pieces, lastIndex) == rest;
        assert FilterByClass(v, pieces) == [p] + ref;
        assert ([p] + ref)[1..] == ref;
        SubsequenceOfTail(rest, ref, p);
      } else {
        assert KeepShared(v, pieces, lastIndex) == rest;
        assert FilterByClass(v, pieces) == ref;
      }
    }
  }

  /** Leaving out one more element keeps a subsequence a subsequence. */
  lemma SubsequenceOfTail(xs: seq<string>, ys: seq<string>, y: string)
    requires IsSubsequence(xs, ys)
    ensures IsSubsequence(xs, [y] + ys)
  {
    assert ([y] + ys)[1..] == ys;
  }

  /** A piece tested first, or right after a rejected piece (which resets
      `lastIndex` to 0), is judged exactly as by a fresh expression. */
  lemma KeepSharedAfterReset(v: Variant, p: string, pieces: seq<string>)
    ensures KeepShared(v, [p] + pieces, 0) ==
      if ClassCharFrom(v, p, 0) then [p] + KeepShared(v, pieces, GlobalTest(v, p, 0).lastIndex)
      else KeepShared(v, pieces, 0)
  {
    assert ([p] + pieces)[1..] == pieces;
  }

  /** The shared `lastIndex` makes the plus filter drop a line that a fresh
      expression accepts: after "abc" matches at index 0, the search in "d"
      starts at index 1 and fails. */
  lemma SharedLastIndexDropsLine()
    ensures KeepShared(Plus, ["abc", "d"], 0) == ["abc"]
    ensures FilterByClass(Plus, ["abc", "d"]) == ["abc", "d"]
  {
    assert GlobalTest(Plus, "abc", 0) == TestStep(true, 1);
    assert GlobalTest(Plus, "d", 1) == TestStep(false, 0);
    assert ["abc", "d"][1..] == ["d"];
    assert InClass(Plus, "d"[0]);
  }

  /** The basic class accepts the five characters between `Z` and `a`. */
  lemma BasicClassTakesPunctuation(c: char)
    ensures InClass(Basic, c) <==> (InClass(Plus, c) && c != '#' && c != '-') || c in "[\\]^_"
  {
  }

  /** The shared `lastIndex` never empties the filter's result on its own: the
      first line holding a class character is tested with `lastIndex` 0, since
      every line before it failed and reset it. */
  lemma {:induction false} KeepSharedEmptyIff(v: Variant, pieces: seq<string>)
    ensures KeepShared(v, pieces, 0) == [] <==> forall k :: 0 <= k < |pieces| ==> !ClassCharFrom(v, pieces[k], 0)
    decreases |pieces|
  {
    if |pieces| > 0 {
      KeepSharedEmptyIff(v, pieces[1..]);
      assert forall k :: 1 <= k < |pieces| ==> pieces[k] == pieces[1..][k - 1];
      assert !ClassCharFrom(v, pieces[0], 0) ==> KeepShared(v, pieces, 0) == KeepShared(v, pieces[1..], 0);
    }
  }

  /** The non-emptiness filter keeps nothing iff every piece is empty. */
  lemma {:induction false} KeepNonEmptyEmptyIff(pieces: seq<string>)
    ensures KeepNonEmpty(pieces) == [] <==> forall k :: 0 <= k < |pieces| ==> pieces[k] == ""
    decreases |pieces|
  {
    if |pieces| > 0 {
      KeepNonEmptyEmptyIff(pieces[1..]);
      assert forall k :: 1 <= k < |pieces| ==> pieces[k] == pieces[1..][k - 1];
    }
  }

  /** The non-emptiness filter keeps exactly the non-empty pieces: each one
      as often as it occurs, no empty one, and in their original order. */
  lemma {:induction false} KeepNonEmptyExactly(pieces: seq<string>)
    ensures IsSubsequence(KeepNonEmpty(pieces), pieces)
    ensures forall x :: multiset(KeepNonEmpty(pieces))[x] == (if x == "" then 0 else multiset(pieces)[x])
    decreases |pieces|
  {
    if |pieces| > 0 {
      var p := pieces[0];
      var rest := KeepNonEmpty(pieces[1..]);
      KeepNonEmptyExactly(pieces[1..]);
      assert pieces == [p] + pieces[1..];
      assert multiset(pieces) == multiset([p]) + multiset(pieces[1..]);
      if p != "" {
        assert KeepNonEmpty(pieces) == [p] + rest;
        assert ([p] + rest)[1..] == rest;
        assert multiset(KeepNonEmpty(pieces)) == multiset([p]) + multiset(rest);
      } else {
        assert KeepNonEmpty(pieces) == rest;
      }
    }
  }

  /** A piece split on `d` that its filter keeps: a non-empty one for the
      garbled character, one holding a class character for a line ending. */
  ghost predicate Survives(v: Variant, d: string, piece: string)
  {
    if d == Garbled then piece != "" else ClassCharFrom(v, piece, 0)
  }

  /** A split's pieces all fail their filter exactly when none survives. */
  lemma KeepPiecesEmptyIff(v: Variant, d: string, pieces: seq<string>)
    ensures KeepPieces(v, d, pieces) == [] <==> forall k :: 0 <= k < |pieces| ==> !Survives(v, d, pieces[k])
  {
    if d == Garbled {
      KeepNonEmptyEmptyIff(pieces);
    } else if v == Plus {
      KeepSharedEmptyIff(Plus, pieces);
    } else {
      KeepFreshExact(Basic, pieces);
      FilterByClassEmptyIff(Basic, pieces);
    }
  }

  /** The sanitizer rejects exactly when it split the text and none of the
      pieces survives its filter, and then with the variant's reason; text
      without a delimiter always resolves. */
  lemma SanitizeRejects(v: Variant, text: string)
    ensures Sanitize(v, text).Rejected? <==>
      Delimiter(v, text).Some? &&
      forall k :: 0 <= k < |Split(text, Delimiter(v, text).value)| ==>
        !Survives(v, Delimiter(v, text).value, Split(text, Delimiter(v, text).value)[k])
    ensures Sanitize(v, text).Rejected? ==> Sanitize(v, text).reason == EmptyReason(v)
  {
    if Delimiter(v, text).Some? {
      var d := Delimiter(v, text).value;
      var ps := KeepPieces(v, d, Split(text, d));
      KeepPiecesEmptyIff(v, d, Split(text, d));
      assert Pieces(v, text) == Some(ps);
      assert Sanitize(v, text).Rejected? <==> |ps| == 0;
      assert (forall k :: 0 <= k < |Split(text, d)| ==> !Survives(v, d, Split(text, d)[k])) <==> ps == [];
    } else {
      assert Pieces(v, text) == None;
    }
  }

  /** The reference filter is empty exactly when no piece holds a class character. */
  lemma FilterByClassEmptyIff(v: Variant, pieces: seq<string>)
    ensures FilterByClass(v, pieces) == [] <==> forall k :: 0 <= k < |pieces| ==> !ClassCharFrom(v, pieces[k], 0)
  {
    if FilterByClass(v, pieces) != [] {
      assert FilterByClass(v, pieces)[0] in pieces;
    }
  }

  // ---------------------------------------------------------------------------
  // Which characters an answer can hold.

  /** The characters of a string. */
  ghost function Chars(s: string): set<char>
  {
    set c | c in s
  }

  /** The characters of all the pieces. */
  ghost function CharsOf(pieces: seq<string>): set<char>
    decreases |pieces|
  {
    if |pieces| == 0 then {} else Chars(pieces[0]) + CharsOf(pieces[1..])
  }

  lemma CharsConcat(a: string, b: string)
    ensures Chars(a + b) == Chars(a) + Chars(b)
  {
    forall c | c in a + b ensures c in a || c in b {
      var j :| 0 <= j < |a + b| && (a + b)[j] == c;
      if j >= |a| { assert b[j - |a|] == c; }
    }
    forall c | c in a ensures c in a + b {
      var j :| 0 <= j < |a| && a[j] == c;
      assert (a + b)[j] == c;
    }
    forall c | c in b ensures c in a + b {
      var j :| 0 <= j < |b| && b[j] == c;
      assert (a + b)[|a| + j] == c;
    }
  }

  lemma CharsOfCons(p: string, pieces: seq<string>)
    ensures CharsOf([p] + pieces) == Chars(p) + CharsOf(pieces)
  {
    assert ([p] + pieces)[1..] == pieces;
  }

  lemma SliceChars(s: string, lo: nat, hi: nat)
    requires lo <= hi <= |s|
    ensures Chars(s[lo..hi]) <= Chars(s)
  {
    forall c | c in s[lo..hi] ensures c in s {
      var j :| 0 <= j < hi - lo && s[lo..hi][j] == c;
      assert s[lo + j] == c;
    }
  }

  /** Before the first occurrence of a one-character separator, the text does
      not hold that character. */
  lemma SeparatorCharAbsent(s: string, sep: string, i: nat)
    requires |sep| == 1 && i <= |s|
    requires forall j :: 0 <= j < i ==> !OccursAt(s, sep, j)
    ensures sep[0] !in s[..i]
  {
    forall j | 0 <= j < i ensures s[..i][j] != sep[0] {
      assert !OccursAt(s, sep, j);
      assert s[j..j + 1] == [s[j]];
    }
  }

  /** The pieces of a split hold only characters of the text, and never the
      one-character separator. */
  lemma {:induction false} SplitChars(s: string, sep: string)
    requires |sep| > 0
    ensures CharsOf(Split(s, sep)) <= Chars(s)
    ensures |sep| == 1 ==> sep[0] !in CharsOf(Split(s, sep))
    decreases |s|
  {
    match IndexOf(s, sep)
    case None =>
      CharsOfCons(s, []);
      if |sep| == 1 {
        SeparatorCharAbsent(s, sep, |s|);
        assert s[..|s|] == s;
      }
    case Some(i) =>
      var rest := s[i + |sep|..];
      SplitChars(rest, sep);
      CharsOfCons(s[..i], Split(rest, sep));
      SliceChars(s, 0, i);
      assert s[0..i] == s[..i];
      SliceChars(s, i + |sep|, |s|);
      assert s[i + |sep|..|s|] == rest;
      if |sep| == 1 {
        SeparatorCharAbsent(s, sep, i);
      }
  }

  /** Filtering keeps only pieces it was given. */
  lemma {:induction false} KeepPiecesChars(v: Variant, d: string, pieces: seq<string>)
    ensures CharsOf(KeepPieces(v, d, pieces)) <= CharsOf(pieces)
  {
    if d == Garbled {
      KeepNonEmptyChars(pieces);
    } else if v == Plus {
      KeepSharedChars(Plus, pieces, 0);
    } else {
      KeepFreshChars(Basic, pieces);
    }
  }

  lemma {:induction false} KeepNonEmptyChars(pieces: seq<string>)
    ensures CharsOf(KeepNonEmpty(pieces)) <= CharsOf(pieces)
    decreases |pieces|
  {
    if |pieces| > 0 {
      KeepNonEmptyChars(pieces[1..]);
      var rest := KeepNonEmpty(pieces[1..]);
      if pieces[0] != "" { CharsOfCons(pieces[0], rest); } else { assert [] + rest == rest; }
    }
  }

  lemma {:induction false} KeepSharedChars(v: Variant, pieces: seq<string>, lastIndex: nat)
    ensures CharsOf(KeepShared(v, pieces, lastIndex)) <= CharsOf(pieces)
    decreases |pieces|
  {
    if |pieces| > 0 {
      var t := GlobalTest(v, pieces[0], lastIndex);
      KeepSharedChars(v, pieces[1..], t.lastIndex);
      var rest := KeepShared(v, pieces[1..], t.lastIndex);
      if t.matched { CharsOfCons(pieces[0], rest); } else { assert [] + rest == rest; }
    }
  }

  lemma {:induction false} KeepFreshChars(v: Variant, pieces: seq<string>)
    ensures CharsOf(KeepFresh(v, pieces)) <= CharsOf(pieces)
    decreases |pieces|
  {
    if |pieces| > 0 {
      KeepFreshChars(v, pieces[1..]);
      var rest := KeepFresh(v, pieces[1..]);
      if GlobalTest(v, pieces[0], 0).matched { CharsOfCons(pieces[0], rest); } else { assert [] + rest == rest; }
    }
  }

  /** Joining adds only the separator's characters. */
  lemma {:induction false} JoinChars(pieces: seq<string>, sep: string)
    ensures Chars(Join(pieces, sep)) <= CharsOf(pieces) + Chars(sep)
    decreases |pieces|
  {
    if |pieces| == 1 {
      CharsOfCons(pieces[0], []);
      assert pieces == [pieces[0]] + [];
    } else if |pieces| > 1 {
      JoinChars(pieces[1..], sep);
      assert pieces == [pieces[0]] + pieces[1..];
      CharsOfCons(pieces[0], pieces[1..]);
      CharsConcat(pieces[0] + sep, Join(pieces[1..], sep));
      CharsConcat(pieces[0], sep);
    }
  }

  /** Trimming removes characters and adds none. */
  lemma TrimChars(s: string)
    ensures Chars(Trim(s)) <= Chars(s)
  {
    var r := Trim(s);
    var lead := LeadingSpaces(s);
    forall c | c in r ensures c in s {
      var j :| 0 <= j < |r| && r[j] == c;
      assert s[lead + j] == c;
    }
  }

  /** The surviving pieces hold only characters of the text, never a carriage
      return, and a line feed only when the text had a carriage return. */
  lemma PiecesChars(v: Variant, text: string)
    requires Pieces(v, text).Some?
    ensures CharsOf(Pieces(v, text).value) <= Chars(text)
    ensures '\r' !in CharsOf(Pieces(v, text).value)
    ensures '\n' in CharsOf(Pieces(v, text).value) ==> '\r' in text
  {
    var d := Delimiter(v, text).value;
    var lines := Split(text, d);
    SplitChars(text, d);
    KeepPiecesChars(v, d, lines);
    ContainsChar(text, '\r');
    ContainsChar(text, '\n');
    if d == "\r" {
      assert d[0] == '\r';
    } else if d == "\n" {
      assert d[0] == '\n';
    }
  }

  /** The answer built from surviving pieces adds at most spaces to them. */
  lemma FinishChars(v: Variant, text: string)
    requires Pieces(v, text).Some? && Sanitize(v, text).Resolved?
    ensures Chars(Sanitize(v, text).text) <= CharsOf(Pieces(v, text).value) + {' '}
  {
    var ps := Pieces(v, text).value;
    if |ps| > 1 {
      JoinChars(ps, " ");
    } else {
      TrimChars(ps[0]);
      CharsOfCons(ps[0], []);
      assert ps == [ps[0]] + [];
    }
  }

  /** Line-ending normalisation: a resolved answer holds only characters of the
      text and spaces; it never holds a carriage return, and holds a line feed
      only when the text had a carriage return (and so was split on that). */
  lemma AnswerChars(v: Variant, text: string)
    requires Sanitize(v, text).Resolved?
    ensures Chars(Sanitize(v, text).text) <= Chars(text) + {' '}
    ensures '\r' !in Sanitize(v, text).text
    ensures '\n' in Sanitize(v, text).text ==> '\r' in text
  {
    var a := Sanitize(v, text).text;
    ContainsChar(text, '\r');
    ContainsChar(text, '\n');
    if Pieces(v, text).None? {
      var stripped := StripMarker(text);
      assert Chars(stripped) <= Chars(text) by {
        if EndsWith(text, ">") {
          forall c | c in stripped ensures c in text {
            var j :| 0 <= j < |stripped| && stripped[j] == c;
            assert text[j] == c;
          }
        }
      }
      TrimChars(stripped);
      assert a == Trim(stripped);
    } else {
      PiecesChars(v, text);
      FinishChars(v, text);
      assert '\r' !in Chars(a);
      assert '\n' in a ==> '\n' in Chars(a);
    }
  }

  // ---------------------------------------------------------------------------
  // The two shapes of the result.

  /** Text with no delimiter is not split: one trailing `>` is removed and the
      rest trimmed, and the answer always resolves. */
  lemma WholeText(v: Variant, text: string)
    requires '\r' !in text && '\n' !in text && (v == Plus ==> !Contains(text, Garbled))
    ensures Sanitize(v, text) == Resolved(Trim(StripMarker(text)))
  {
    ContainsChar(text, '\r');
    ContainsChar(text, '\n');
  }

  /** Text holding a carriage return, or a line feed and no carriage return, is
      split on that character — the unstripped text, so a trailing `>` stays in
      the last line — and the lines the filter keeps are joined with single
      spaces, untrimmed, or the one survivor trimmed; none surviving rejects. */
  lemma SplitOnLineEnding(v: Variant, text: string, c: char)
    requires c == '\r' || (c == '\n' && '\r' !in text)
    requires c in text
    ensures Sanitize(v, text) ==
      var ps := KeepLines(v, Split(text, [c]));
      if |ps| > 1 then Resolved(Join(ps, " "))
      else if |ps| == 1 then Resolved(Trim(ps[0]))
      else Rejected(EmptyReason(v))
  {
    ContainsChar(text, c);
    ContainsChar(text, '\r');
    assert Delimiter(v, text) == Some([c]);
    assert [c] != Garbled;
  }

  // ---------------------------------------------------------------------------
  // Worked cases.

  lemma OnlyLine()
    ensures Trim(StripMarker("only line>")) == "only line"
  {
    assert StripMarker("only line>") == "only line";
    TrimUnpadded("only line");
  }

  /** A single line keeps no marker: `"only line>"` gives `"only line"`, and the
      empty text gives the empty answer. */
  lemma SingleLineExamples(v: Variant)
    ensures Sanitize(v, "only line>") == Resolved("only line")
    ensures Sanitize(v, "") == Resolved("")
  {
    OnlySingleLine(v, "only line>");
    WholeText(v, "");
  }

  lemma OnlySingleLine(v: Variant, text: string)
    requires text == "only line>"
    ensures Sanitize(v, text) == Resolved("only line")
  {
    OnlyLine();
    assert Garbled[0] !in text;
    if Contains(text, Garbled) { ContainsFirstChar(text, Garbled); }
    WholeText(v, text);
  }

  lemma SplitAB(s: string)
    requires s == "a\nb>"
    ensures Split(s, "\n") == ["a", "b>"]
  {
    SplitOnce(s, '\n', 1);
    assert s[..1] == "a" && s[2..] == "b>";
  }

  lemma KeepAB(lines: seq<string>)
    requires lines == ["a", "b>"]
    ensures KeepLines(Basic, lines) == lines
    ensures KeepLines(Plus, lines) == ["a"]
    ensures Join(lines, " ") == "a b>"
  {
    assert lines[1][0] == 'b' && lines[1][1] == '>';
    assert GlobalTest(Plus, lines[0], 0) == TestStep(true, 1);
    assert GlobalTest(Plus, lines[1], 1) == TestStep(false, 0);
    assert GlobalTest(Basic, lines[0], 0).matched;
    assert GlobalTest(Basic, lines[1], 0).matched;
    assert lines[1..] == [lines[1]] && lines[1..][1..] == [];
    assert KeepShared(Plus, lines[1..], 1) == [] + KeepShared(Plus, [], 0);
    assert KeepFresh(Basic, lines[1..]) == [lines[1]] + KeepFresh(Basic, []);
    assert Join(lines, " ") == "a" + " " + "b>";
  }

  /** Once a line ending is found, the trailing `>` stays in the last line:
      `"a\nb>"` gives `"a b>"` in the basic variant. */
  lemma MarkerKeptWhenSplit()
    ensures Sanitize(Basic, "a\nb>") == Resolved("a b>")
  {
    SplitOnLineEnding(Basic, "a\nb>", '\n');
    SplitAB("a\nb>");
    KeepAB(["a", "b>"]);
  }

  /** In the plus variant the same text loses its second line to the shared
      `lastIndex`: `"a"` matches at 0, the search in `"b>"` starts at 1 and
      finds only `>`. */
  lemma SharedLastIndexDropsLastLine(text: string)
    requires text == "a\nb>"
    ensures Sanitize(Plus, text) == Resolved("a")
  {
    SplitOnLineEnding(Plus, text, '\n');
    SplitAB(text);
    KeepAB(["a", "b>"]);
    var ps := KeepLines(Plus, Split(text, "\n"));
    assert ps == ["a"];
    assert Sanitize(Plus, text) == Resolved(Trim(ps[0]));
    TrimOfA();
  }

  lemma TrimOfA()
    ensures Trim("a") == "a"
  {
    TrimUnpadded("a");
  }

  lemma SplitCarriageReturnText(s: string)
    requires s == "a\nb\rcd"
    ensures Split(s, "\r") == ["a\nb", "cd"]
  {
    SplitOnce(s, '\r', 3);
    assert s[..3] == "a\nb" && s[4..] == "cd";
  }

  lemma KeepCarriageReturnLines(lines: seq<string>)
    requires lines == ["a\nb", "cd"]
    ensures KeepLines(Basic, lines) == lines
    ensures KeepLines(Plus, lines) == lines
    ensures Join(lines, " ") == "a\nb cd"
  {
    assert lines[0][0] == 'a' && lines[1][0] == 'c' && lines[1][1] == 'd';
    assert GlobalTest(Plus, lines[0], 0) == TestStep(true, 1);
    assert GlobalTest(Plus, lines[1], 1) == TestStep(true, 2);
    assert GlobalTest(Basic, lines[0], 0).matched;
    assert GlobalTest(Basic, lines[1], 0).matched;
    assert lines[1..] == [lines[1]] && lines[1..][1..] == [];
    assert KeepShared(Plus, lines[1..], 1) == [lines[1]] + KeepShared(Plus, [], 2);
    assert KeepFresh(Basic, lines[1..]) == [lines[1]] + KeepFresh(Basic, []);
    assert Join(lines, " ") == "a\nb" + " " + "cd";
  }

  lemma LinesOfCarriageReturnText()
    ensures Split("a\nb\rcd", "\r") == ["a\nb", "cd"]
    ensures KeepLines(Basic, ["a\nb", "cd"]) == ["a\nb", "cd"]
    ensures KeepLines(Plus, ["a\nb", "cd"]) == ["a\nb", "cd"]
    ensures Join(["a\nb", "cd"], " ") == "a\nb cd"
  {
    SplitCarriageReturnText("a\nb\rcd");
    KeepCarriageReturnLines(["a\nb", "cd"]);
  }

  /** With both line endings present only `\r` splits; the line feed stays
      inside the first line. */
  lemma CarriageReturnFirst(v: Variant)
    ensures Sanitize(v, "a\nb\rcd") == Resolved("a\nb cd")
  {
    SplitOnLineEnding(v, "a\nb\rcd", '\r');
    LinesOfCarriageReturnText();
  }

  /** Splitting at a garbled character preceded by text without its first
      character. */
  lemma SplitAtGarbled(a: string, b: string)
    requires Garbled[0] !in a
    ensures Split(a + Garbled + b, Garbled) == [a] + Split(b, Garbled)
  {
    var s := a + Garbled + b;
    forall j | 0 <= j < |a| ensures !OccursAt(s, Garbled, j) {
      if j + 3 <= |s| {
        assert s[j..j + 3][0] == a[j];
      }
    }
    assert s[|a|..|a| + 3] == Garbled;
    IndexOfIs(s, Garbled, |a|);
    assert s[..|a|] == a && s[|a| + 3..] == b;
  }

  lemma SplitWithoutGarbled(b: string)
    requires Garbled[0] !in b
    ensures Split(b, Garbled) == [b]
  {
    if Contains(b, Garbled) {
      ContainsFirstChar(b, Garbled);
    }
    SplitSingleton(b, Garbled);
  }

  lemma SplitGarbledText(text: string)
    requires text == "?!" + Garbled + Garbled + ".."
    ensures Split(text, Garbled) == ["?!", "", ".."]
  {
    SplitAtGarbled("?!", Garbled + "..");
    assert "?!" + Garbled + (Garbled + "..") == text;
    SplitAtGarbled("", "..");
    assert "" + Garbled + ".." == Garbled + "..";
    SplitWithoutGarbled("..");
  }

  lemma KeepGarbledPieces(pieces: seq<string>)
    requires pieces == ["?!", "", ".."]
    ensures KeepNonEmpty(pieces) == ["?!", ".."]
    ensures Join(["?!", ".."], " ") == "?! .."
  {
    var tail := pieces[1..];
    assert tail == ["", ".."] && tail[1..] == [".."] && tail[1..][1..] == [];
    assert KeepNonEmpty(tail[1..]) == [".."] + KeepNonEmpty([]);
    assert KeepNonEmpty(tail) == [] + KeepNonEmpty(tail[1..]);
    assert KeepNonEmpty(pieces) == ["?!"] + KeepNonEmpty(tail);
    assert ["?!", ".."][1..] == [".."];
  }

  /** Pieces split on the garbled character are filtered only for being
      non-empty: punctuation-only pieces, which the character class would
      reject, survive. */
  lemma GarbledPiecesUnfiltered(text: string)
    requires text == "?!" + Garbled + Garbled + ".."
    ensures Sanitize(Plus, text) == Resolved("?! ..")
  {
    ContainsChar(text, '\r');
    ContainsChar(text, '\n');
    assert text[2..5] == Garbled;
    assert OccursAt(text, Garbled, 2);
    assert Delimiter(Plus, text) == Some(Garbled);
    SplitGarbledText(text);
    KeepGarbledPieces(["?!", "", ".."]);
  }

  lemma SplitWorldLine(s: string, last: string)
    requires s == "world\n" + last && '\n' !in last
    ensures Split(s, "\n") == ["world", last]
  {
    SplitOnce(s, '\n', 5);
    assert s[..5] == "world" && s[6..] == last;
  }

  lemma SplitHelloLine(s: string, rest: string)
    requires s == "hello\n" + rest
    ensures Split(s, "\n") == ["hello"] + Split(rest, "\n")
  {
    IndexOfChar(s, '\n', 5);
    assert s[..5] == "hello" && s[6..] == rest;
  }

  lemma LinesOfHelloWorld(s: string, last: string)
    requires s == "hello\nworld\n" + last && '\n' !in last
    ensures Split(s, "\n") == ["hello", "world", last]
  {
    SplitHelloLine(s, "world\n" + last);
    SplitWorldLine("world\n" + last, last);
  }

  lemma KeepHelloWorld(plusLines: seq<string>, basicLines: seq<string>)
    requires plusLines == ["hello", "world", ">"] && basicLines == ["hello", "world", ""]
    ensures KeepLines(Plus, plusLines) == ["hello", "world"]
    ensures KeepLines(Basic, basicLines) == ["hello", "world"]
    ensures Join(["hello", "world"], " ") == "hello world"
  {
    KeepHelloWorldPlus(plusLines);
    KeepHelloWorldBasic(basicLines);
    var joined := ["hello", "world"];
    assert joined[1..] == ["world"];
    assert Join(joined, " ") == "hello" + " " + "world";
  }

  lemma KeepHelloWorldPlus(lines: seq<string>)
    requires lines == ["hello", "world", ">"]
    ensures KeepLines(Plus, lines) == ["hello", "world"]
  {
    assert lines[0][0] == 'h' && lines[1][0] == 'w' && lines[1][1] == 'o' && lines[2][0] == '>';
    assert GlobalTest(Plus, lines[0], 0) == TestStep(true, 1);
    assert GlobalTest(Plus, lines[1], 1) == TestStep(true, 2);
    assert GlobalTest(Plus, lines[2], 2) == TestStep(false, 0);
    var tail := lines[1..];
    assert tail == [lines[1], lines[2]] && tail[1..] == [lines[2]] && tail[1..][1..] == [];
    assert KeepShared(Plus, tail[1..], 2) == [] + KeepShared(Plus, [], 0);
    assert KeepShared(Plus, tail, 1) == [lines[1]] + KeepShared(Plus, tail[1..], 2);
  }

  lemma KeepHelloWorldBasic(lines: seq<string>)
    requires lines == ["hello", "world", ""]
    ensures KeepLines(Basic, lines) == ["hello", "world"]
  {
    assert lines[0][0] == 'h' && lines[1][0] == 'w';
    assert GlobalTest(Basic, lines[0], 0).matched && GlobalTest(Basic, lines[1], 0).matched;
    assert !GlobalTest(Basic, lines[2], 0).matched;
    var tail := lines[1..];
    assert tail == [lines[1], lines[2]] && tail[1..] == [lines[2]] && tail[1..][1..] == [];
    assert KeepFresh(Basic, tail[1..]) == [] + KeepFresh(Basic, []);
    assert KeepFresh(Basic, tail) == [lines[1]] + KeepFresh(Basic, tail[1..]);
  }

  /** The two lines of a reply: in the plus variant the marker line is
      dropped by the filter; in the basic variant the marker never arrives and
      the empty last line is dropped. */
  lemma HelloWorld(hello: string, world: string, marker: string)
    requires hello == "hello\n" && world == "world\n" && marker == ">"
    ensures Sanitize(Plus, hello + world + marker) == Resolved("hello world")
    ensures Sanitize(Basic, hello + world) == Resolved("hello world")
  {
    var plusText, basicText := hello + world + marker, hello + world;
    assert basicText == "hello\nworld\n" + "";
    assert plusText == "hello\nworld\n" + marker;
    SplitOnLineEnding(Plus, plusText, '\n');
    SplitOnLineEnding(Basic, basicText, '\n');
    LinesOfHelloWorld(plusText, marker);
    LinesOfHelloWorld(basicText, "");
    KeepHelloWorld(["hello", "world", ">"], ["hello", "world", ""]);
  }
}

// The first step of `G9JsonToObject`: a regular-expression replacement that deletes every match of
// `(/\*[^*/]*\*/)|("#__Comment[^,]*",)`, meant to drop the nonstandard `/* note */` comments and
// the standard `"#__Comment{n}__#":"{note}",` entries the writer emits.
module CommentFilter {
  import opened Wrappers
  import opened Text
  import opened JsonScanner
  import opened Escaping

  /** The first index at or after `j` holding `a` or `b`, or the length when there is none. */
  function StopAt(s: Str, j: nat, a: Char16, b: Char16): (q: nat)
    requires j <= |s|
    ensures j <= q <= |s|
    ensures forall k :: j <= k < q ==> s[k] != a && s[k] != b
    ensures q < |s| ==> s[q] == a || s[q] == b
    decreases |s| - j
  {
    if j == |s| || s[j] == a || s[j] == b then j else StopAt(s, j + 1, a, b)
  }

  // The end of a match of the first alternative at `i`. The run `[^*/]*` stops at the first `*` or
  // `/`, and no shorter run can be followed by a `*`, so the match exists exactly when that first
  // stop is a `*` followed by a `/`.
  function BlockMatch(s: Str, i: nat): (r: Option<nat>)
    requires i <= |s|
    ensures r.Some? ==> i + 4 <= r.value <= |s|
  {
    if i + 2 <= |s| && s[i] == SLASH && s[i + 1] == STAR then
      var q := StopAt(s, i + 2, STAR, SLASH);
      if q + 1 < |s| && s[q] == STAR && s[q + 1] == SLASH then Some(q + 2) else None
    else None
  }

  /**
    The end of a match of the second alternative at `i`: after the quote and the marker, the run
    `[^,]*` must end right before a quote that the first comma follows.
   */
  function NoteMatch(s: Str, i: nat): (r: Option<nat>)
    requires i <= |s|
    ensures r.Some? ==> i + |NoteMarker| + 3 <= r.value <= |s|
  {
    var m := i + 1 + |NoteMarker|;
    if m <= |s| && s[i] == QUOTE && s[i + 1..m] == NoteMarker then
      var c := StopAt(s, m, COMMA, COMMA);
      if m < c < |s| && s[c - 1] == QUOTE then Some(c + 1) else None
    else None
  }

  /** The alternatives are tried in order. */
  function CommentMatch(s: Str, i: nat): (r: Option<nat>)
    requires i <= |s|
    ensures r.Some? ==> i < r.value <= |s|
  {
    if BlockMatch(s, i).Some? then BlockMatch(s, i) else NoteMatch(s, i)
  }

  /** `Regex.Replace(s, pattern, "")` from index `i`: leftmost matches are dropped, everything else is kept. */
  function StripFrom(s: Str, i: nat): (r: Str)
    requires i <= |s|
    ensures |r| <= |s| - i
    decreases |s| - i
  {
    if i == |s| then []
    else
      match CommentMatch(s, i)
      case Some(e) => StripFrom(s, e)
      case None => [s[i]] + StripFrom(s, i + 1)
  }

  function StripComments(s: Str): Str {
    StripFrom(s, 0)
  }

  // ---------------------------------------------------------------------------------------------
  // Properties

  // Text that holds no `/*` and no quote followed by the marker passes unchanged.
  predicate CommentFree(s: Str) {
    (forall k :: 0 <= k < |s| - 1 ==> !(s[k] == SLASH && s[k + 1] == STAR))
    && (forall k :: 0 <= k && k + 1 + |NoteMarker| <= |s| && s[k] == QUOTE ==> s[k + 1..k + 1 + |NoteMarker|] != NoteMarker)
  }

  lemma {:induction false} StripFromCommentFree(s: Str, i: nat)
    requires i <= |s| && CommentFree(s)
    ensures StripFrom(s, i) == s[i..]
    decreases |s| - i
  {
    if i < |s| {
      assert CommentMatch(s, i).None?;
      StripFromCommentFree(s, i + 1);
    }
  }

  lemma {:induction false} StripCommentFree(s: Str)
    requires CommentFree(s)
    ensures StripComments(s) == s
  {
    StripFromCommentFree(s, 0);
  }

  /** Matches look only forward, so text in front does not change what follows it. */
  lemma {:induction false} StopAtShift(p: Str, s: Str, j: nat, a: Char16, b: Char16)
    requires j <= |s|
    ensures StopAt(p + s, |p| + j, a, b) == |p| + StopAt(s, j, a, b)
    decreases |s| - j
  {
    var w := p + s;
    if j < |s| {
      assert w[|p| + j] == s[j];
      if s[j] != a && s[j] != b {
        StopAtShift(p, s, j + 1, a, b);
      }
    }
  }

  lemma {:induction false} BlockMatchShift(p: Str, s: Str, i: nat)
    requires i <= |s|
    ensures BlockMatch(p + s, |p| + i).None? <==> BlockMatch(s, i).None?
    ensures BlockMatch(s, i).Some? ==> BlockMatch(p + s, |p| + i).value == |p| + BlockMatch(s, i).value
  {
    var w := p + s;
    if i + 2 <= |s| {
      assert w[|p| + i] == s[i] && w[|p| + i + 1] == s[i + 1];
      StopAtShift(p, s, i + 2, STAR, SLASH);
      var q := StopAt(s, i + 2, STAR, SLASH);
      if q + 1 < |s| {
        assert w[|p| + q] == s[q] && w[|p| + q + 1] == s[q + 1];
      }
    }
  }

  lemma {:induction false} NoteMatchShift(p: Str, s: Str, i: nat)
    requires i <= |s|
    ensures NoteMatch(p + s, |p| + i).None? <==> NoteMatch(s, i).None?
    ensures NoteMatch(s, i).Some? ==> NoteMatch(p + s, |p| + i).value == |p| + NoteMatch(s, i).value
  {
    var w := p + s;
    var m := i + 1 + |NoteMarker|;
    if m <= |s| {
      assert w[|p| + i] == s[i];
      assert w[|p| + i + 1..|p| + m] == s[i + 1..m];
      StopAtShift(p, s, m, COMMA, COMMA);
      var c := StopAt(s, m, COMMA, COMMA);
      if m < c < |s| {
        assert w[|p| + c - 1] == s[c - 1];
      }
    }
  }

  lemma {:induction false} CommentMatchShift(p: Str, s: Str, i: nat)
    requires i <= |s|
    ensures CommentMatch(p + s, |p| + i).None? <==> CommentMatch(s, i).None?
    ensures CommentMatch(s, i).Some? ==> CommentMatch(p + s, |p| + i).value == |p| + CommentMatch(s, i).value
  {
    BlockMatchShift(p, s, i);
    NoteMatchShift(p, s, i);
  }

  lemma {:induction false} StripFromShift(p: Str, s: Str, i: nat)
    requires i <= |s|
    ensures StripFrom(p + s, |p| + i) == StripFrom(s, i)
    decreases |s| - i
  {
    if i < |s| {
      CommentMatchShift(p, s, i);
      match CommentMatch(s, i)
      case Some(e) =>
        StripFromShift(p, s, e);
        assert StripFrom(p + s, |p| + i) == StripFrom(p + s, |p| + e);
      case None =>
        StripFromShift(p, s, i + 1);
        assert (p + s)[|p| + i] == s[i];
        assert StripFrom(p + s, |p| + i) == [s[i]] + StripFrom(p + s, |p| + i + 1);
    }
  }

  // A nonstandard comment whose note holds no `*` and no `/` is removed whole.
  lemma {:induction false} BlockCommentRemoved(note: Str, rest: Str)
    requires STAR !in note && SLASH !in note
    ensures StripComments([SLASH, STAR] + note + [STAR, SLASH] + rest) == StripComments(rest)
  {
    var c := [SLASH, STAR] + note + [STAR, SLASH];
    var w := c + rest;
    assert StopAt(w, 2, STAR, SLASH) == |note| + 2 by {
      assert forall k :: 2 <= k < |note| + 2 ==> w[k] == note[k - 2];
      StopAtOfRun(w, 2, |note| + 2, STAR, SLASH);
    }
    assert CommentMatch(w, 0) == Some(|c|);
    StripFromShift(c, rest, 0);
  }

  /** A standard note entry whose key and note hold no comma is removed whole, with its comma. */
  lemma {:induction false} NoteEntryRemoved(body: Str, rest: Str)
    requires COMMA !in body
    ensures StripComments([QUOTE] + NoteMarker + body + [QUOTE, COMMA] + rest) == StripComments(rest)
  {
    var c := [QUOTE] + NoteMarker + body + [QUOTE, COMMA];
    var w := c + rest;
    var m := 1 + |NoteMarker|;
    assert w[1..m] == NoteMarker;
    assert StopAt(w, m, COMMA, COMMA) == m + |body| + 1 by {
      assert forall k :: m <= k < m + |body| ==> w[k] == body[k - m];
      StopAtOfRun(w, m, m + |body| + 1, COMMA, COMMA);
    }
    assert BlockMatch(w, 0).None?;
    assert CommentMatch(w, 0) == Some(|c|);
    StripFromShift(c, rest, 0);
  }

  /** A run free of the stop units that ends at one of them is where `StopAt` stops. */
  lemma {:induction false} StopAtOfRun(s: Str, j: nat, q: nat, a: Char16, b: Char16)
    requires j <= q < |s| && (s[q] == a || s[q] == b)
    requires forall k :: j <= k < q ==> s[k] != a && s[k] != b
    ensures StopAt(s, j, a, b) == q
    decreases q - j
  {
    if j < q {
      StopAtOfRun(s, j + 1, q, a, b);
    }
  }

  // ---------------------------------------------------------------------------------------------
  // Comment-like text inside string values

  /**
    As written the expression also matches inside string values: a string holding a comment-like
    run loses it before the string scanner ever sees the literal.
   */
  lemma {:induction false} StripCommentsAltersStringValue()
    ensures var x, y: Char16 := 0x78, 0x79;
      StripComments([QUOTE, x, SLASH, STAR, STAR, SLASH, y, QUOTE]) == [QUOTE, x, y, QUOTE]
  {
    var x, y: Char16 := 0x78, 0x79;
    var w := [QUOTE, x, SLASH, STAR, STAR, SLASH, y, QUOTE];
    assert |NoteMarker| == 10;
    assert StripFrom(w, 7) == [QUOTE];
    assert StripFrom(w, 6) == [y, QUOTE];
    assert StopAt(w, 4, STAR, SLASH) == 4;
    assert CommentMatch(w, 2) == Some(6);
    assert StripFrom(w, 1) == [x, y, QUOTE];
  }

  /**
    The pre-pass with string literals copied whole, as the normalisation loop copies them: a
    comment is only recognised where a token starts.
   */
  function StripOutsideStrings(s: Str, i: nat): (r: Str)
    requires i <= |s|
    ensures |r| <= |s| - i
    decreases |s| - i
  {
    if i == |s| then []
    else
      match CommentMatch(s, i)
      case Some(e) => StripOutsideStrings(s, e)
      case None => s[i..TokenEnd(s, i)] + StripOutsideStrings(s, TokenEnd(s, i))
  }

  /** Where the unit or the string literal starting at `i` ends; a literal cut short by a final backslash runs to the end. */
  function TokenEnd(s: Str, i: nat): (e: nat)
    requires i < |s|
    ensures i < e <= |s|
  {
    if s[i] != QUOTE then i + 1
    else
      match CatchString(s, i, true)
      case Overrun => |s|
      case Scan(e, _) => e + 1
  }

  function StripCommentsOutsideStrings(s: Str): Str {
    StripOutsideStrings(s, 0)
  }

  lemma {:induction false} ScanFromShift(p: Str, s: Str, i: nat, keep: bool)
    requires 1 <= i <= |s|
    ensures ScanFrom(p + s, |p| + i, keep).Overrun? <==> ScanFrom(s, i, keep).Overrun?
    ensures ScanFrom(s, i, keep).Scan? ==>
      ScanFrom(p + s, |p| + i, keep) == Scan(|p| + ScanFrom(s, i, keep).end, ScanFrom(s, i, keep).text)
    decreases |s| - i
  {
    var w := p + s;
    if i < |s| {
      assert w[|p| + i] == s[i];
      if s[i] == BACKSLASH {
        if i + 1 < |s| {
          assert w[|p| + i + 1] == s[i + 1];
          ScanFromShift(p, s, i + 2, keep);
        }
      } else if s[i] != QUOTE {
        ScanFromShift(p, s, i + 1, keep);
      }
    }
  }

  lemma {:induction false} CatchStringShift(p: Str, s: Str, i: nat)
    requires i < |s|
    ensures CatchString(p + s, |p| + i, true).Overrun? <==> CatchString(s, i, true).Overrun?
    ensures CatchString(s, i, true).Scan? ==> CatchString(p + s, |p| + i, true).end == |p| + CatchString(s, i, true).end
  {
    ScanFromShift(p, s, i + 1, true);
  }

  lemma {:induction false} TokenEndShift(p: Str, s: Str, i: nat)
    requires i < |s|
    ensures TokenEnd(p + s, |p| + i) == |p| + TokenEnd(s, i)
  {
    assert (p + s)[|p| + i] == s[i];
    CatchStringShift(p, s, i);
  }

  lemma {:induction false} SliceShift(p: Str, s: Str, i: nat, e: nat)
    requires i <= e <= |s|
    ensures (p + s)[|p| + i..|p| + e] == s[i..e]
  {
  }

  lemma {:induction false} StripOutsideShift(p: Str, s: Str, i: nat)
    requires i <= |s|
    ensures StripOutsideStrings(p + s, |p| + i) == StripOutsideStrings(s, i)
    decreases |s| - i
  {
    var w := p + s;
    if i < |s| {
      CommentMatchShift(p, s, i);
      if CommentMatch(s, i).Some? {
        var e := CommentMatch(s, i).value;
        assert CommentMatch(w, |p| + i) == Some(|p| + e);
        StripOutsideShift(p, s, e);
      } else {
        var e := TokenEnd(s, i);
        TokenEndShift(p, s, i);
        SliceShift(p, s, i, e);
        StripOutsideShift(p, s, e);
      }
    }
  }

  /** Whether escaped text begins with the marker, which would make its literal look like a note key. */
  predicate StartsWithMarker(t: Str) {
    |t| >= |NoteMarker| && t[..|NoteMarker|] == NoteMarker
  }

  /**
    Every string the writer quotes survives the corrected pass unchanged, unless its escaped text
    begins with the note marker.
   */
  lemma {:induction false} WrittenStringSurvives(s: Str, rest: Str)
    requires !StartsWithMarker(Escape(s))
    ensures var w := [QUOTE] + Escape(s) + [QUOTE];
      StripCommentsOutsideStrings(w + rest) == w + StripCommentsOutsideStrings(rest)
  {
    var w := [QUOTE] + Escape(s) + [QUOTE];
    var x := w + rest;
    WrittenStringNoMatch(s, rest);
    WrittenStringToken(s, rest);
    assert StripOutsideStrings(x, 0) == w + StripOutsideStrings(x, |w|) by {
      assert x[0..TokenEnd(x, 0)] == w;
    }
    StripOutsideShift(w, rest, 0);
  }

  /** No comment match starts at the opening quote of a written string. */
  lemma {:induction false} WrittenStringNoMatch(s: Str, rest: Str)
    requires !StartsWithMarker(Escape(s))
    ensures CommentMatch([QUOTE] + Escape(s) + [QUOTE] + rest, 0).None?
  {
    var b := Escape(s);
    var x := [QUOTE] + b + [QUOTE] + rest;
    var m := 1 + |NoteMarker|;
    assert NoteMatch(x, 0).None? by {
      if |b| >= |NoteMarker| {
        assert b[..|NoteMarker|] == x[1..m];
      } else if m <= |x| {
        assert x[1..m][|b|] == x[1 + |b|] == QUOTE;
        NoQuoteInMarker(|b|);
      }
    }
  }

  /** A written string is one token, ending at its closing quote. */
  lemma {:induction false} WrittenStringToken(s: Str, rest: Str)
    ensures var w := [QUOTE] + Escape(s) + [QUOTE];
      TokenEnd(w + rest, 0) == |w| && (w + rest)[0..|w|] == w
  {
    var b := Escape(s);
    var w := [QUOTE] + b + [QUOTE];
    var x := w + rest;
    EscapedIsStringBody(s);
    assert x[1..|b| + 1] == b;
    ScanStopsAtClosingQuote(x, 1, |b| + 1, true);
    assert x[0..|w|] == w;
  }

  lemma {:induction false} NoQuoteInMarker(k: nat)
    requires k < |NoteMarker|
    ensures NoteMarker[k] != QUOTE
  {
  }
}

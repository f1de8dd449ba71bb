/**
  The text-level front end of the Core reader (Core/G9JSONParser.cs): the string scanner
  `CatchStringBetweenSigns`, the normalisation loop of `G9JsonToObject` and the depth-counting
  `Splitter`. Each is defined once as a specification function and once as a method of
  `ParserScratch`, the object that owns the shared string builder, and the methods are proved
  to compute the functions.
 */
module JsonScanner {
  import opened Wrappers
  import opened Text

  /** What scanning a string literal yields: the index the loop stops at and the text appended,
      or `Overrun` when a backslash is the last code unit (the unguarded `json[i + 1]`). */
  datatype Scan = Scan(end: int, text: Str) | Overrun

  /** The scanning loop of `CatchStringBetweenSigns` from index `i` on. */
  function ScanFrom(json: Str, i: nat, keep: bool): (r: Scan)
    requires 1 <= i <= |json|
    ensures r.Scan? ==> i - 1 <= r.end < |json|
    decreases |json| - i
  {
    if i == |json| then Scan(|json| - 1, [])
    else if json[i] == BACKSLASH then
      if i + 1 == |json| then Overrun
      else
        match ScanFrom(json, i + 2, keep)
        case Overrun => Overrun
        case Scan(e, t) => Scan(e, (if keep then [BACKSLASH] else []) + [json[i + 1]] + t)
    else if json[i] == QUOTE then Scan(i, [QUOTE])
    else
      match ScanFrom(json, i + 1, keep)
      case Overrun => Overrun
      case Scan(e, t) => Scan(e, [json[i]] + t)
  }

  /** A scan with `p` appended in front of its text. */
  function Prefixed(p: Str, r: Scan): Scan {
    match r
    case Overrun => Overrun
    case Scan(e, t) => Scan(e, p + t)
  }

  lemma {:induction false} PrefixedPrefixed(a: Str, b: Str, r: Scan)
    ensures Prefixed(a, Prefixed(b, r)) == Prefixed(a + b, r)
  {
    if r.Scan? {
      assert a + (b + r.text) == (a + b) + r.text;
    }
  }

  /** `CatchStringBetweenSigns(keep, start, json)`: the opening code unit, then the scan. */
  function CatchString(json: Str, start: nat, keep: bool): (r: Scan)
    requires start < |json|
    ensures r.Scan? ==> start <= r.end < |json|
  {
    match ScanFrom(json, start + 1, keep)
    case Overrun => Overrun
    case Scan(e, t) => Scan(e, [json[start]] + t)
  }

  /** The interior of a string literal: units that are a plain code unit or a backslash with the unit it escapes. */
  predicate StringBody(s: Str)
    decreases |s|
  {
    s == []
    || (s[0] != QUOTE && s[0] != BACKSLASH && StringBody(s[1..]))
    || (|s| >= 2 && s[0] == BACKSLASH && StringBody(s[2..]))
  }

  /** The literal whose interior starts at `i` is closed by the quote at `e`. */
  predicate Closes(json: Str, i: nat, e: nat) {
    i <= e < |json| && json[e] == QUOTE && StringBody(json[i..e])
  }

  /** With `keep` set the scanner copies the literal verbatim. */
  lemma {:induction false} ScanVerbatim(json: Str, i: nat)
    requires 1 <= i <= |json|
    requires ScanFrom(json, i, true).Scan?
    ensures ScanFrom(json, i, true).text == json[i..ScanFrom(json, i, true).end + 1]
    decreases |json| - i
  {
    if i == |json| {
    } else if json[i] == BACKSLASH {
      ScanVerbatim(json, i + 2);
    } else if json[i] != QUOTE {
      ScanVerbatim(json, i + 1);
    }
  }

  /** The scan stops at the first quote that closes the literal, whatever `keep` is. */
  lemma {:induction false} ScanStopsAtClosingQuote(json: Str, i: nat, e: nat, keep: bool)
    requires 1 <= i
    requires Closes(json, i, e)
    ensures ScanFrom(json, i, keep).Scan? && ScanFrom(json, i, keep).end == e
    decreases e - i
  {
    var s := json[i..e];
    if s == [] {
      assert json[i] == QUOTE;
    } else if s[0] != QUOTE && s[0] != BACKSLASH && StringBody(s[1..]) {
      assert json[i + 1..e] == s[1..];
      ScanStopsAtClosingQuote(json, i + 1, e, keep);
    } else {
      assert |s| >= 2 && s[0] == BACKSLASH && StringBody(s[2..]);
      assert json[i + 2..e] == s[2..];
      ScanStopsAtClosingQuote(json, i + 2, e, keep);
    }
  }

  /** Conversely a scan either ends at the quote closing the literal, or runs off the end of a text
      whose remainder is all string interior; it overruns only on a final backslash. */
  lemma {:induction false} ScanEndsAtQuoteOrEnd(json: Str, i: nat, keep: bool)
    requires 1 <= i <= |json|
    ensures ScanFrom(json, i, keep).Scan? ==>
      Closes(json, i, ScanFrom(json, i, keep).end)
      || (ScanFrom(json, i, keep).end == |json| - 1 && StringBody(json[i..]))
    ensures ScanFrom(json, i, keep).Overrun? ==> json[|json| - 1] == BACKSLASH
    decreases |json| - i
  {
    if i == |json| {
    } else if json[i] == BACKSLASH {
      if i + 1 < |json| {
        ScanEndsAtQuoteOrEnd(json, i + 2, keep);
        var r := ScanFrom(json, i + 2, keep);
        if r.Scan? {
          assert json[i..][2..] == json[i + 2..];
          if Closes(json, i + 2, r.end) {
            assert json[i..r.end][2..] == json[i + 2..r.end];
          }
        }
      }
    } else if json[i] == QUOTE {
      assert json[i..i] == [];
    } else {
      ScanEndsAtQuoteOrEnd(json, i + 1, keep);
      var r := ScanFrom(json, i + 1, keep);
      if r.Scan? {
        assert json[i..][1..] == json[i + 1..];
        if Closes(json, i + 1, r.end) {
          assert json[i..r.end][1..] == json[i + 1..r.end];
        }
      }
    }
  }

  /** The stop index and the failure do not depend on whether escaping backslashes are kept. */
  lemma {:induction false} ScanEndIndependentOfKeep(json: Str, i: nat)
    requires 1 <= i <= |json|
    ensures ScanFrom(json, i, true).Overrun? == ScanFrom(json, i, false).Overrun?
    ensures ScanFrom(json, i, true).Scan? ==> ScanFrom(json, i, true).end == ScanFrom(json, i, false).end
    decreases |json| - i
  {
    if i < |json| {
      if json[i] == BACKSLASH {
        if i + 1 < |json| { ScanEndIndependentOfKeep(json, i + 2); }
      } else if json[i] != QUOTE {
        ScanEndIndependentOfKeep(json, i + 1);
      }
    }
  }

  // ---------------------------------------------------------------------------------------------
  // Normalisation (the loop of `G9JsonToObject`)

  /** `Some(prefix + rest)` when the rest succeeded. */
  function Then(prefix: Str, rest: Option<Str>): Option<Str> {
    match rest
    case None => None
    case Some(s) => Some(prefix + s)
  }

  lemma {:induction false} ThenThen(a: Str, b: Str, rest: Option<Str>)
    ensures Then(a, Then(b, rest)) == Then(a + b, rest)
    ensures Then([], rest) == rest
  {
    if rest.Some? {
      assert a + (b + rest.value) == (a + b) + rest.value;
      assert [] + rest.value == rest.value;
    }
  }

  // The normalisation loop from index `i`, with `inComment` the `ignoreComments` flag. Outside a
  // comment a quote starts a literal that is copied with its escapes, white space is dropped and
  // `/*` opens a comment; any `/` right after a `*` closes one (and is itself dropped). `None`
  // stands for the `IndexOutOfRangeException` of the unguarded reads `json[i - 1]` (a `/` at
  // index 0), `json[i + 1]` (a final `/`) and the scanner's `json[i + 1]` (a final backslash).
  function NormFrom(json: Str, i: nat, inComment: bool): (r: Option<Str>)
    requires i <= |json|
    decreases |json| - i
  {
    if i == |json| then Some([])
    else if json[i] == SLASH && i == 0 then None
    else if json[i] == SLASH && json[i - 1] == STAR then NormFrom(json, i + 1, false)
    else if inComment then NormFrom(json, i + 1, true)
    else if json[i] == SLASH && i + 1 == |json| then None
    else if json[i] == SLASH && json[i + 1] == STAR then NormFrom(json, i + 1, true)
    else if json[i] == QUOTE then
      match CatchString(json, i, true)
      case Overrun => None
      case Scan(e, t) => Then(t, NormFrom(json, e + 1, false))
    else if IsWhiteSpace(json[i]) then NormFrom(json, i + 1, false)
    else Then([json[i]], NormFrom(json, i + 1, false))
  }

  function Normalise(json: Str): Option<Str> {
    NormFrom(json, 0, false)
  }

  /** Text in the shape normalisation produces: outside string literals no white space. */
  predicate Compact(s: Str)
    decreases |s|
  {
    s == []
    || (s[0] != QUOTE && !IsWhiteSpace(s[0]) && Compact(s[1..]))
    || (s[0] == QUOTE && InLiteral(s[1..]))
  }

  /** The rest of a string literal (possibly unterminated at the very end), then compact text. */
  predicate InLiteral(s: Str)
    decreases |s|
  {
    s == []
    || (s[0] == QUOTE && Compact(s[1..]))
    || (|s| >= 2 && s[0] == BACKSLASH && InLiteral(s[2..]))
    || (s[0] != QUOTE && s[0] != BACKSLASH && InLiteral(s[1..]))
  }

  lemma {:induction false} ScannedLiteralThenCompact(json: Str, i: nat, rest: Str)
    requires 1 <= i <= |json|
    requires ScanFrom(json, i, true).Scan?
    requires Compact(rest)
    requires ScanFrom(json, i, true).end == |json| - 1 ==> rest == []
    ensures InLiteral(ScanFrom(json, i, true).text + rest)
    decreases |json| - i
  {
    var t := ScanFrom(json, i, true).text;
    if i == |json| {
    } else if json[i] == BACKSLASH {
      ScannedLiteralThenCompact(json, i + 2, rest);
      var t' := ScanFrom(json, i + 2, true).text;
      assert (t + rest)[2..] == t' + rest;
    } else if json[i] == QUOTE {
      assert (t + rest)[1..] == rest;
    } else {
      ScannedLiteralThenCompact(json, i + 1, rest);
      var t' := ScanFrom(json, i + 1, true).text;
      assert (t + rest)[1..] == t' + rest;
    }
  }

  /** Normalisation drops all white space outside string literals. */
  lemma {:induction false} NormalisedIsCompact(json: Str, i: nat, inComment: bool)
    requires i <= |json|
    requires NormFrom(json, i, inComment).Some?
    ensures Compact(NormFrom(json, i, inComment).value)
    decreases |json| - i
  {
    if i == |json| {
    } else if json[i] == SLASH && i == 0 {
    } else if json[i] == SLASH && json[i - 1] == STAR {
      NormalisedIsCompact(json, i + 1, false);
    } else if inComment {
      NormalisedIsCompact(json, i + 1, true);
    } else if json[i] == SLASH && i + 1 == |json| {
    } else if json[i] == SLASH && json[i + 1] == STAR {
      NormalisedIsCompact(json, i + 1, true);
    } else if json[i] == QUOTE {
      var e := CatchString(json, i, true).end;
      NormalisedIsCompact(json, e + 1, false);
      var rest := NormFrom(json, e + 1, false).value;
      ScannedLiteralThenCompact(json, i + 1, rest);
      var out := NormFrom(json, i, inComment).value;
      assert out == [QUOTE] + (ScanFrom(json, i + 1, true).text + rest);
      assert out[1..] == ScanFrom(json, i + 1, true).text + rest;
    } else if IsWhiteSpace(json[i]) {
      NormalisedIsCompact(json, i + 1, false);
    } else {
      NormalisedIsCompact(json, i + 1, false);
      var out := NormFrom(json, i, inComment).value;
      assert out[1..] == NormFrom(json, i + 1, false).value;
    }
  }

  // `j` is the `/` of the first `*/` that can close a comment opened at `i`.
  predicate FirstCommentEnd(json: Str, i: nat, j: nat) {
    i + 2 <= j < |json| && json[j] == SLASH && json[j - 1] == STAR
    && forall k :: i + 1 <= k < j ==> !(json[k] == SLASH && json[k - 1] == STAR)
  }

  lemma {:induction false} CommentBodySkipped(json: Str, i: nat, k: nat, j: nat)
    requires 1 <= i + 1 <= k <= j
    requires FirstCommentEnd(json, i, j)
    ensures NormFrom(json, k, true) == NormFrom(json, j + 1, false)
    decreases j - k
  {
    if k < j {
      assert !(json[k] == SLASH && json[k - 1] == STAR);
      CommentBodySkipped(json, i, k + 1, j);
    }
  }

  // A comment opened by `/*` is dropped up to and including the first `*/` after it.
  lemma {:induction false} CommentDropped(json: Str, i: nat, j: nat)
    requires 0 < i && i + 1 < |json| && json[i] == SLASH && json[i + 1] == STAR && json[i - 1] != STAR
    requires FirstCommentEnd(json, i, j)
    ensures NormFrom(json, i, false) == NormFrom(json, j + 1, false)
  {
    CommentBodySkipped(json, i, i + 1, j);
  }

  /** A comment that is never closed swallows the rest of the text. */
  lemma {:induction false} UnclosedCommentDropsRest(json: Str, k: nat)
    requires 1 <= k <= |json|
    requires forall m :: k <= m < |json| ==> !(json[m] == SLASH && json[m - 1] == STAR)
    ensures NormFrom(json, k, true) == Some([])
    decreases |json| - k
  {
    if k < |json| {
      UnclosedCommentDropsRest(json, k + 1);
    }
  }

  /** Normalisation fails only on a leading `/` or a final `/` or backslash; a leading `/` always fails. */
  lemma {:induction false} NormaliseFailure(json: Str, i: nat, inComment: bool)
    requires i <= |json|
    ensures NormFrom(json, i, inComment).None? ==>
      (i == 0 && json[0] == SLASH) || json[|json| - 1] == SLASH || json[|json| - 1] == BACKSLASH
    ensures i == 0 && |json| > 0 && json[0] == SLASH ==> NormFrom(json, i, inComment).None?
    decreases |json| - i
  {
    if i == |json| {
    } else if json[i] == SLASH && i == 0 {
    } else if json[i] == SLASH && json[i - 1] == STAR {
      NormaliseFailure(json, i + 1, false);
    } else if inComment {
      NormaliseFailure(json, i + 1, true);
    } else if json[i] == SLASH && i + 1 == |json| {
    } else if json[i] == SLASH && json[i + 1] == STAR {
      NormaliseFailure(json, i + 1, true);
    } else if json[i] == QUOTE {
      ScanEndsAtQuoteOrEnd(json, i + 1, true);
      if CatchString(json, i, true).Scan? {
        NormaliseFailure(json, CatchString(json, i, true).end + 1, false);
      }
    } else {
      NormaliseFailure(json, i + 1, false);
    }
  }

  // ---------------------------------------------------------------------------------------------
  // Splitting (`Splitter`)

  /** The pieces cut out of a span, and the separator each cut was made at (`|items| == |seps| + 1`). */
  datatype Pieces = Pieces(items: seq<Str>, seps: Str)

  /**
    The splitting loop from index `i` with bracket depth `depth` (which may go negative), finished
    pieces `done`, their separators `seps` and the piece being built `cur`. Only the interior
    `json[1..|json| - 1]` is visited, but a string literal is scanned to its closing quote wherever that is.
   */
  function SplitFrom(json: Str, i: nat, depth: int, done: seq<Str>, seps: Str, cur: Str, keep: bool): (r: Option<Pieces>)
    requires 1 <= i && |done| == |seps|
    ensures r.Some? ==> |r.value.items| == |r.value.seps| + 1
    decreases |json| - i
  {
    if i + 1 >= |json| then Some(Pieces(done + [cur], seps))
    else
      var c := json[i];
      if c == LBRACKET || c == LBRACE then SplitFrom(json, i + 1, depth + 1, done, seps, cur + [c], keep)
      else if c == RBRACKET || c == RBRACE then SplitFrom(json, i + 1, depth - 1, done, seps, cur + [c], keep)
      else if c == QUOTE then
        match CatchString(json, i, keep)
        case Overrun => None
        case Scan(e, t) => SplitFrom(json, e + 1, depth, done, seps, cur + t, keep)
      else if (c == COMMA || c == COLON) && depth == 0 then
        SplitFrom(json, i + 1, depth, done + [cur], seps + [c], [], keep)
      else SplitFrom(json, i + 1, depth, done, seps, cur + [c], keep)
  }

  /** `Splitter(json, keep)` with its separators: a two-unit span has no pieces at all. */
  function SplitTrace(json: Str, keep: bool): (r: Option<Pieces>)
    ensures r.Some? && |json| != 2 ==> |r.value.items| == |r.value.seps| + 1
  {
    if |json| == 2 then Some(Pieces([], [])) else SplitFrom(json, 1, 0, [], [], [], keep)
  }

  function Split(json: Str, keep: bool): (r: Option<seq<Str>>)
    ensures r.Some? ==> (|json| == 2 <==> r.value == [])
  {
    match SplitTrace(json, keep)
    case None => None
    case Some(p) => Some(p.items)
  }

  /** A scan appends at most one code unit per code unit it consumes. */
  lemma {:induction false} ScanTextBound(json: Str, i: nat, keep: bool)
    requires 1 <= i <= |json|
    ensures ScanFrom(json, i, keep).Scan? ==> |ScanFrom(json, i, keep).text| <= ScanFrom(json, i, keep).end + 1 - i
    decreases |json| - i
  {
    if i < |json| && json[i] != QUOTE {
      if json[i] == BACKSLASH {
        if i + 1 < |json| {
          ScanTextBound(json, i + 2, keep);
        }
      } else {
        ScanTextBound(json, i + 1, keep);
      }
    }
  }

  lemma {:induction false} SplitFromPiecesShorter(json: Str, i: nat, depth: int, done: seq<Str>, seps: Str, cur: Str, keep: bool)
    requires 1 <= i <= |json| && |done| == |seps|
    requires |cur| < i && forall k :: 0 <= k < |done| ==> |done[k]| < |json|
    ensures SplitFrom(json, i, depth, done, seps, cur, keep).Some? ==>
              forall k :: 0 <= k < |SplitFrom(json, i, depth, done, seps, cur, keep).value.items| ==>
                |SplitFrom(json, i, depth, done, seps, cur, keep).value.items[k]| < |json|
    decreases |json| - i
  {
    if i + 1 < |json| {
      var c := json[i];
      if c == LBRACKET || c == LBRACE {
        SplitFromPiecesShorter(json, i + 1, depth + 1, done, seps, cur + [c], keep);
      } else if c == RBRACKET || c == RBRACE {
        SplitFromPiecesShorter(json, i + 1, depth - 1, done, seps, cur + [c], keep);
      } else if c == QUOTE {
        match CatchString(json, i, keep)
        case Overrun =>
        case Scan(e, t) =>
          ScanTextBound(json, i + 1, keep);
          SplitFromPiecesShorter(json, e + 1, depth, done, seps, cur + t, keep);
      } else if (c == COMMA || c == COLON) && depth == 0 {
        SplitFromPiecesShorter(json, i + 1, depth, done + [cur], seps + [c], [], keep);
      } else {
        SplitFromPiecesShorter(json, i + 1, depth, done, seps, cur + [c], keep);
      }
    }
  }

  /** Every piece is shorter than the span it was cut from, which is what lets the reader recurse into pieces. */
  lemma {:induction false} SplitPiecesShorter(json: Str, keep: bool)
    requires |json| >= 1
    ensures Split(json, keep).Some? ==> forall k :: 0 <= k < |Split(json, keep).value| ==> |Split(json, keep).value[k]| < |json|
  {
    if |json| != 2 {
      SplitFromPiecesShorter(json, 1, 0, [], [], [], keep);
    }
  }

  /** Every string literal starting inside the interior also closes inside it. */
  predicate StringsClose(json: Str, i: nat)
    requires 1 <= i
    decreases |json| - i
  {
    if i + 1 >= |json| then true
    else if json[i] == QUOTE then
      match ScanFrom(json, i + 1, true)
      case Overrun => false
      case Scan(e, _) => e + 1 < |json| && StringsClose(json, e + 1)
    else StringsClose(json, i + 1)
  }

  lemma {:induction false} InterleaveExtendLast(items: seq<Str>, seps: Str, x: Str)
    requires |items| == |seps| + 1
    ensures Interleave(items[..|items| - 1] + [items[|items| - 1] + x], seps) == Interleave(items, seps) + x
    decreases |seps|
  {
    if seps != [] {
      var items' := items[..|items| - 1] + [items[|items| - 1] + x];
      assert items'[1..] == items[1..][..|items| - 2] + [items[1..][|items| - 2] + x];
      InterleaveExtendLast(items[1..], seps[1..], x);
    }
  }

  lemma {:induction false} InterleaveNewPiece(items: seq<Str>, seps: Str, c: Char16)
    requires |items| == |seps| + 1
    ensures Interleave(items + [[]], seps + [c]) == Interleave(items, seps) + [c]
    decreases |seps|
  {
    if seps == [] {
      assert (items + [[]])[1..] == [[]];
    } else {
      assert (items + [[]])[1..] == items[1..] + [[]];
      assert (seps + [c])[1..] == seps[1..] + [c];
      InterleaveNewPiece(items[1..], seps[1..], c);
    }
  }

  /** Splitting with escapes kept loses nothing: pieces and separators rebuild the interior. */
  lemma {:induction false} SplitFromRebuilds(json: Str, i: nat, depth: int, done: seq<Str>, seps: Str, cur: Str)
    requires 1 <= i <= |json| - 1 && |done| == |seps|
    requires StringsClose(json, i)
    ensures SplitFrom(json, i, depth, done, seps, cur, true).Some?
    ensures Interleave(SplitFrom(json, i, depth, done, seps, cur, true).value.items,
                       SplitFrom(json, i, depth, done, seps, cur, true).value.seps)
         == Interleave(done + [cur], seps) + json[i..|json| - 1]
    decreases |json| - i, 1
  {
    var n := |json|;
    if i + 1 >= n {
    } else {
      var c := json[i];
      if c == QUOTE {
        SplitFromRebuildsString(json, i, depth, done, seps, cur);
      } else if (c == COMMA || c == COLON) && depth == 0 {
        SplitFromRebuilds(json, i + 1, depth, done + [cur], seps + [c], []);
        InterleaveNewPiece(done + [cur], seps, c);
        assert json[i..n - 1] == [c] + json[i + 1..n - 1];
      } else {
        var depth' := if c == LBRACKET || c == LBRACE then depth + 1
                      else if c == RBRACKET || c == RBRACE then depth - 1 else depth;
        SplitFromRebuilds(json, i + 1, depth', done, seps, cur + [c]);
        InterleaveExtendLast(done + [cur], seps, [c]);
        assert (done + [cur])[..|done|] + [cur + [c]] == done + [cur + [c]];
        assert json[i..n - 1] == [c] + json[i + 1..n - 1];
      }
    }
  }

  /** The step of `SplitFromRebuilds` over a string literal, which joins the current piece whole. */
  lemma {:induction false} SplitFromRebuildsString(json: Str, i: nat, depth: int, done: seq<Str>, seps: Str, cur: Str)
    requires 1 <= i < |json| - 1 && |done| == |seps| && json[i] == QUOTE
    requires StringsClose(json, i)
    ensures SplitFrom(json, i, depth, done, seps, cur, true).Some?
    ensures Interleave(SplitFrom(json, i, depth, done, seps, cur, true).value.items,
                       SplitFrom(json, i, depth, done, seps, cur, true).value.seps)
         == Interleave(done + [cur], seps) + json[i..|json| - 1]
    decreases |json| - i, 0
  {
    var n := |json|;
    var e := CatchString(json, i, true).end;
    var t := CatchString(json, i, true).text;
    ScanVerbatim(json, i + 1);
    assert t == json[i..e + 1];
    SplitFromRebuilds(json, e + 1, depth, done, seps, cur + t);
    InterleaveExtendLast(done + [cur], seps, t);
    assert (done + [cur])[..|done|] + [cur + t] == done + [cur + t];
    assert json[i..n - 1] == t + json[e + 1..n - 1];
  }

  /** `Splitter(json)` on a span whose literals close inside it: the pieces joined with the separators
      they were cut at give back the interior, and every separator is a `,` or a `:`. */
  lemma {:induction false} SplitRebuildsInterior(json: Str)
    requires |json| > 2 && StringsClose(json, 1)
    ensures SplitTrace(json, true).Some?
    ensures Interleave(SplitTrace(json, true).value.items, SplitTrace(json, true).value.seps) == json[1..|json| - 1]
    ensures AllSeparators(SplitTrace(json, true).value.seps)
  {
    SplitFromRebuilds(json, 1, 0, [], [], []);
    SplitSeparators(json, 1, 0, [], [], [], true);
  }

  predicate AllSeparators(seps: Str) {
    forall k :: 0 <= k < |seps| ==> seps[k] == COMMA || seps[k] == COLON
  }

  lemma {:induction false} SplitSeparators(json: Str, i: nat, depth: int, done: seq<Str>, seps: Str, cur: Str, keep: bool)
    requires 1 <= i && |done| == |seps|
    requires AllSeparators(seps)
    ensures SplitFrom(json, i, depth, done, seps, cur, keep).Some? ==>
      AllSeparators(SplitFrom(json, i, depth, done, seps, cur, keep).value.seps)
    decreases |json| - i
  {
    if i + 1 < |json| {
      var c := json[i];
      if c == LBRACKET || c == LBRACE {
        SplitSeparators(json, i + 1, depth + 1, done, seps, cur + [c], keep);
      } else if c == RBRACKET || c == RBRACE {
        SplitSeparators(json, i + 1, depth - 1, done, seps, cur + [c], keep);
      } else if c == QUOTE {
        match CatchString(json, i, keep)
        case Overrun =>
        case Scan(e, t) => SplitSeparators(json, e + 1, depth, done, seps, cur + t, keep);
      } else if (c == COMMA || c == COLON) && depth == 0 {
        SplitSeparators(json, i + 1, depth, done + [cur], seps + [c], [], keep);
      } else {
        SplitSeparators(json, i + 1, depth, done, seps, cur + [c], keep);
      }
    }
  }

  lemma {:induction false} SplitFromShapeIndependentOfKeep(
    json: Str, i: nat, depth: int, done1: seq<Str>, done2: seq<Str>, seps: Str, cur1: Str, cur2: Str)
    requires 1 <= i && |done1| == |seps| && |done2| == |seps|
    ensures SplitFrom(json, i, depth, done1, seps, cur1, true).Some? == SplitFrom(json, i, depth, done2, seps, cur2, false).Some?
    ensures SplitFrom(json, i, depth, done1, seps, cur1, true).Some? ==>
      |SplitFrom(json, i, depth, done1, seps, cur1, true).value.items| == |SplitFrom(json, i, depth, done2, seps, cur2, false).value.items|
      && SplitFrom(json, i, depth, done1, seps, cur1, true).value.seps == SplitFrom(json, i, depth, done2, seps, cur2, false).value.seps
    decreases |json| - i
  {
    if i + 1 < |json| {
      var c := json[i];
      if c == LBRACKET || c == LBRACE {
        SplitFromShapeIndependentOfKeep(json, i + 1, depth + 1, done1, done2, seps, cur1 + [c], cur2 + [c]);
      } else if c == RBRACKET || c == RBRACE {
        SplitFromShapeIndependentOfKeep(json, i + 1, depth - 1, done1, done2, seps, cur1 + [c], cur2 + [c]);
      } else if c == QUOTE {
        ScanEndIndependentOfKeep(json, i + 1);
        if CatchString(json, i, true).Scan? {
          var e := CatchString(json, i, true).end;
          SplitFromShapeIndependentOfKeep(json, e + 1, depth, done1, done2, seps,
            cur1 + CatchString(json, i, true).text, cur2 + CatchString(json, i, false).text);
        }
      } else if (c == COMMA || c == COLON) && depth == 0 {
        SplitFromShapeIndependentOfKeep(json, i + 1, depth, done1 + [cur1], done2 + [cur2], seps + [c], [], []);
      } else {
        SplitFromShapeIndependentOfKeep(json, i + 1, depth, done1, done2, seps, cur1 + [c], cur2 + [c]);
      }
    }
  }

  /** Dropping escape backslashes (the dictionary reader's `Splitter(json, false)`) changes the
      pieces' contents only: their number, the separators and failure are the same. */
  lemma {:induction false} SplitShapeIndependentOfKeep(json: Str)
    ensures Split(json, true).Some? == Split(json, false).Some?
    ensures Split(json, true).Some? ==> |Split(json, true).value| == |Split(json, false).value|
    ensures SplitTrace(json, true).Some? ==> SplitTrace(json, true).value.seps == SplitTrace(json, false).value.seps
  {
    if |json| != 2 {
      SplitFromShapeIndependentOfKeep(json, 1, 0, [], [], [], [], []);
    }
  }

  // ---------------------------------------------------------------------------------------------
  // The parser's scratch state

  /** The reader's shared `StringBuilder`; the methods below append to it as the source does. */
  class ParserScratch {
    var builder: Str

    constructor()
      ensures builder == []
    {
      builder := [];
    }

    /** `CatchStringBetweenSigns`: appends the literal starting at `start` and returns the index it stops at. */
    method CatchStringBetweenSigns(keep: bool, start: nat, json: Str) returns (r: Option<nat>)
      requires start < |json|
      modifies this
      ensures r.None? <==> CatchString(json, start, keep).Overrun?
      ensures r.Some? ==> r.value == CatchString(json, start, keep).end
      ensures r.Some? ==> builder == old(builder) + CatchString(json, start, keep).text
    {
      ghost var appended: Str := [json[start]];
      builder := builder + [json[start]];
      var i := start + 1;
      while i < |json|
        invariant start + 1 <= i <= |json|
        invariant builder == old(builder) + appended
        invariant CatchString(json, start, keep) == Prefixed(appended, ScanFrom(json, i, keep))
        decreases |json| - i
      {
        var c := json[i];
        if c == BACKSLASH {
          if i + 1 == |json| {
            return None;
          }
          var unit := (if keep then [c] else []) + [json[i + 1]];
          PrefixedPrefixed(appended, unit, ScanFrom(json, i + 2, keep));
          builder := builder + unit;
          appended := appended + unit;
          i := i + 2;
        } else if c == QUOTE {
          builder := builder + [c];
          appended := appended + [c];
          return Some(i);
        } else {
          PrefixedPrefixed(appended, [c], ScanFrom(json, i + 1, keep));
          builder := builder + [c];
          appended := appended + [c];
          i := i + 1;
        }
      }
      assert appended + [] == appended;
      return Some(|json| - 1);
    }

    /** The normalisation loop of `G9JsonToObject`: the compacted text, or `None` where the source throws. */
    method Normalise(json: Str) returns (r: Option<Str>)
      modifies this
      ensures r == NormFrom(json, 0, false)
    {
      builder := [];
      var ignoreComments := false;
      var i := 0;
      ThenThen([], [], NormFrom(json, 0, false));
      while i < |json|
        invariant 0 <= i <= |json|
        invariant NormFrom(json, 0, false) == Then(builder, NormFrom(json, i, ignoreComments))
        decreases |json| - i
      {
        if json[i] == SLASH && i == 0 {
          return None;
        }
        if json[i] == SLASH && json[i - 1] == STAR {
          ignoreComments := false;
          i := i + 1;
          continue;
        }
        if ignoreComments {
          i := i + 1;
          continue;
        }
        if json[i] == SLASH && i + 1 == |json| {
          return None;
        }
        if json[i] == SLASH && json[i + 1] == STAR {
          ignoreComments := true;
          i := i + 1;
          continue;
        }
        var c := json[i];
        if c == QUOTE {
          ghost var before := builder;
          var e := CatchStringBetweenSigns(true, i, json);
          if e.None? {
            return None;
          }
          assert builder == before + CatchString(json, i, true).text;
          ThenThen(before, CatchString(json, i, true).text, NormFrom(json, e.value + 1, false));
          i := e.value + 1;
          continue;
        }
        if IsWhiteSpace(c) {
          i := i + 1;
          continue;
        }
        ThenThen(builder, [c], NormFrom(json, i + 1, false));
        builder := builder + [c];
        i := i + 1;
      }
      assert builder + [] == builder;
      return Some(builder);
    }

    /** `Splitter(json, keep)`: the pieces of the span, or `None` where the scanner overruns. */
    method Splitter(json: Str, keep: bool) returns (r: Option<seq<Str>>)
      modifies this
      ensures r == Split(json, keep)
    {
      var pieces: seq<Str> := [];
      ghost var seps: Str := [];
      if |json| == 2 {
        return Some(pieces);
      }
      var depth := 0;
      builder := [];
      var i := 1;
      while i + 1 < |json|
        invariant 1 <= i && |pieces| == |seps|
        invariant SplitTrace(json, keep) == SplitFrom(json, i, depth, pieces, seps, builder, keep)
        decreases |json| - i
      {
        var c := json[i];
        if c == LBRACKET || c == LBRACE {
          depth := depth + 1;
        } else if c == RBRACKET || c == RBRACE {
          depth := depth - 1;
        } else if c == QUOTE {
          var e := CatchStringBetweenSigns(keep, i, json);
          if e.None? {
            return None;
          }
          i := e.value + 1;
          continue;
        } else if (c == COMMA || c == COLON) && depth == 0 {
          pieces := pieces + [builder];
          seps := seps + [c];
          builder := [];
          i := i + 1;
          continue;
        }
        builder := builder + [c];
        i := i + 1;
      }
      pieces := pieces + [builder];
      return Some(pieces);
    }
  }
}

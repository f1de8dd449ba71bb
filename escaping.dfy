/**
  String escaping and unescaping (section 7 of RFC 8259) as the Core writer and reader do it:
  `PrepareCharactersForStoring` and `EscapeString` in Core/G9JSONWriter.cs, `PrepareStringType`,
  `TrimStringSign` and the string case of `ParsingAnonymousValue` in Core/G9JSONParser.cs, and the
  legacy string decoders of G9JSONParser.cs.
 */
module Escaping {
  import opened Wrappers
  import opened Text
  import opened JsonScanner

  const LETTER_B: Char16 := 0x62
  const LETTER_F: Char16 := 0x66
  const LETTER_N: Char16 := 0x6E
  const LETTER_R: Char16 := 0x72
  const LETTER_T: Char16 := 0x74
  const LETTER_U: Char16 := 0x75

  // ---------------------------------------------------------------------------------------------
  // Escaping

  /** `PrepareCharactersForStoring` for one code unit: `"`, `\` and every unit below U+0020 get a
      backslash, with the short forms `" \ n r t b f` where they exist and `u` + four upper-case
      hexadecimal digits otherwise; anything else is copied. */
  function EscapeUnit(c: Char16): (r: Str)
    ensures 1 <= |r|
  {
    if c == QUOTE then [BACKSLASH, QUOTE]
    else if c == BACKSLASH then [BACKSLASH, BACKSLASH]
    else if c == LF then [BACKSLASH, LETTER_N]
    else if c == CR then [BACKSLASH, LETTER_R]
    else if c == TAB then [BACKSLASH, LETTER_T]
    else if c == BS then [BACKSLASH, LETTER_B]
    else if c == FF then [BACKSLASH, LETTER_F]
    else if c < SPACE then [BACKSLASH, LETTER_U] + Hex4(c)
    else [c]
  }

  function Escape(s: Str): Str
    decreases |s|
  {
    if s == [] then [] else EscapeUnit(s[0]) + Escape(s[1..])
  }

  /** `EscapeString` of the dynamic-object writer for one code unit: short forms only for
      `\ " n r t`, `\u` + four hexadecimal digits for the other units below U+0020. */
  function EscapeDynamicUnit(c: Char16): (r: Str)
    ensures 1 <= |r|
  {
    if c == BACKSLASH then [BACKSLASH, BACKSLASH]
    else if c == QUOTE then [BACKSLASH, QUOTE]
    else if c == LF then [BACKSLASH, LETTER_N]
    else if c == CR then [BACKSLASH, LETTER_R]
    else if c == TAB then [BACKSLASH, LETTER_T]
    else if c < SPACE then [BACKSLASH, LETTER_U] + Hex4(c)
    else [c]
  }

  function EscapeDynamic(s: Str): Str
    decreases |s|
  {
    if s == [] then [] else EscapeDynamicUnit(s[0]) + EscapeDynamic(s[1..])
  }

  lemma {:induction false} EscapeAppend(a: Str, b: Str)
    ensures Escape(a + b) == Escape(a) + Escape(b)
    decreases |a|
  {
    if a == [] {
      assert a + b == b;
    } else {
      assert (a + b)[1..] == a[1..] + b;
      EscapeAppend(a[1..], b);
    }
  }

  /** Escaping one more unit of a prefix appends that unit's escape. */
  lemma {:induction false} EscapePrefixStep(s: Str, i: nat)
    requires i < |s|
    ensures Escape(s[..i + 1]) == Escape(s[..i]) + EscapeUnit(s[i])
  {
    EscapeAppend(s[..i], [s[i]]);
    assert s[..i + 1] == s[..i] + [s[i]];
    assert Escape([s[i]]) == EscapeUnit(s[i]) + Escape([]);
  }

  /** `EscapePrefixStep` behind an already written prefix. */
  lemma EscapeExtend(start: Str, s: Str, i: nat)
    requires i < |s|
    ensures (start + Escape(s[..i])) + EscapeUnit(s[i]) == start + Escape(s[..i + 1])
  {
    EscapePrefixStep(s, i);
  }

  lemma {:induction false} EscapeDynamicAppend(a: Str, b: Str)
    ensures EscapeDynamic(a + b) == EscapeDynamic(a) + EscapeDynamic(b)
    decreases |a|
  {
    if a == [] {
      assert a + b == b;
    } else {
      assert (a + b)[1..] == a[1..] + b;
      EscapeDynamicAppend(a[1..], b);
    }
  }

  /** Escaped text holds no control code unit and does not start with a quote. */
  lemma {:induction false} EscapedHasNoControl(s: Str)
    ensures forall k :: 0 <= k < |Escape(s)| ==> Escape(s)[k] >= SPACE
    ensures s != [] ==> Escape(s)[0] != QUOTE
    decreases |s|
  {
    if s != [] {
      EscapedHasNoControl(s[1..]);
      EscapeUnitHasNoControl(s[0]);
    }
  }

  lemma {:induction false} EscapeUnitHasNoControl(c: Char16)
    ensures forall k :: 0 <= k < |EscapeUnit(c)| ==> EscapeUnit(c)[k] >= SPACE
  {
    var u := EscapeUnit(c);
    if |u| > 2 {
      assert u == [BACKSLASH, LETTER_U] + Hex4(c);
    }
  }

  /** Escaped text without a backslash is the string itself: every unit that needs escaping gains one. */
  lemma {:induction false} EscapeWithoutBackslash(s: Str)
    requires forall k :: 0 <= k < |Escape(s)| ==> Escape(s)[k] != BACKSLASH
    ensures Escape(s) == s
    decreases |s|
  {
    if s != [] {
      var u, rest := EscapeUnit(s[0]), Escape(s[1..]);
      assert Escape(s) == u + rest;
      assert u[0] == Escape(s)[0];
      assert |u| == 1;
      assert forall k :: 0 <= k < |rest| ==> rest[k] == Escape(s)[k + 1];
      EscapeWithoutBackslash(s[1..]);
      assert [s[0]] + s[1..] == s;
    }
  }

  /** The two escapers differ only on backspace and form feed, which `EscapeString` writes as `\u0008` and `\u000C`. */
  lemma {:induction false} EscapersAgreeWithoutBackspaceOrFormFeed(s: Str)
    requires forall k :: 0 <= k < |s| ==> s[k] != BS && s[k] != FF
    ensures EscapeDynamic(s) == Escape(s)
    decreases |s|
  {
    if s != [] {
      EscapersAgreeWithoutBackspaceOrFormFeed(s[1..]);
    }
  }

  /** Escaped text is the interior of a string literal that only its closing quote ends. */
  lemma {:induction false} EscapedIsStringBody(s: Str)
    ensures StringBody(Escape(s))
    decreases |s|
  {
    if s != [] {
      EscapedIsStringBody(s[1..]);
      var u := EscapeUnit(s[0]);
      var rest := Escape(s[1..]);
      if |u| == 1 {
        assert (u + rest)[1..] == rest;
      } else {
        assert (u + rest)[2..] == u[2..] + rest;
        PlainPrefixKeepsStringBody(u[2..], rest);
      }
    }
  }

  lemma {:induction false} EscapedDynamicIsStringBody(s: Str)
    ensures StringBody(EscapeDynamic(s))
    decreases |s|
  {
    if s != [] {
      EscapedDynamicIsStringBody(s[1..]);
      var u := EscapeDynamicUnit(s[0]);
      var rest := EscapeDynamic(s[1..]);
      if |u| == 1 {
        assert (u + rest)[1..] == rest;
      } else {
        assert (u + rest)[2..] == u[2..] + rest;
        PlainPrefixKeepsStringBody(u[2..], rest);
      }
    }
  }

  lemma {:induction false} PlainPrefixKeepsStringBody(p: Str, rest: Str)
    requires forall k :: 0 <= k < |p| ==> p[k] != QUOTE && p[k] != BACKSLASH
    requires StringBody(rest)
    ensures StringBody(p + rest)
    decreases |p|
  {
    if p == [] {
      assert p + rest == rest;
    } else {
      assert (p + rest)[1..] == p[1..] + rest;
      PlainPrefixKeepsStringBody(p[1..], rest);
    }
  }

  // ---------------------------------------------------------------------------------------------
  // Unescaping

  /** The short escapes `PrepareStringType` decodes: `\" \\ \n \r \t \b \f \/`. */
  function ShortEscape(c: Char16): Option<Char16> {
    if c == QUOTE then Some(QUOTE)
    else if c == BACKSLASH then Some(BACKSLASH)
    else if c == LETTER_N then Some(LF)
    else if c == LETTER_R then Some(CR)
    else if c == LETTER_T then Some(TAB)
    else if c == LETTER_B then Some(BS)
    else if c == LETTER_F then Some(FF)
    else if c == SLASH then Some(SLASH)
    else None
  }

  /**
    The decoding loop of `PrepareStringType`, from the front: a backslash followed by a short-escape
    letter becomes that unit; `\u` with four hexadecimal digits becomes the code unit they spell,
    provided at least `need` units remain from the backslash on; anything else is copied.
    As written the guard `i + 5 < json.Length - 1` asks for `need == 7`; the digits only need `6`.
   */
  function UnescapeWith(s: Str, need: nat): (r: Str)
    requires need >= 6
    ensures |r| <= |s|
    decreases |s|
  {
    if s == [] then []
    else if |s| >= 2 && s[0] == BACKSLASH && ShortEscape(s[1]).Some? then
      [ShortEscape(s[1]).value] + UnescapeWith(s[2..], need)
    else if |s| >= need && s[0] == BACKSLASH && s[1] == LETTER_U && ParseHex4(s[2..6]).Some? then
      [ParseHex4(s[2..6]).value] + UnescapeWith(s[6..], need)
    else [s[0]] + UnescapeWith(s[1..], need)
  }

  /** `PrepareStringType` with the `\uXXXX` guard corrected to `i + 5 < json.Length`. */
  function Unescape(s: Str): Str {
    UnescapeWith(s, 6)
  }

  /** `PrepareStringType` exactly as written (`i + 5 < json.Length - 1`). */
  function UnescapeAsWritten(s: Str): Str {
    UnescapeWith(s, 7)
  }

  /**
    One escaped unit followed by more text decodes back to that unit, provided that a `\uXXXX`
    escape leaves the guard its `need` units (always with the corrected guard; with the guard as
    written, whenever some text follows the escape).
   */
  lemma {:induction false} UnescapeEscapeUnit(c: Char16, rest: Str, need: nat)
    requires 6 <= need <= 7
    requires |EscapeUnit(c)| < 6 || 6 + |rest| >= need
    ensures UnescapeWith(EscapeUnit(c) + rest, need) == [c] + UnescapeWith(rest, need)
  {
    var u := EscapeUnit(c);
    var s := u + rest;
    if |u| == 1 {
      assert s[1..] == rest;
    } else if u[1] == LETTER_U {
      assert s[2..6] == Hex4(c);
      ParseHex4OfHex4(c);
      assert s[6..] == rest;
    } else {
      assert s[2..] == rest;
    }
  }

  lemma {:induction false} UnescapeEscapeDynamicUnit(c: Char16, rest: Str, need: nat)
    requires 6 <= need <= 7
    requires |EscapeDynamicUnit(c)| < 6 || 6 + |rest| >= need
    ensures UnescapeWith(EscapeDynamicUnit(c) + rest, need) == [c] + UnescapeWith(rest, need)
  {
    var u := EscapeDynamicUnit(c);
    var s := u + rest;
    if |u| == 1 {
      assert s[1..] == rest;
    } else if u[1] == LETTER_U {
      assert s[2..6] == Hex4(c);
      ParseHex4OfHex4(c);
      assert s[6..] == rest;
    } else {
      assert s[2..] == rest;
    }
  }

  /** The last unit of a string is written as a `\uXXXX` escape. */
  predicate EndsInCodeEscape(s: Str) {
    s != [] && |EscapeUnit(s[|s| - 1])| == 6
  }

  predicate EndsInDynamicCodeEscape(s: Str) {
    s != [] && |EscapeDynamicUnit(s[|s| - 1])| == 6
  }

  /** Unescaping inverts escaping for either guard, unless the guard as written meets a final `\uXXXX`. */
  lemma {:induction false} UnescapeWithOfEscape(s: Str, need: nat)
    requires 6 <= need <= 7
    requires need == 6 || !EndsInCodeEscape(s)
    ensures UnescapeWith(Escape(s), need) == s
    decreases |s|
  {
    if s != [] {
      var rest := Escape(s[1..]);
      if |s| > 1 {
        assert rest == EscapeUnit(s[1]) + Escape(s[2..]) by { assert s[1..][1..] == s[2..]; }
        assert |rest| >= 1;
      } else {
        assert s[|s| - 1] == s[0];
      }
      UnescapeEscapeUnit(s[0], rest, need);
      if |s| > 1 {
        assert s[1..][|s[1..]| - 1] == s[|s| - 1];
      }
      UnescapeWithOfEscape(s[1..], need);
      assert [s[0]] + s[1..] == s;
    }
  }

  lemma {:induction false} UnescapeWithOfEscapeDynamic(s: Str, need: nat)
    requires 6 <= need <= 7
    requires need == 6 || !EndsInDynamicCodeEscape(s)
    ensures UnescapeWith(EscapeDynamic(s), need) == s
    decreases |s|
  {
    if s != [] {
      var rest := EscapeDynamic(s[1..]);
      if |s| > 1 {
        assert rest == EscapeDynamicUnit(s[1]) + EscapeDynamic(s[2..]) by { assert s[1..][1..] == s[2..]; }
        assert |rest| >= 1;
      } else {
        assert s[|s| - 1] == s[0];
      }
      UnescapeEscapeDynamicUnit(s[0], rest, need);
      if |s| > 1 {
        assert s[1..][|s[1..]| - 1] == s[|s| - 1];
      }
      UnescapeWithOfEscapeDynamic(s[1..], need);
      assert [s[0]] + s[1..] == s;
    }
  }

  /** Reading back what `PrepareCharactersForStoring` wrote gives the original string. */
  lemma {:induction false} UnescapeOfEscape(s: Str)
    ensures Unescape(Escape(s)) == s
  {
    UnescapeWithOfEscape(s, 6);
  }

  /** Reading back what `EscapeString` wrote gives the original string. */
  lemma {:induction false} UnescapeOfEscapeDynamic(s: Str)
    ensures Unescape(EscapeDynamic(s)) == s
  {
    UnescapeWithOfEscapeDynamic(s, 6);
  }

  /** Text without a backslash is copied by the decoding loop. */
  lemma {:induction false} UnescapeWithPlain(t: Str, need: nat)
    requires need >= 6
    requires forall k :: 0 <= k < |t| ==> t[k] != BACKSLASH
    ensures UnescapeWith(t, need) == t
    decreases |t|
  {
    if t != [] {
      UnescapeWithPlain(t[1..], need);
      assert [t[0]] + t[1..] == t;
    }
  }

  /** With the guard as written, a `\uXXXX` escape with nothing after it is copied unit by unit. */
  lemma {:induction false} CodeEscapeCopied(c: Char16)
    requires |EscapeUnit(c)| == 6
    ensures UnescapeWith(EscapeUnit(c), 7) == EscapeUnit(c)
  {
    var u := EscapeUnit(c);
    assert u == [BACKSLASH, LETTER_U] + Hex4(c);
    assert u[1..] == [LETTER_U] + Hex4(c);
    UnescapeWithPlain(u[1..], 7);
    UnescapeCopy(u, 7);
    assert [u[0]] + u[1..] == u;
  }

  /** With the guard as written, a final `\uXXXX` escape is copied, and everything before it is decoded. */
  lemma {:induction false} UnescapeAsWrittenFinalCode(s: Str)
    requires EndsInCodeEscape(s)
    ensures UnescapeWith(Escape(s), 7) == s[..|s| - 1] + EscapeUnit(s[|s| - 1])
    decreases |s|
  {
    if |s| == 1 {
      FinalCodeAlone(s);
    } else {
      assert s[1..][|s[1..]| - 1] == s[|s| - 1];
      UnescapeAsWrittenFinalCode(s[1..]);
      FinalCodeStep(s);
    }
  }

  lemma {:induction false} FinalCodeAlone(s: Str)
    requires |s| == 1 && EndsInCodeEscape(s)
    ensures UnescapeWith(Escape(s), 7) == s[..|s| - 1] + EscapeUnit(s[|s| - 1])
  {
    var last := EscapeUnit(s[0]);
    assert s[|s| - 1] == s[0] && s[..0] == [] && s[1..] == [];
    assert Escape(s) == last by {
      assert Escape(s) == EscapeUnit(s[0]) + Escape(s[1..]);
    }
    CodeEscapeCopied(s[0]);
    assert s[..0] + last == last;
  }

  lemma {:induction false} FinalCodeStep(s: Str)
    requires |s| >= 2
    requires UnescapeWith(Escape(s[1..]), 7) == s[1..][..|s| - 2] + EscapeUnit(s[|s| - 1])
    ensures UnescapeWith(Escape(s), 7) == s[..|s| - 1] + EscapeUnit(s[|s| - 1])
  {
    var tail, last := s[1..], EscapeUnit(s[|s| - 1]);
    var front := tail[..|tail| - 1] + last;
    assert Escape(s) == EscapeUnit(s[0]) + Escape(tail) && Escape(tail) != [] by {
      assert Escape(tail) == EscapeUnit(tail[0]) + Escape(tail[1..]);
    }
    UnescapeThen(s[0], Escape(tail), front);
    assert [s[0]] + front == s[..|s| - 1] + last by {
      assert [s[0]] + tail[..|tail| - 1] == s[..|s| - 1];
    }
  }

  /** With the guard as written, an escaped unit in front of more text decodes in front of it. */
  lemma {:induction false} UnescapeThen(c: Char16, rest: Str, front: Str)
    requires rest != [] && UnescapeWith(rest, 7) == front
    ensures UnescapeWith(EscapeUnit(c) + rest, 7) == [c] + front
  {
    UnescapeEscapeUnit(c, rest, 7);
  }

  /**
    The `PrepareStringType` loop as written reads back what `PrepareCharactersForStoring` wrote
    exactly when the string does not end in a unit written as `\uXXXX`; when it does, that last
    escape comes back as its six units.
   */
  lemma {:induction false} UnescapeAsWrittenOfEscape(s: Str)
    ensures UnescapeAsWritten(Escape(s)) == s <==> !EndsInCodeEscape(s)
    ensures EndsInCodeEscape(s) ==>
      UnescapeAsWritten(Escape(s)) == s[..|s| - 1] + EscapeUnit(s[|s| - 1])
  {
    if EndsInCodeEscape(s) {
      UnescapeAsWrittenFinalCode(s);
      assert |s[..|s| - 1] + EscapeUnit(s[|s| - 1])| == |s| + 5;
    } else {
      UnescapeWithOfEscape(s, 7);
    }
  }

  /** The same loop reads back what `EscapeString` wrote unless it ends in a `\uXXXX` escape. */
  lemma {:induction false} UnescapeAsWrittenOfEscapeDynamic(s: Str)
    requires !EndsInDynamicCodeEscape(s)
    ensures UnescapeAsWritten(EscapeDynamic(s)) == s
  {
    UnescapeWithOfEscapeDynamic(s, 7);
  }

  /** As written, a `\uXXXX` escape that ends the text is left undecoded: U+0001 does not come back. */
  lemma {:induction false} UnescapeAsWrittenMissesFinalCodeEscape()
    ensures Escape([0x01]) == [BACKSLASH, LETTER_U, 0x30, 0x30, 0x30, 0x31]
    ensures UnescapeAsWritten(Escape([0x01])) == Escape([0x01])
    ensures UnescapeAsWritten(Escape([0x01])) != [0x01]
  {
    var s := Escape([0x01]);
    assert Escape([0x01]) == EscapeUnit(0x01) + Escape([]);
    assert Hex4(0x01) == [0x30, 0x30, 0x30, 0x31];
    assert s == [BACKSLASH, LETTER_U, 0x30, 0x30, 0x30, 0x31];
    assert UnescapeWith(s[5..], 7) == [0x31];
    assert UnescapeWith(s[4..], 7) == [0x30, 0x31];
    assert UnescapeWith(s[3..], 7) == [0x30, 0x30, 0x31];
    assert UnescapeWith(s[2..], 7) == [0x30, 0x30, 0x30, 0x31];
    assert UnescapeWith(s[1..], 7) == [LETTER_U, 0x30, 0x30, 0x30, 0x31];
  }

  // ---------------------------------------------------------------------------------------------
  // Quote trimming

  /**
    `TrimStringSign`: drops one leading and one trailing `"` when both are there. `None` stands for
    the exceptions on the empty string (`value[0]`) and on a lone `"` (`Substring(1, -1)`).
   */
  function TrimStringSign(value: Str): (r: Option<Str>)
    ensures r.None? <==> value == [] || value == [QUOTE]
    ensures r.Some? && |value| >= 2 && value[0] == QUOTE && value[|value| - 1] == QUOTE ==>
      r.value == value[1..|value| - 1]
    ensures r.Some? && !(value[0] == QUOTE && value[|value| - 1] == QUOTE) ==> r.value == value
  {
    if value == [] then None
    else if value[0] == QUOTE && value[|value| - 1] == QUOTE then
      if |value| == 1 then None else Some(value[1..|value| - 1])
    else Some(value)
  }

  /** A written string literal trims to its escaped interior, and a second trim changes nothing when the string is not empty. */
  lemma {:induction false} TrimWrittenString(s: Str)
    ensures TrimStringSign([QUOTE] + Escape(s) + [QUOTE]) == Some(Escape(s))
    ensures s != [] ==> TrimStringSign(Escape(s)) == Some(Escape(s))
    ensures s == [] ==> TrimStringSign(Escape(s)).None?
  {
    var w := [QUOTE] + Escape(s) + [QUOTE];
    assert w[1..|w| - 1] == Escape(s);
    if s != [] {
      EscapedHasNoControl(s);
    }
  }

  // ---------------------------------------------------------------------------------------------
  // The anonymous-value string case

  /** `string.Replace("\\" + x, rep)`: left to right, non-overlapping. */
  function ReplaceEscape(s: Str, x: Char16, rep: Char16): (r: Str)
    ensures |r| <= |s|
    decreases |s|
  {
    if s == [] then []
    else if |s| >= 2 && s[0] == BACKSLASH && s[1] == x then [rep] + ReplaceEscape(s[2..], x, rep)
    else [s[0]] + ReplaceEscape(s[1..], x, rep)
  }

  /** The chain `.Replace("\\r", "\r").Replace("\\n", "\n").Replace("\\t", "\t").Replace("\\\"", "\"").Replace("\\\\", "\\")`. */
  function AnonymousStringAsWritten(s: Str): Str {
    ReplaceEscape(ReplaceEscape(ReplaceEscape(ReplaceEscape(ReplaceEscape(
      s, LETTER_R, CR), LETTER_N, LF), LETTER_T, TAB), QUOTE, QUOTE), BACKSLASH, BACKSLASH)
  }

  /** The chain decodes `\n` inside an escaped backslash: the two-unit string backslash-n comes back as backslash-line-feed. */
  lemma {:induction false} AnonymousStringAsWrittenBreaksEscapedBackslash()
    ensures Escape([BACKSLASH, LETTER_N]) == [BACKSLASH, BACKSLASH, LETTER_N]
    ensures AnonymousStringAsWritten(Escape([BACKSLASH, LETTER_N])) == [BACKSLASH, LF]
    ensures Unescape(Escape([BACKSLASH, LETTER_N])) == [BACKSLASH, LETTER_N]
  {
    var s := [BACKSLASH, LETTER_N];
    assert Escape(s) == EscapeUnit(BACKSLASH) + Escape(s[1..]);
    assert Escape(s[1..]) == EscapeUnit(LETTER_N) + Escape([]);
    var w := [BACKSLASH, BACKSLASH, LETTER_N];
    assert ReplaceEscape(w[2..], LETTER_R, CR) == [LETTER_N];
    assert ReplaceEscape(w[1..], LETTER_R, CR) == [BACKSLASH, LETTER_N];
    assert ReplaceEscape(w, LETTER_R, CR) == w;
    assert ReplaceEscape(w[1..], LETTER_N, LF) == [LF];
    assert ReplaceEscape(w, LETTER_N, LF) == [BACKSLASH, LF];
    var v := [BACKSLASH, LF];
    assert ReplaceEscape(v[1..], LETTER_T, TAB) == [LF];
    assert ReplaceEscape(v, LETTER_T, TAB) == v;
    assert ReplaceEscape(v[1..], QUOTE, QUOTE) == [LF];
    assert ReplaceEscape(v, QUOTE, QUOTE) == v;
    assert ReplaceEscape(v[1..], BACKSLASH, BACKSLASH) == [LF];
    assert ReplaceEscape(v, BACKSLASH, BACKSLASH) == v;
    UnescapeOfEscape(s);
  }

  /**
    The strings the `Replace` chain reads back: no backslash, and no control unit other than the
    three (CR, LF, TAB) that it decodes.
   */
  predicate ChainSafe(s: Str) {
    forall k :: 0 <= k < |s| ==> s[k] != BACKSLASH && (s[k] >= SPACE || s[k] == CR || s[k] == LF || s[k] == TAB)
  }

  /** One unit of `EscapeString`'s output, left as the unit itself once an earlier pass decoded it. */
  function Piece(c: Char16, done: set<Char16>): Str {
    if c in done then [c] else EscapeDynamicUnit(c)
  }

  /** `EscapeString`'s output with the units in `done` already decoded by earlier passes of the chain. */
  function Decoded(s: Str, done: set<Char16>): Str
    decreases |s|
  {
    if s == [] then [] else Piece(s[0], done) + Decoded(s[1..], done)
  }

  /** `Replace` copies a unit other than a backslash. */
  lemma {:induction false} ReplaceCopies(c: Char16, rest: Str, x: Char16, rep: Char16)
    requires c != BACKSLASH
    ensures ReplaceEscape([c] + rest, x, rep) == [c] + ReplaceEscape(rest, x, rep)
  {
    assert ([c] + rest)[1..] == rest;
  }

  /** `Replace` turns an occurrence of its escape into its replacement. */
  lemma {:induction false} ReplaceTakes(rest: Str, x: Char16, rep: Char16)
    ensures ReplaceEscape([BACKSLASH, x] + rest, x, rep) == [rep] + ReplaceEscape(rest, x, rep)
  {
    assert ([BACKSLASH, x] + rest)[2..] == rest;
  }

  /** `Replace` copies an escape of another letter. */
  lemma {:induction false} ReplaceSkips(y: Char16, rest: Str, x: Char16, rep: Char16)
    requires y != x && y != BACKSLASH
    ensures ReplaceEscape([BACKSLASH, y] + rest, x, rep) == [BACKSLASH, y] + ReplaceEscape(rest, x, rep)
  {
    var t := [BACKSLASH, y] + rest;
    assert t[1..] == [y] + rest;
    ReplaceCopies(y, rest, x, rep);
  }

  /** A pass of the chain over one unit's piece: the piece of `u` is decoded and every other piece is copied. */
  lemma {:induction false} ReplaceDecodesPiece(c: Char16, done: set<Char16>, x: Char16, u: Char16, rest: Str)
    requires c != BACKSLASH && (c >= SPACE || c == CR || c == LF || c == TAB)
    requires u != BACKSLASH && EscapeDynamicUnit(u) == [BACKSLASH, x]
    ensures ReplaceEscape(Piece(c, done) + rest, x, u) == Piece(c, done + {u}) + ReplaceEscape(rest, x, u)
  {
    if c in done || EscapeDynamicUnit(c) == [c] {
      ReplaceCopies(c, rest, x, u);
    } else {
      var y := EscapeDynamicUnit(c)[1];
      assert EscapeDynamicUnit(c) == [BACKSLASH, y];
      if y == x {
        assert c == u;
        ReplaceTakes(rest, x, u);
      } else {
        assert c != u;
        ReplaceSkips(y, rest, x, u);
      }
    }
  }

  /** One pass of the chain decodes one more unit of a safe string's escaping. */
  lemma {:induction false} ReplaceDecodes(s: Str, done: set<Char16>, x: Char16, u: Char16)
    requires ChainSafe(s)
    requires u != BACKSLASH && EscapeDynamicUnit(u) == [BACKSLASH, x]
    ensures ReplaceEscape(Decoded(s, done), x, u) == Decoded(s, done + {u})
    decreases |s|
  {
    if s != [] {
      var rest := Decoded(s[1..], done);
      assert ChainSafe(s[1..]) by {
        forall k | 0 <= k < |s[1..]| ensures s[1..][k] == s[k + 1] { }
      }
      assert ReplaceEscape(Decoded(s, done), x, u) == Piece(s[0], done + {u}) + ReplaceEscape(rest, x, u) by {
        ReplaceDecodesPiece(s[0], done, x, u, rest);
      }
      ReplaceDecodes(s[1..], done, x, u);
    }
  }

  /** With nothing decoded yet, the text is what `EscapeString` wrote. */
  lemma {:induction false} DecodedNothing(s: Str)
    ensures Decoded(s, {}) == EscapeDynamic(s)
    decreases |s|
  {
    if s != [] {
      DecodedNothing(s[1..]);
    }
  }

  /** Once every escaped unit of a safe string is decoded, the text is the string. */
  lemma {:induction false} DecodedAll(s: Str, done: set<Char16>)
    requires ChainSafe(s)
    requires QUOTE in done && CR in done && LF in done && TAB in done
    ensures Decoded(s, done) == s
    decreases |s|
  {
    if s != [] {
      assert ChainSafe(s[1..]) by {
        forall k | 0 <= k < |s[1..]| ensures s[1..][k] == s[k + 1] { }
      }
      DecodedAll(s[1..], done);
      assert [s[0]] + s[1..] == s;
    }
  }

  lemma {:induction false} ReplaceWithoutBackslash(s: Str, x: Char16, rep: Char16)
    requires forall k :: 0 <= k < |s| ==> s[k] != BACKSLASH
    ensures ReplaceEscape(s, x, rep) == s
    decreases |s|
  {
    if s != [] {
      ReplaceWithoutBackslash(s[1..], x, rep);
      assert [s[0]] + s[1..] == s;
    }
  }

  /**
    The `Replace` chain reads back every string without a backslash whose only control units are
    CR, LF and TAB, whichever of the two writers escaped it.
   */
  lemma {:induction false} AnonymousStringAsWrittenReadsBack(s: Str)
    requires ChainSafe(s)
    ensures AnonymousStringAsWritten(EscapeDynamic(s)) == s
    ensures AnonymousStringAsWritten(Escape(s)) == s
  {
    var d0: set<Char16> := {};
    var d1, d2, d3, d4 := d0 + {CR}, d0 + {CR} + {LF}, d0 + {CR} + {LF} + {TAB}, d0 + {CR} + {LF} + {TAB} + {QUOTE};
    DecodedNothing(s);
    var w0 := ReplaceEscape(EscapeDynamic(s), LETTER_R, CR);
    assert w0 == Decoded(s, d1) by { ReplaceDecodes(s, d0, LETTER_R, CR); }
    var w1 := ReplaceEscape(w0, LETTER_N, LF);
    assert w1 == Decoded(s, d2) by { ReplaceDecodes(s, d1, LETTER_N, LF); }
    var w2 := ReplaceEscape(w1, LETTER_T, TAB);
    assert w2 == Decoded(s, d3) by { ReplaceDecodes(s, d2, LETTER_T, TAB); }
    var w3 := ReplaceEscape(w2, QUOTE, QUOTE);
    assert w3 == s by {
      ReplaceDecodes(s, d3, QUOTE, QUOTE);
      DecodedAll(s, d4);
    }
    ReplaceWithoutBackslash(s, BACKSLASH, BACKSLASH);
    assert forall k :: 0 <= k < |s| ==> s[k] != BS && s[k] != FF;
    EscapersAgreeWithoutBackspaceOrFormFeed(s);
  }

  /** The legacy anonymous reader deletes every backslash (`Replace("\\", string.Empty)`). */
  function RemoveBackslashes(s: Str): (r: Str)
    ensures |r| <= |s|
    ensures forall k :: 0 <= k < |r| ==> r[k] != BACKSLASH
    decreases |s|
  {
    if s == [] then []
    else if s[0] == BACKSLASH then RemoveBackslashes(s[1..])
    else [s[0]] + RemoveBackslashes(s[1..])
  }

  /** Deleting backslashes reads a written line feed back as the letter `n`. */
  lemma {:induction false} RemoveBackslashesLosesLineFeed()
    ensures RemoveBackslashes(Escape([LF])) == [LETTER_N]
  {
    assert Escape([LF]) == EscapeUnit(LF) + Escape([]);
    assert Escape([LF]) == [BACKSLASH, LETTER_N];
  }

  // ---------------------------------------------------------------------------------------------
  // The loops

  /** `PrepareCharactersForStoring`. */
  method PrepareCharactersForStoring(stringData: Str) returns (r: Str)
    ensures r == Escape(stringData)
  {
    r := [];
    var i := 0;
    while i < |stringData|
      invariant 0 <= i <= |stringData|
      invariant r == Escape(stringData[..i])
    {
      var c := stringData[i];
      var piece: Str;
      if c < SPACE || c == QUOTE || c == BACKSLASH {
        if c == QUOTE { piece := [BACKSLASH, QUOTE]; }
        else if c == BACKSLASH { piece := [BACKSLASH, BACKSLASH]; }
        else if c == LF { piece := [BACKSLASH, LETTER_N]; }
        else if c == CR { piece := [BACKSLASH, LETTER_R]; }
        else if c == TAB { piece := [BACKSLASH, LETTER_T]; }
        else if c == BS { piece := [BACKSLASH, LETTER_B]; }
        else if c == FF { piece := [BACKSLASH, LETTER_F]; }
        else { piece := [BACKSLASH, LETTER_U] + Hex4(c); }
      } else {
        piece := [c];
      }
      assert piece == EscapeUnit(c);
      EscapePrefixStep(stringData, i);
      r := r + piece;
      i := i + 1;
    }
    assert stringData[..i] == stringData;
  }

  /** `EscapeString` of the dynamic-object writer. */
  method EscapeString(str: Str) returns (r: Str)
    ensures r == EscapeDynamic(str)
  {
    r := [];
    var i := 0;
    while i < |str|
      invariant 0 <= i <= |str|
      invariant r == EscapeDynamic(str[..i])
    {
      var c := str[i];
      var piece: Str;
      if c == BACKSLASH { piece := [BACKSLASH, BACKSLASH]; }
      else if c == QUOTE { piece := [BACKSLASH, QUOTE]; }
      else if c == LF { piece := [BACKSLASH, LETTER_N]; }
      else if c == CR { piece := [BACKSLASH, LETTER_R]; }
      else if c == TAB { piece := [BACKSLASH, LETTER_T]; }
      else if c < SPACE { piece := [BACKSLASH, LETTER_U] + Hex4(c); }
      else { piece := [c]; }
      assert piece == EscapeDynamicUnit(c);
      EscapeDynamicAppend(str[..i], [c]);
      assert str[..i + 1] == str[..i] + [c];
      assert EscapeDynamic([c]) == EscapeDynamicUnit(c) + EscapeDynamic([]);
      r := r + piece;
      i := i + 1;
    }
    assert str[..i] == str;
  }

  lemma {:induction false} UnescapeShort(s: Str, need: nat)
    requires need >= 6
    requires |s| >= 2 && s[0] == BACKSLASH && ShortEscape(s[1]).Some?
    ensures UnescapeWith(s, need) == [ShortEscape(s[1]).value] + UnescapeWith(s[2..], need)
  {
  }

  lemma {:induction false} UnescapeCode(s: Str, need: nat)
    requires need >= 6
    requires |s| >= need && s[0] == BACKSLASH && s[1] == LETTER_U && ParseHex4(s[2..6]).Some?
    ensures UnescapeWith(s, need) == [ParseHex4(s[2..6]).value] + UnescapeWith(s[6..], need)
  {
  }

  lemma {:induction false} UnescapeCopy(s: Str, need: nat)
    requires need >= 6
    requires s != []
    requires !(|s| >= 2 && s[0] == BACKSLASH && ShortEscape(s[1]).Some?)
    requires !(|s| >= need && s[0] == BACKSLASH && s[1] == LETTER_U && ParseHex4(s[2..6]).Some?)
    ensures UnescapeWith(s, need) == [s[0]] + UnescapeWith(s[1..], need)
  {
  }

  /**
    `PrepareStringType` as written: the `\uXXXX` branch is taken only when `i + 5 < json.Length - 1`,
    so it decodes what `UnescapeAsWritten` decodes (see `Unescape` for the corrected guard).
   */
  method PrepareStringType(json: Str) returns (r: Str)
    ensures r == UnescapeAsWritten(json)
  {
    r := [];
    var i := 0;
    while i < |json|
      invariant 0 <= i <= |json|
      invariant r + UnescapeAsWritten(json[i..]) == UnescapeAsWritten(json)
    {
      if json[i] == BACKSLASH && i + 1 < |json| {
        var j := ShortEscape(json[i + 1]);
        if j.Some? {
          ShortStep(json, i);
          Carry(r, j.value, UnescapeAsWritten(json[i + 2..]), UnescapeAsWritten(json));
          r, i := r + [j.value], i + 2;
          continue;
        }
        if json[i + 1] == LETTER_U && i + 5 < |json| - 1 {
          var c := ParseHex4(json[i + 2..i + 6]);
          if c.Some? {
            CodeStep(json, i);
            Carry(r, c.value, UnescapeAsWritten(json[i + 6..]), UnescapeAsWritten(json));
            r, i := r + [c.value], i + 6;
            continue;
          }
        }
      }
      CopyStep(json, i);
      Carry(r, json[i], UnescapeAsWritten(json[i + 1..]), UnescapeAsWritten(json));
      r, i := r + [json[i]], i + 1;
    }
  }

  /** The unit a pass decodes moves from the text still to read onto the builder. */
  lemma {:induction false} Carry(r: Str, x: Char16, rest: Str, total: Str)
    requires r + ([x] + rest) == total
    ensures (r + [x]) + rest == total
  {
    assert (r + [x]) + rest == r + ([x] + rest);
  }

  /** One pass of `PrepareStringType` over a short escape. */
  lemma {:induction false} ShortStep(json: Str, i: nat)
    requires i + 1 < |json| && json[i] == BACKSLASH && ShortEscape(json[i + 1]).Some?
    ensures UnescapeAsWritten(json[i..]) == [ShortEscape(json[i + 1]).value] + UnescapeAsWritten(json[i + 2..])
  {
    var s := json[i..];
    UnescapeShort(s, 7);
    assert s[2..] == json[i + 2..];
  }

  /** One pass of `PrepareStringType` over a `\uXXXX` escape, taken under the guard as written. */
  lemma {:induction false} CodeStep(json: Str, i: nat)
    requires i + 5 < |json| - 1 && json[i] == BACKSLASH && json[i + 1] == LETTER_U && ParseHex4(json[i + 2..i + 6]).Some?
    ensures UnescapeAsWritten(json[i..]) == [ParseHex4(json[i + 2..i + 6]).value] + UnescapeAsWritten(json[i + 6..])
  {
    var s := json[i..];
    assert s[2..6] == json[i + 2..i + 6];
    UnescapeCode(s, 7);
    assert s[6..] == json[i + 6..];
  }

  /** One pass of `PrepareStringType` that copies a unit. */
  lemma {:induction false} CopyStep(json: Str, i: nat)
    requires i < |json|
    requires !(json[i] == BACKSLASH && i + 1 < |json| && ShortEscape(json[i + 1]).Some?)
    requires !(json[i] == BACKSLASH && i + 1 < |json| && json[i + 1] == LETTER_U && i + 5 < |json| - 1 &&
      ParseHex4(json[i + 2..i + 6]).Some?)
    ensures UnescapeAsWritten(json[i..]) == [json[i]] + UnescapeAsWritten(json[i + 1..])
  {
    var s := json[i..];
    assert |s| >= 7 ==> s[2..6] == json[i + 2..i + 6];
    UnescapeCopy(s, 7);
    assert s[1..] == json[i + 1..];
  }
}

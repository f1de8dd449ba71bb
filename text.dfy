/**
  UTF-16 text as the .NET runtime sees it: a `string` is a sequence of 16-bit code units.
  Character classes, hexadecimal and decimal conversions used by the reader and the writer.
 */
module Text {
  import opened Wrappers

  /** One UTF-16 code unit, the .NET `char` (surrogates included). */
  newtype Char16 = c: int | 0 <= c < 0x1_0000

  type Str = seq<Char16>

  const QUOTE: Char16 := 0x22      // "
  const BACKSLASH: Char16 := 0x5C  // \
  const SLASH: Char16 := 0x2F      // /
  const STAR: Char16 := 0x2A       // *
  const COMMA: Char16 := 0x2C      // ,
  const COLON: Char16 := 0x3A      // :
  const LBRACKET: Char16 := 0x5B   // [
  const RBRACKET: Char16 := 0x5D   // ]
  const LBRACE: Char16 := 0x7B     // {
  const RBRACE: Char16 := 0x7D     // }
  const SPACE: Char16 := 0x20
  const MINUS: Char16 := 0x2D      // -
  const PLUS: Char16 := 0x2B       // +
  const DOT: Char16 := 0x2E        // .
  const TAB: Char16 := 0x09
  const LF: Char16 := 0x0A
  const CR: Char16 := 0x0D
  const BS: Char16 := 0x08         // backspace
  const FF: Char16 := 0x0C         // form feed

  /** A Dafny string literal as UTF-16 code units (every literal in this model is in the BMP). */
  function Lit(s: string): (r: Str)
    ensures |r| == |s|
  {
    seq(|s|, i requires 0 <= i < |s| => if s[i] as int < 0x1_0000 then s[i] as int as Char16 else 0xFFFD)
  }

  /** The text after the opening quote of a standard comment entry's key, `"#__Comment{n}__#"`. */
  const NoteMarker: Str := Lit("#__Comment")

  /** `char.IsWhiteSpace`: Unicode categories Zs, Zl, Zp, plus U+0009..U+000D, U+0085 and U+00A0. */
  predicate IsWhiteSpace(c: Char16) {
    (0x09 <= c <= 0x0D) || c == 0x20 || c == 0x85 || c == 0xA0 || c == 0x1680
    || (0x2000 <= c <= 0x200A) || c == 0x2028 || c == 0x2029 || c == 0x202F || c == 0x205F || c == 0x3000
  }

  /** The first code unit of every ten-digit block of Unicode category Nd in the BMP. */
  const DigitBlocks: seq<int> := [
    0x0030, 0x0660, 0x06F0, 0x07C0, 0x0966, 0x09E6, 0x0A66, 0x0AE6, 0x0B66, 0x0BE6,
    0x0C66, 0x0CE6, 0x0D66, 0x0DE6, 0x0E50, 0x0ED0, 0x0F20, 0x1040, 0x1090, 0x17E0,
    0x1810, 0x1946, 0x19D0, 0x1A80, 0x1A90, 0x1B50, 0x1BB0, 0x1C40, 0x1C50, 0xA620,
    0xA8D0, 0xA900, 0xA9D0, 0xA9F0, 0xAA50, 0xABF0, 0xFF10]

  /** `char.IsDigit`: the code unit is a decimal digit of any script (category Nd). */
  predicate IsDigit(c: Char16) {
    exists k :: 0 <= k < |DigitBlocks| && DigitBlocks[k] <= c as int < DigitBlocks[k] + 10
  }

  predicate IsAsciiDigit(c: Char16) { 0x30 <= c <= 0x39 }

  /** ASCII white space accepted around a number by `int.TryParse`. */
  predicate IsNumberWhite(c: Char16) { (0x09 <= c <= 0x0D) || c == 0x20 }

  /** Upper-case hexadecimal digit for 0..15. */
  function HexDigit(d: int): (c: Char16)
    requires 0 <= d < 16
    ensures IsAsciiDigit(c) || 0x41 <= c <= 0x46
  {
    if d < 10 then (0x30 + d) as Char16 else (0x41 + d - 10) as Char16
  }

  /** Value of a hexadecimal digit of either case, as accepted by `NumberStyles.AllowHexSpecifier`. */
  function HexValue(c: Char16): (r: Option<int>)
    ensures r.Some? ==> 0 <= r.value < 16
  {
    if 0x30 <= c <= 0x39 then Some(c as int - 0x30)
    else if 0x41 <= c <= 0x46 then Some(c as int - 0x41 + 10)
    else if 0x61 <= c <= 0x66 then Some(c as int - 0x61 + 10)
    else None
  }

  /** `string.Format("{0:X4}", c)`: four upper-case hexadecimal digits. */
  function Hex4(c: Char16): (r: Str)
    ensures |r| == 4
    ensures forall k :: 0 <= k < 4 ==> IsAsciiDigit(r[k]) || 0x41 <= r[k] <= 0x46
  {
    var n1 := c as int / 16;
    var n2 := n1 / 16;
    [HexDigit(n2 / 16), HexDigit(n2 % 16), HexDigit(n1 % 16), HexDigit(c as int % 16)]
  }

  /** `uint.TryParse(s, NumberStyles.AllowHexSpecifier, …)` on exactly four code units, cast to `char`. */
  function ParseHex4(s: Str): (r: Option<Char16>)
    requires |s| == 4
  {
    match (HexValue(s[0]), HexValue(s[1]), HexValue(s[2]), HexValue(s[3]))
    case (Some(a), Some(b), Some(c), Some(d)) => Some((a * 0x1000 + b * 0x100 + c * 0x10 + d) as Char16)
    case _ => None
  }

  lemma {:induction false} HexDigitValue(d: int)
    requires 0 <= d < 16
    ensures HexValue(HexDigit(d)) == Some(d)
  {
  }

  /** Parsing the four digits written by `{0:X4}` gives the code unit back. */
  lemma {:induction false} ParseHex4OfHex4(c: Char16)
    ensures ParseHex4(Hex4(c)) == Some(c)
  {
    var n := c as int;
    var n1 := n / 16;
    var n2 := n1 / 16;
    HexDigitValue(n2 / 16);
    HexDigitValue(n2 % 16);
    HexDigitValue(n1 % 16);
    HexDigitValue(n % 16);
    assert n == n1 * 16 + n % 16;
    assert n1 == n2 * 16 + n1 % 16;
    assert n2 == n2 / 16 * 16 + n2 % 16;
  }

  /** Decimal digits of a natural number, most significant first. */
  function Digits(n: nat): (r: Str)
    ensures |r| > 0 && forall i :: 0 <= i < |r| ==> IsAsciiDigit(r[i])
  {
    if n < 10 then [(0x30 + n) as Char16] else Digits(n / 10) + [(0x30 + n % 10) as Char16]
  }

  /** The value of a run of ASCII digits. */
  function DigitsValue(s: Str): (v: int)
    requires forall i :: 0 <= i < |s| ==> IsAsciiDigit(s[i])
    ensures v >= 0
  {
    if s == [] then 0
    else
      assert IsAsciiDigit(s[|s| - 1]);
      DigitsValue(s[..|s| - 1]) * 10 + (s[|s| - 1] as int - 0x30)
  }

  lemma {:induction false} DigitsValueOfDigits(n: nat)
    ensures DigitsValue(Digits(n)) == n
  {
    if n >= 10 {
      var d := Digits(n / 10);
      var r := Digits(n);
      assert r[..|r| - 1] == d;
      DigitsValueOfDigits(n / 10);
    }
  }

  /** Invariant-culture `ToString()` of an integral number. */
  function DecimalString(n: int): (r: Str)
    ensures |r| > 0
  {
    if n < 0 then [MINUS] + Digits(-n) else Digits(n)
  }

  const Int32Min: int := -0x8000_0000
  const Int32Max: int := 0x7FFF_FFFF

  function TrimNumberWhite(s: Str): (r: Str)
    ensures |r| <= |s|
    decreases |s|
  {
    if s != [] && IsNumberWhite(s[0]) then TrimNumberWhite(s[1..])
    else if s != [] && IsNumberWhite(s[|s| - 1]) then TrimNumberWhite(s[..|s| - 1])
    else s
  }

  /**
    `int.TryParse(s, out n)`: optional ASCII white space around an optional sign and a non-empty
    run of ASCII digits whose value fits 32 bits; `None` stands for `false` (and `n == 0`).
   */
  function ParseInt32(s: Str): (r: Option<int>)
    ensures r.Some? ==> Int32Min <= r.value <= Int32Max
  {
    var t := TrimNumberWhite(s);
    var neg := |t| > 0 && t[0] == MINUS;
    var body := if |t| > 0 && (t[0] == MINUS || t[0] == PLUS) then t[1..] else t;
    if body == [] || !(forall i :: 0 <= i < |body| ==> IsAsciiDigit(body[i])) then None
    else
      var v := if neg then -DigitsValue(body) else DigitsValue(body);
      if Int32Min <= v <= Int32Max then Some(v) else None
  }

  /** Written 32-bit integers are read back by `int.TryParse`. */
  lemma {:induction false} ParseInt32OfDecimal(n: int)
    requires Int32Min <= n <= Int32Max
    ensures ParseInt32(DecimalString(n)) == Some(n)
  {
    var s := DecimalString(n);
    var body := if n < 0 then Digits(-n) else Digits(n);
    assert TrimNumberWhite(s) == s by {
      assert !IsNumberWhite(s[0]) && !IsNumberWhite(s[|s| - 1]);
    }
    if n < 0 {
      assert s[1..] == body;
      DigitsValueOfDigits(-n);
    } else {
      DigitsValueOfDigits(n);
    }
  }

  /**
    The simple upper-case mapping behind `OrdinalIgnoreCase`, for the letters of Basic Latin,
    Latin-1, Latin Extended-A, basic Greek and Cyrillic, and the fullwidth Latin letters. The
    dotless i, the long s and the micro sign, whose folding differs between .NET runtimes, and
    the letters of every other block are left as they are.
   */
  function FoldCase(c: Char16): Char16 {
    if 0x61 <= c <= 0x7A then c - 0x20                        // a-z
    else if 0xE0 <= c <= 0xFE && c != 0xF7 then c - 0x20      // Latin-1 letters, not the division sign
    else if c == 0xFF then 0x178                              // y with diaeresis
    else if 0x100 <= c <= 0x12F && c % 2 == 1 then c - 1      // Latin Extended-A: upper case first
    else if 0x132 <= c <= 0x137 && c % 2 == 1 then c - 1
    else if 0x139 <= c <= 0x148 && c % 2 == 0 then c - 1
    else if 0x14A <= c <= 0x177 && c % 2 == 1 then c - 1
    else if 0x179 <= c <= 0x17E && c % 2 == 0 then c - 1
    else if 0x3B1 <= c <= 0x3CB && c != 0x3C2 then c - 0x20   // Greek alpha to upsilon with dialytika
    else if c == 0x3C2 then 0x3A3                             // final sigma
    else if c == 0x3AC then 0x386                             // Greek letters with tonos
    else if 0x3AD <= c <= 0x3AF then c - 0x25
    else if c == 0x3CC then 0x38C
    else if 0x3CD <= c <= 0x3CE then c - 0x3F
    else if 0x430 <= c <= 0x44F then c - 0x20                 // Cyrillic a to ya
    else if 0x450 <= c <= 0x45F then c - 0x50                 // Cyrillic ie with grave to dzhe
    else if 0xFF41 <= c <= 0xFF5A then c - 0x20               // fullwidth a-z
    else c
  }

  /** Folding is a projection: an upper-case form folds to itself. */
  lemma {:induction false} FoldCaseIdempotent(c: Char16)
    ensures FoldCase(FoldCase(c)) == FoldCase(c)
  {
  }

  /** The fold pairs letters beyond ASCII: `é` matches `É`, `я` matches `Я`, and final sigma matches capital sigma. */
  lemma {:induction false} FoldCaseExamples()
    ensures FoldCase(0xE9) == FoldCase(0xC9) && FoldCase(0x44F) == FoldCase(0x42F) && FoldCase(0x3C2) == FoldCase(0x3A3)
    ensures FoldCase(0xF7) != FoldCase(0xD7)
  {
  }

  function Fold(s: Str): (r: Str)
    ensures |r| == |s|
  {
    seq(|s|, i requires 0 <= i < |s| => FoldCase(s[i]))
  }

  /** `StringComparer.OrdinalIgnoreCase.Equals`. */
  predicate SameIgnoringCase(a: Str, b: Str) {
    Fold(a) == Fold(b)
  }

  /** Items joined by a separator, `string.Join` style. */
  function Join(items: seq<Str>, sep: Str): Str {
    if items == [] then []
    else if |items| == 1 then items[0]
    else items[0] + sep + Join(items[1..], sep)
  }

  /** Every item preceded by the separator. */
  function PrefixEach(items: seq<Str>, sep: Str): Str {
    if items == [] then [] else sep + items[0] + PrefixEach(items[1..], sep)
  }

  lemma {:induction false} PrefixEachCons(item: Str, items: seq<Str>, sep: Str)
    ensures PrefixEach([item] + items, sep) == sep + item + PrefixEach(items, sep)
  {
    assert ([item] + items)[1..] == items;
  }

  /**
    Proof plumbing for the writer and reader loops: appending regroups freely. Stated once so that
    long appends are not compared code unit by code unit at every call site.
   */
  lemma {:induction false} Regroup(a: Str, b: Str, c: Str)
    ensures a + b + c == a + (b + c)
  {
  }

  lemma {:induction false} Regroup4(a: Str, b: Str, c: Str, d: Str)
    ensures a + b + c + d == a + (b + c + d)
  {
  }

  /** The items one after the other. */
  function Concat(items: seq<Str>): Str {
    if items == [] then [] else items[0] + Concat(items[1..])
  }

  /** A join is the first item, then the separator before each of the others. */
  lemma {:induction false} JoinFirst(items: seq<Str>, sep: Str)
    requires items != []
    ensures Join(items, sep) == items[0] + PrefixEach(items[1..], sep)
    decreases |items|
  {
    if |items| > 1 {
      JoinFirst(items[1..], sep);
      assert items[1..][1..] == items[2..];
    }
  }

  /** Items interleaved with one separator code unit between each neighbouring pair. */
  function Interleave(items: seq<Str>, seps: seq<Char16>): Str
    requires |items| == |seps| + 1
  {
    if seps == [] then items[0] else items[0] + [seps[0]] + Interleave(items[1..], seps[1..])
  }
}

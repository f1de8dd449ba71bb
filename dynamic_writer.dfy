/**
  The dynamic-object writer of Core/G9JSONWriter.cs: `G9DynamicObjectToJson`,
  `SerializeDynamicObject`, `SerializeList` and `SerializeValue`. A nested `G9CDynamicObject` is a
  `Dynamic` value, a `List<object>` an `Items` value of type `List<Object>`; every other value is
  written by `SerializeValue`. Keys are written without escaping.
 */
module DynamicWriter {
  import opened Wrappers
  import opened Text
  import opened Values
  import opened Escaping
  import opened Writer
  import opened DynamicObjects
  import opened Reader

  // ---------------------------------------------------------------------------------------------
  // The text written, as functions

  /** The values `SerializeDynamicObject` and `SerializeList` descend into as lists. */
  predicate IsObjectList(v: Value) {
    v.Items? && v.t == TList(TObject)
  }

  /** `SerializeValue`: null, a quoted escaped string, a lower-case boolean, or `ToString()`. */
  function ScalarJson(h: Host, v: Value): Str {
    match v
    case Null => Lit("null")
    case Text(s) => Quote(EscapeDynamic(s))
    case Boolean(b) => if b then Lit("true") else Lit("false")
    case _ => Display(h, v)
  }

  /** The separator written before every entry or item but the first. */
  function CommaText(formatted: bool, first: bool): Str {
    if first then [] else if formatted then [COMMA, LF] else [COMMA]
  }

  /** The key part of an entry: indented, quoted, then `": "` or `":`. */
  function KeyPart(formatted: bool, key: Str, level: nat): Str {
    if formatted then Tabs(level) + [TAB, QUOTE] + key + [QUOTE, COLON, SPACE]
    else [QUOTE] + key + [QUOTE, COLON]
  }

  /** The line break and indentation before a nested object or list that is an entry's value. */
  function NestedBreak(formatted: bool, level: nat): Str {
    if formatted then [LF] + Tabs(level) + [TAB] else []
  }

  /** The indentation before a list item. */
  function ItemIndent(formatted: bool, level: nat): Str {
    if formatted then Tabs(level) + [TAB] else []
  }

  /** What closes an object or a list at `level`. */
  function Closing(formatted: bool, level: nat, c: Char16): Str {
    if formatted then [LF] + Tabs(level) + [c] else [c]
  }

  /** What opens an object or a list. */
  function Opening(formatted: bool, c: Char16): Str {
    if formatted then [c, LF] else [c]
  }

  /** `SerializeDynamicObject` at `level`: the entries in enumeration order between braces. */
  function ObjectText(h: Host, formatted: bool, v: Value, level: nat): (r: Str)
    requires v.Dynamic?
    ensures |r| >= 2 && r[0] == LBRACE && r[|r| - 1] == RBRACE
    decreases v, 3
  {
    Opening(formatted, LBRACE) + EntriesText(h, formatted, v, level, 0) + Closing(formatted, level, RBRACE)
  }

  /** The entries of a dynamic object from `i` on. */
  function EntriesText(h: Host, formatted: bool, v: Value, level: nat, i: nat): Str
    requires v.Dynamic? && i <= |v.entries|
    decreases v, 2, |v.entries| - i
  {
    if i == |v.entries| then []
    else CommaText(formatted, i == 0) + EntryText(h, formatted, v.entries[i], level) + EntriesText(h, formatted, v, level, i + 1)
  }

  /** One entry: its key part, then its value. */
  function EntryText(h: Host, formatted: bool, e: (Str, Value), level: nat): Str
    decreases e, 1
  {
    KeyPart(formatted, e.0, level) + ValueText(h, formatted, e.1, level)
  }

  /** An entry's value: a nested object or list on a new line one level deeper, or a scalar. */
  function ValueText(h: Host, formatted: bool, x: Value, level: nat): Str
    decreases x, 4
  {
    if x.Dynamic? then NestedBreak(formatted, level) + ObjectText(h, formatted, x, level + 1)
    else if IsObjectList(x) then NestedBreak(formatted, level) + ListText(h, formatted, x, level + 1)
    else ScalarJson(h, x)
  }

  /** `SerializeList` at `level`: the items between brackets. */
  function ListText(h: Host, formatted: bool, v: Value, level: nat): (r: Str)
    requires v.Items?
    ensures |r| >= 2 && r[0] == LBRACKET && r[|r| - 1] == RBRACKET
    decreases v, 3
  {
    Opening(formatted, LBRACKET) + ItemsText(h, formatted, v, level, 0) + Closing(formatted, level, RBRACKET)
  }

  /** The items of a list from `i` on. */
  function ItemsText(h: Host, formatted: bool, v: Value, level: nat, i: nat): Str
    requires v.Items? && i <= |v.elems|
    decreases v, 2, |v.elems| - i
  {
    if i == |v.elems| then []
    else
      CommaText(formatted, i == 0) + ItemIndent(formatted, level) + ItemText(h, formatted, v.elems[i], level)
      + ItemsText(h, formatted, v, level, i + 1)
  }

  /** One item: a nested object or list one level deeper, or a scalar. */
  function ItemText(h: Host, formatted: bool, x: Value, level: nat): Str
    decreases x, 4
  {
    if x.Dynamic? then ObjectText(h, formatted, x, level + 1)
    else if IsObjectList(x) then ListText(h, formatted, x, level + 1)
    else ScalarJson(h, x)
  }

  // ---------------------------------------------------------------------------------------------
  // The writer

  /** The string builder shared by one `G9DynamicObjectToJson` call, with its configuration. */
  class DynamicJsonWriter {
    const h: Host
    const formatted: bool
    var out: Str

    constructor(h: Host, formatted: bool)
      ensures this.h == h && this.formatted == formatted && out == []
    {
      this.h := h;
      this.formatted := formatted;
      out := [];
    }

    /** `SerializeValue`. */
    method SerializeValue(x: Value)
      modifies this
      ensures out == old(out) + ScalarJson(h, x)
    {
      if x.Null? {
        out := out + Lit("null");
      } else if x.Text? {
        var escaped := EscapeString(x.s);
        out := out + Quote(escaped);
      } else if x.Boolean? {
        out := out + (if x.b then Lit("true") else Lit("false"));
      } else {
        out := out + Display(h, x);
      }
    }

    /** `SerializeDynamicObject`: the entries one by one, in enumeration order. */
    method SerializeDynamicObject(v: Value, level: nat)
      requires v.Dynamic?
      modifies this
      ensures out == old(out) + ObjectText(h, formatted, v, level)
      decreases v, 3
    {
      out := out + Opening(formatted, LBRACE);
      ghost var start := out;
      var i := 0;
      while i < |v.entries|
        invariant i <= |v.entries|
        invariant out + EntriesText(h, formatted, v, level, i) == start + EntriesText(h, formatted, v, level, 0)
      {
        ghost var before := out;
        SerializeEntry(v.entries[i], level, i == 0);
        EntryStep(h, formatted, v, level, i, before, out);
        i := i + 1;
      }
      ghost var body := out;
      out := out + Closing(formatted, level, RBRACE);
      ObjectWritten(h, formatted, v, level, old(out), start, body, out);
    }

    /** One pass of the loop of `SerializeDynamicObject`. */
    method SerializeEntry(e: (Str, Value), level: nat, first: bool)
      modifies this
      ensures out == old(out) + CommaText(formatted, first) + EntryText(h, formatted, e, level)
      decreases e, 2
    {
      out := out + CommaText(formatted, first);
      ghost var before := out;
      out := out + KeyPart(formatted, e.0, level);
      SerializeEntryValue(e.1, level);
      Regroup(before, KeyPart(formatted, e.0, level), ValueText(h, formatted, e.1, level));
    }

    /** The value of one entry. */
    method SerializeEntryValue(x: Value, level: nat)
      modifies this
      ensures out == old(out) + ValueText(h, formatted, x, level)
      decreases x, 5
    {
      if x.Dynamic? {
        out := out + NestedBreak(formatted, level);
        SerializeDynamicObject(x, level + 1);
        Regroup(old(out), NestedBreak(formatted, level), ObjectText(h, formatted, x, level + 1));
      } else if IsObjectList(x) {
        out := out + NestedBreak(formatted, level);
        SerializeList(x, level + 1);
        Regroup(old(out), NestedBreak(formatted, level), ListText(h, formatted, x, level + 1));
      } else {
        SerializeValue(x);
      }
    }

    /** `SerializeList`: the items one by one. */
    method SerializeList(v: Value, level: nat)
      requires v.Items?
      modifies this
      ensures out == old(out) + ListText(h, formatted, v, level)
      decreases v, 3
    {
      out := out + Opening(formatted, LBRACKET);
      ghost var start := out;
      var i := 0;
      while i < |v.elems|
        invariant i <= |v.elems|
        invariant out + ItemsText(h, formatted, v, level, i) == start + ItemsText(h, formatted, v, level, 0)
      {
        ghost var before := out;
        SerializeItem(v.elems[i], level, i == 0);
        ItemStep(h, formatted, v, level, i, before, out);
        i := i + 1;
      }
      ghost var body := out;
      out := out + Closing(formatted, level, RBRACKET);
      ListWritten(h, formatted, v, level, old(out), start, body, out);
    }

    /** One pass of the loop of `SerializeList`. */
    method SerializeItem(x: Value, level: nat, first: bool)
      modifies this
      ensures out == old(out) + CommaText(formatted, first) + ItemIndent(formatted, level) + ItemText(h, formatted, x, level)
      decreases x, 5
    {
      out := out + CommaText(formatted, first) + ItemIndent(formatted, level);
      if x.Dynamic? {
        SerializeDynamicObject(x, level + 1);
      } else if IsObjectList(x) {
        SerializeList(x, level + 1);
      } else {
        SerializeValue(x);
      }
    }
  }

  /** `G9DynamicObjectToJson`: `null` for no object, otherwise the object at level 0. */
  method G9DynamicObjectToJson(h: Host, formatted: bool, obj: DynamicObject?) returns (json: Str)
    ensures obj == null ==> json == Lit("null")
    ensures obj != null ==> json == ObjectText(h, formatted, Dynamic(obj.properties), 0)
  {
    if obj == null {
      return Lit("null");
    }
    var writer := new DynamicJsonWriter(h, formatted);
    writer.SerializeDynamicObject(Dynamic(obj.properties), 0);
    json := writer.out;
  }

  // ---------------------------------------------------------------------------------------------
  // Steps of the writer's loops, stated without the heap

  lemma {:induction false} EntryStep(h: Host, formatted: bool, v: Value, level: nat, i: nat, before: Str, after: Str)
    requires v.Dynamic? && i < |v.entries|
    requires after == before + CommaText(formatted, i == 0) + EntryText(h, formatted, v.entries[i], level)
    ensures after + EntriesText(h, formatted, v, level, i + 1) == before + EntriesText(h, formatted, v, level, i)
  {
    Regroup4(before, CommaText(formatted, i == 0), EntryText(h, formatted, v.entries[i], level), EntriesText(h, formatted, v, level, i + 1));
  }

  lemma {:induction false} ItemStep(h: Host, formatted: bool, v: Value, level: nat, i: nat, before: Str, after: Str)
    requires v.Items? && i < |v.elems|
    requires after == before + CommaText(formatted, i == 0) + ItemIndent(formatted, level) + ItemText(h, formatted, v.elems[i], level)
    ensures after + ItemsText(h, formatted, v, level, i + 1) == before + ItemsText(h, formatted, v, level, i)
  {
    var c, d, x, rest := CommaText(formatted, i == 0), ItemIndent(formatted, level), ItemText(h, formatted, v.elems[i], level), ItemsText(h, formatted, v, level, i + 1);
    assert ItemsText(h, formatted, v, level, i) == c + d + x + rest;
    Regroup4(before, c, d, x);
    Regroup4(before, c + d, x, rest);
    Regroup4(before, c, d, x + rest);
  }

  lemma {:induction false} ObjectWritten(h: Host, formatted: bool, v: Value, level: nat, s0: Str, start: Str, body: Str, s1: Str)
    requires v.Dynamic?
    requires start == s0 + Opening(formatted, LBRACE)
    requires body + EntriesText(h, formatted, v, level, |v.entries|) == start + EntriesText(h, formatted, v, level, 0)
    requires s1 == body + Closing(formatted, level, RBRACE)
    ensures s1 == s0 + ObjectText(h, formatted, v, level)
  {
    assert body == start + EntriesText(h, formatted, v, level, 0);
    Regroup4(s0, Opening(formatted, LBRACE), EntriesText(h, formatted, v, level, 0), Closing(formatted, level, RBRACE));
  }

  lemma {:induction false} ListWritten(h: Host, formatted: bool, v: Value, level: nat, s0: Str, start: Str, body: Str, s1: Str)
    requires v.Items?
    requires start == s0 + Opening(formatted, LBRACKET)
    requires body + ItemsText(h, formatted, v, level, |v.elems|) == start + ItemsText(h, formatted, v, level, 0)
    requires s1 == body + Closing(formatted, level, RBRACKET)
    ensures s1 == s0 + ListText(h, formatted, v, level)
  {
    assert body == start + ItemsText(h, formatted, v, level, 0);
    Regroup4(s0, Opening(formatted, LBRACKET), ItemsText(h, formatted, v, level, 0), Closing(formatted, level, RBRACKET));
  }

  // ---------------------------------------------------------------------------------------------
  // What the writer promises

  /**
    The scalars the anonymous reader understands come back unchanged: null, booleans, strings
    (escaped by `EscapeString`, unescaped by `ParsingAnonymousValue`) and 32-bit integers.
   */
  lemma {:induction false} ScalarRoundTrip(h: Host, x: Value)
    requires x.Null? || x.Boolean? || x.Text? || (x.Integral? && x.t == Int32Type && Int32Min <= x.n <= Int32Max)
    ensures AnonymousValue(h, ScalarJson(h, x)) == Ok(x)
  {
    AnonymousLiterals(h);
    match x
    case Text(s) => AnonymousStringRoundTrip(h, s);
    case Integral(_, n) => AnonymousIntegerRoundTrip(h, n);
    case _ =>
  }
  // ---------------------------------------------------------------------------------------------
  // Formatting only adds layout

  /** What the formatted writer adds: line feeds, tabs and the space after a key's colon. */
  predicate IsLayout(c: Char16) {
    c == LF || c == TAB || c == SPACE
  }

  predicate AllLayout(s: Str) {
    forall k :: 0 <= k < |s| ==> IsLayout(s[k])
  }

  /** `f` is `u` with layout code units inserted anywhere. */
  predicate Spread(u: Str, f: Str)
    decreases |f|
  {
    if f == [] then u == []
    else (u != [] && u[0] == f[0] && Spread(u[1..], f[1..])) || (IsLayout(f[0]) && Spread(u, f[1..]))
  }

  lemma {:induction false} SpreadSame(a: Str)
    ensures Spread(a, a)
    decreases |a|
  {
    if a != [] {
      SpreadSame(a[1..]);
    }
  }

  lemma {:induction false} SpreadLayout(ws: Str)
    requires AllLayout(ws)
    ensures Spread([], ws)
    decreases |ws|
  {
    if ws != [] {
      SpreadLayout(ws[1..]);
    }
  }

  /** Spreading is compatible with appending. */
  lemma {:induction false} SpreadConcat(a: Str, b: Str, c: Str, d: Str)
    requires Spread(a, b) && Spread(c, d)
    ensures Spread(a + c, b + d)
    decreases |b|
  {
    if b == [] {
      assert a + c == c && b + d == d;
    } else if a != [] && a[0] == b[0] && Spread(a[1..], b[1..]) {
      SpreadConcat(a[1..], b[1..], c, d);
      assert (a + c)[1..] == a[1..] + c;
      assert (b + d)[1..] == b[1..] + d;
    } else {
      SpreadConcat(a, b[1..], c, d);
      assert (b + d)[1..] == b[1..] + d;
    }
  }

  /** Text with layout before and after it spreads the text. */
  lemma {:induction false} SpreadPadded(pre: Str, x: Str, post: Str)
    requires AllLayout(pre) && AllLayout(post)
    ensures Spread(x, pre + x + post)
  {
    SpreadLayout(pre);
    SpreadLayout(post);
    SpreadSame(x);
    SpreadConcat([], pre, x, x);
    assert [] + x == x;
    SpreadConcat(x, pre + x, [], post);
    assert x + [] == x;
  }

  /** Each fixed piece of the formatted text spreads its unformatted counterpart. */
  lemma {:induction false} PiecesSpread(key: Str, level: nat, first: bool, c: Char16)
    ensures Spread(CommaText(false, first), CommaText(true, first))
    ensures Spread(Opening(false, c), Opening(true, c))
    ensures Spread(Closing(false, level, c), Closing(true, level, c))
    ensures Spread(KeyPart(false, key, level), KeyPart(true, key, level))
    ensures Spread(NestedBreak(false, level), NestedBreak(true, level))
    ensures Spread(ItemIndent(false, level), ItemIndent(true, level))
  {
    var tabs := Tabs(level);
    if !first {
      SpreadPadded([], [COMMA], [LF]);
      assert [] + [COMMA] + [LF] == CommaText(true, first);
    } else {
      SpreadSame([]);
    }
    SpreadPadded([], [c], [LF]);
    assert [] + [c] + [LF] == Opening(true, c);
    SpreadPadded([LF] + tabs, [c], []);
    assert [LF] + tabs + [c] + [] == Closing(true, level, c);
    var plain := [QUOTE] + key + [QUOTE, COLON];
    SpreadPadded(tabs + [TAB], plain, [SPACE]);
    assert tabs + [TAB] + plain + [SPACE] == KeyPart(true, key, level);
    SpreadPadded([LF] + tabs + [TAB], [], []);
    assert [LF] + tabs + [TAB] + [] + [] == NestedBreak(true, level);
    SpreadPadded(tabs + [TAB], [], []);
    assert tabs + [TAB] + [] + [] == ItemIndent(true, level);
  }

  /**
    The formatted text of a dynamic object is its unformatted text with layout inserted: the two
    configurations write the same JSON, whatever the nesting level.
   */
  lemma {:induction false} ObjectSpread(h: Host, v: Value, level: nat)
    requires v.Dynamic?
    ensures Spread(ObjectText(h, false, v, level), ObjectText(h, true, v, level))
    decreases v, 3
  {
    PiecesSpread([], level, true, LBRACE);
    PiecesSpread([], level, true, RBRACE);
    EntriesSpread(h, v, level, 0);
    SpreadConcat(Opening(false, LBRACE), Opening(true, LBRACE), EntriesText(h, false, v, level, 0), EntriesText(h, true, v, level, 0));
    SpreadConcat(Opening(false, LBRACE) + EntriesText(h, false, v, level, 0), Opening(true, LBRACE) + EntriesText(h, true, v, level, 0),
      Closing(false, level, RBRACE), Closing(true, level, RBRACE));
  }

  lemma {:induction false} EntriesSpread(h: Host, v: Value, level: nat, i: nat)
    requires v.Dynamic? && i <= |v.entries|
    ensures Spread(EntriesText(h, false, v, level, i), EntriesText(h, true, v, level, i))
    decreases v, 2, |v.entries| - i
  {
    if i == |v.entries| {
      SpreadSame([]);
    } else {
      var e := v.entries[i];
      PiecesSpread([], level, i == 0, COMMA);
      EntrySpread(h, e, level);
      EntriesSpread(h, v, level, i + 1);
      SpreadConcat(CommaText(false, i == 0), CommaText(true, i == 0), EntryText(h, false, e, level), EntryText(h, true, e, level));
      SpreadConcat(CommaText(false, i == 0) + EntryText(h, false, e, level), CommaText(true, i == 0) + EntryText(h, true, e, level),
        EntriesText(h, false, v, level, i + 1), EntriesText(h, true, v, level, i + 1));
    }
  }

  lemma {:induction false} EntrySpread(h: Host, e: (Str, Value), level: nat)
    ensures Spread(EntryText(h, false, e, level), EntryText(h, true, e, level))
    decreases e, 1
  {
    PiecesSpread(e.0, level, true, COMMA);
    ValueSpread(h, e.1, level);
    SpreadConcat(KeyPart(false, e.0, level), KeyPart(true, e.0, level), ValueText(h, false, e.1, level), ValueText(h, true, e.1, level));
  }

  lemma {:induction false} ValueSpread(h: Host, x: Value, level: nat)
    ensures Spread(ValueText(h, false, x, level), ValueText(h, true, x, level))
    decreases x, 4
  {
    PiecesSpread([], level, true, COMMA);
    if x.Dynamic? {
      ObjectSpread(h, x, level + 1);
      SpreadConcat(NestedBreak(false, level), NestedBreak(true, level), ObjectText(h, false, x, level + 1), ObjectText(h, true, x, level + 1));
    } else if IsObjectList(x) {
      ListSpread(h, x, level + 1);
      SpreadConcat(NestedBreak(false, level), NestedBreak(true, level), ListText(h, false, x, level + 1), ListText(h, true, x, level + 1));
    } else {
      SpreadSame(ScalarJson(h, x));
    }
  }

  /** The same for a list. */
  lemma {:induction false} ListSpread(h: Host, v: Value, level: nat)
    requires v.Items?
    ensures Spread(ListText(h, false, v, level), ListText(h, true, v, level))
    decreases v, 3
  {
    PiecesSpread([], level, true, LBRACKET);
    PiecesSpread([], level, true, RBRACKET);
    ItemsSpread(h, v, level, 0);
    SpreadConcat(Opening(false, LBRACKET), Opening(true, LBRACKET), ItemsText(h, false, v, level, 0), ItemsText(h, true, v, level, 0));
    SpreadConcat(Opening(false, LBRACKET) + ItemsText(h, false, v, level, 0), Opening(true, LBRACKET) + ItemsText(h, true, v, level, 0),
      Closing(false, level, RBRACKET), Closing(true, level, RBRACKET));
  }

  lemma {:induction false} ItemsSpread(h: Host, v: Value, level: nat, i: nat)
    requires v.Items? && i <= |v.elems|
    ensures Spread(ItemsText(h, false, v, level, i), ItemsText(h, true, v, level, i))
    decreases v, 2, |v.elems| - i
  {
    if i == |v.elems| {
      SpreadSame([]);
    } else {
      var x := v.elems[i];
      var c0, c1 := CommaText(false, i == 0), CommaText(true, i == 0);
      var d0, d1 := ItemIndent(false, level), ItemIndent(true, level);
      var x0, x1 := ItemText(h, false, x, level), ItemText(h, true, x, level);
      PiecesSpread([], level, i == 0, COMMA);
      ItemSpread(h, x, level);
      ItemsSpread(h, v, level, i + 1);
      SpreadConcat(c0, c1, d0, d1);
      SpreadConcat(c0 + d0, c1 + d1, x0, x1);
      SpreadConcat(c0 + d0 + x0, c1 + d1 + x1, ItemsText(h, false, v, level, i + 1), ItemsText(h, true, v, level, i + 1));
    }
  }

  lemma {:induction false} ItemSpread(h: Host, x: Value, level: nat)
    ensures Spread(ItemText(h, false, x, level), ItemText(h, true, x, level))
    decreases x, 4
  {
    if x.Dynamic? {
      ObjectSpread(h, x, level + 1);
    } else if IsObjectList(x) {
      ListSpread(h, x, level + 1);
    } else {
      SpreadSame(ScalarJson(h, x));
    }
  }
}

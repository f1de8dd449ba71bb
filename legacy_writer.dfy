/**
  The root-level writer `G9JsonWriter` (G9JSONWriter.cs), the older standalone version of the Core
  writer. It dispatches on the runtime type (null, enum, built-in, collection, user type), writes
  public fields before readable public properties, skips members holding null, and writes every
  note as `/* note */` in front of its member whatever the layout. The functions give the text
  written when the output is unformatted; the class `LegacyJsonWriter` appends it step by step.
 */
module LegacyWriter {
  import opened Wrappers
  import opened Text
  import opened Values
  import opened Escaping
  import Writer

  // ---------------------------------------------------------------------------------------------
  // The text written

  /** `WriteJSONNoteComment`: `/* note */`, then in a formatted text a line break and the indentation. */
  function NoteComment(note: Str, unformatted: bool, tabs: nat): Str {
    Lit("/* ") + note + Lit(" */") + (if unformatted then [] else [LF] + Writer.Tabs(tabs))
  }

  /** The notes of a member, one comment after the other. */
  function NoteComments(notes: seq<Str>, unformatted: bool, tabs: nat): Str {
    if notes == [] then [] else NoteComment(notes[0], unformatted, tabs) + NoteComments(notes[1..], unformatted, tabs)
  }

  /** The fields the writer lists: public and without `G9JsonIgnoreMember`. */
  function WrittenFields(ms: seq<MemberDesc>): (r: seq<MemberDesc>)
    ensures forall k :: 0 <= k < |r| ==> r[k] in ms && r[k].isPublic && !r[k].legacy.ignored
  {
    if ms == [] then []
    else (if ms[0].isPublic && !ms[0].legacy.ignored then [ms[0]] else []) + WrittenFields(ms[1..])
  }

  /** The properties the writer lists: public, readable and without `G9JsonIgnoreMember`. */
  function WrittenProperties(ms: seq<MemberDesc>): (r: seq<MemberDesc>)
    ensures forall k :: 0 <= k < |r| ==> r[k] in ms && r[k].isPublic && r[k].canRead && !r[k].legacy.ignored
  {
    if ms == [] then []
    else (if ms[0].isPublic && ms[0].canRead && !ms[0].legacy.ignored then [ms[0]] else []) + WrittenProperties(ms[1..])
  }

  /** The key of a member: its `G9JsonCustomMemberName`, else its declared name. */
  function KeyName(m: MemberDesc): Str {
    match m.legacy.customName
    case Some(n) => n
    case None => m.name
  }

  /**
    `ParseValues` without formatting: null; an enum as its underlying integer; the built-in types
    (strings and chars quoted and escaped, numbers and booleans bare, other values quoted); an
    `IList` between brackets; a `Dictionary<,>` between braces, `{}` when its keys are not strings;
    nothing for any other enumerable; a user type's members between braces.
   */
  function Json(h: Host, schema: Schema, v: Value): Str
    decreases v, 3
  {
    match v
    case Null => Lit("null")
    case EnumValue(_, _, n) => DecimalString(n)
    case Text(s) => Writer.Quote(Escape(s))
    case Character(c) => Writer.Quote(EscapeUnit(c))
    case Floating(_, token) => token
    case Boolean(b) => if b then Lit("true") else Lit("false")
    case Integral(_, n) => DecimalString(n)
    case Other(_, token) => Writer.Quote(token)
    case Items(t, _) => if t.TArray? || t.TList? then [LBRACKET] + ItemsJson(h, schema, v, 0) + [RBRACKET] else []
    case Entries(t, _) =>
      if !t.TDict? then []
      else if t.key != TString then [LBRACE, RBRACE]
      else [LBRACE] + EntriesJson(h, schema, v, 0) + [RBRACE]
    case Dynamic(_) => []
    case Expando(_) => []
    case Record(t, _) => [LBRACE] + MembersJson(h, schema, v, Members(schema, t), true) + [RBRACE]
  }

  /** The members of a user type in the order they are written: fields, then properties. */
  function Members(schema: Schema, t: TypeDesc): seq<MemberDesc> {
    var rd := RecordOf(schema, t);
    WrittenFields(rd.fields) + WrittenProperties(rd.properties)
  }

  /** The elements of a list from `i` on, a comma before each but the first. */
  function ItemsJson(h: Host, schema: Schema, v: Value, i: nat): Str
    requires v.Items? && i <= |v.elems|
    decreases v, 2, |v.elems| - i
  {
    if i == |v.elems| then []
    else (if i == 0 then [] else [COMMA]) + Json(h, schema, v.elems[i]) + ItemsJson(h, schema, v, i + 1)
  }

  /** The entries of a dictionary from `i` on: the raw key quoted, `:`, the value. */
  function EntriesJson(h: Host, schema: Schema, v: Value, i: nat): Str
    requires v.Entries? && i <= |v.entries|
    decreases v, 2, |v.entries| - i
  {
    if i == |v.entries| then []
    else (if i == 0 then [] else [COMMA]) + EntryJson(h, schema, v.entries[i]) + EntriesJson(h, schema, v, i + 1)
  }

  function EntryJson(h: Host, schema: Schema, e: (Str, Value)): Str
    decreases e, 0
  {
    [QUOTE] + e.0 + [QUOTE, COLON] + Json(h, schema, e.1)
  }

  /** The member loops: members holding null are skipped, a comma goes between two written members. */
  function MembersJson(h: Host, schema: Schema, v: Value, ms: seq<MemberDesc>, first: bool): Str
    requires v.Record?
    decreases v, 1, |ms|
  {
    if ms == [] then []
    else MemberPiece(h, schema, v, ms[0], first) + MembersJson(h, schema, v, ms[1..], StillFirst(v, ms[0], first))
  }

  /** `isFirst` after a member has been seen. */
  function StillFirst(v: Value, m: MemberDesc, first: bool): bool
    requires v.Record?
  {
    first && Writer.MemberValue(v.slots, m) == Null
  }

  /** What one member adds: nothing when it holds null, else a comma unless first, and the member. */
  function MemberPiece(h: Host, schema: Schema, v: Value, m: MemberDesc, first: bool): Str
    requires v.Record?
    decreases v, 0
  {
    var k := Writer.SlotOf(v.slots, m.name);
    if k < 0 || v.slots[k].1.Null? then []
    else (if first then [] else [COMMA]) + MemberJson(h, schema, m, v.slots[k].1)
  }

  /** One written member: its notes, its key, its value. */
  function MemberJson(h: Host, schema: Schema, m: MemberDesc, value: Value): Str
    decreases value, 5
  {
    NoteComments(m.legacy.notes, true, 0) + [QUOTE] + KeyName(m) + [QUOTE, COLON] + MemberValueJson(h, schema, m, value)
  }

  /** An enum member marked `G9JsonStoreEnumAsString` is written as the string of its name. */
  function MemberValueJson(h: Host, schema: Schema, m: MemberDesc, value: Value): Str
    decreases value, 4
  {
    if m.memberType.TEnum? && m.legacy.enumAsString then Writer.Quote(Escape(Display(h, value)))
    else Json(h, schema, value)
  }

  // ---------------------------------------------------------------------------------------------
  // The writer

  /** The string builder and the tab count `G9ObjectToJson` threads through its helpers. */
  class LegacyJsonWriter {
    const h: Host
    const schema: Schema
    const unformatted: bool
    var out: Str
    var tabs: nat

    constructor(h: Host, schema: Schema, unformatted: bool)
      ensures this.h == h && this.schema == schema && this.unformatted == unformatted
      ensures out == [] && tabs == 0
    {
      this.h := h;
      this.schema := schema;
      this.unformatted := unformatted;
      out := [];
      tabs := 0;
    }

    method Append(s: Str)
      modifies this
      ensures out == old(out) + s && tabs == old(tabs)
    {
      out := out + s;
    }

    /** `WriteJSONNoteComment`, exact in both layouts. */
    method WriteNote(note: Str)
      modifies this
      ensures out == old(out) + NoteComment(note, unformatted, tabs) && tabs == old(tabs)
    {
      Append(Lit("/* ") + note + Lit(" */") + (if unformatted then [] else [LF] + Writer.Tabs(tabs)));
    }

    /** The `foreach` over a member's notes. */
    method WriteNotes(notes: seq<Str>)
      modifies this
      ensures out == old(out) + NoteComments(notes, unformatted, tabs) && tabs == old(tabs)
    {
      var i := 0;
      while i < |notes|
        invariant i <= |notes| && tabs == old(tabs)
        invariant out + NoteComments(notes[i..], unformatted, tabs) == old(out) + NoteComments(notes, unformatted, tabs)
      {
        ghost var before := out;
        assert notes[i..][1..] == notes[i + 1..];
        WriteNote(notes[i]);
        Regroup(before, NoteComment(notes[i], unformatted, tabs), NoteComments(notes[i + 1..], unformatted, tabs));
        i := i + 1;
      }
    }

    /** `ParseValues`. */
    method ParseValues(v: Value)
      modifies this
      ensures tabs == old(tabs) && old(out) <= out
      ensures unformatted ==> out == old(out) + Json(h, schema, v)
      decreases v, 4
    {
      if v.Null? {
        Append(Lit("null"));
      } else if v.EnumValue? {
        ParseEnumTypes(v);
      } else if v.Text? || v.Character? || v.Boolean? || v.Integral? || v.Floating? || v.Other? {
        ParseDotNetBuiltInTypes(v);
      } else if v.Items? || v.Entries? || v.Dynamic? || v.Expando? {
        ParseCollectionTypes(v);
      } else {
        ParseCustomObjectTypes(v);
      }
    }

    /** `ParseEnumTypes`: the underlying integer. */
    method ParseEnumTypes(v: Value)
      requires v.EnumValue?
      modifies this
      ensures out == old(out) + Json(h, schema, v) && tabs == old(tabs)
    {
      Append(DecimalString(v.n));
    }

    /** `PrepareCharacterForStoring`: a backslash before `"`, `\` and control units, with the short form where there is one. */
    method PrepareCharacterForStoring(c: Char16)
      modifies this
      ensures out == old(out) + EscapeUnit(c) && tabs == old(tabs)
    {
      if c < SPACE || c == QUOTE || c == BACKSLASH {
        var j := if c == QUOTE then QUOTE else if c == BACKSLASH then BACKSLASH else if c == LF then LETTER_N
          else if c == CR then LETTER_R else if c == TAB then LETTER_T else if c == BS then LETTER_B
          else if c == FF then LETTER_F else LETTER_U;
        if j != LETTER_U {
          Append([BACKSLASH, j]);
        } else {
          Append([BACKSLASH, LETTER_U] + Hex4(c));
        }
      } else {
        Append([c]);
      }
    }

    /** The `String` case: the units one by one between quotes. */
    method WriteString(s: Str)
      modifies this
      ensures out == old(out) + Writer.Quote(Escape(s)) && tabs == old(tabs)
    {
      Append([QUOTE]);
      ghost var start := out;
      var i := 0;
      while i < |s|
        invariant i <= |s| && tabs == old(tabs)
        invariant out == start + Escape(s[..i])
      {
        EscapeExtend(start, s, i);
        PrepareCharacterForStoring(s[i]);
        i := i + 1;
      }
      assert s[..i] == s;
      Append([QUOTE]);
      assert out == old(out) + Writer.Quote(Escape(s)) by {
        assert out == (old(out) + [QUOTE]) + Escape(s) + [QUOTE];
      }
    }

    /** `ParseDotNetBuiltInTypes`: the same text in both layouts. */
    method ParseDotNetBuiltInTypes(v: Value)
      requires v.Text? || v.Character? || v.Boolean? || v.Integral? || v.Floating? || v.Other?
      modifies this
      ensures out == old(out) + Json(h, schema, v) && tabs == old(tabs)
    {
      if v.Character? {
        Append([QUOTE]);
        PrepareCharacterForStoring(v.c);
        Append([QUOTE]);
      } else if v.Text? {
        WriteString(v.s);
      } else if v.Floating? {
        Append(v.token);
      } else if v.Boolean? {
        Append(if v.b then Lit("true") else Lit("false"));
      } else if v.Integral? {
        Append(DecimalString(v.n));
      } else {
        Append(Writer.Quote(v.token));
      }
    }

    /** Opens a list, a dictionary or an object; a formatted opening goes one tab deeper. */
    method Open(c: Char16, onNewLine: bool)
      modifies this
      ensures tabs == old(tabs) + (if unformatted then 0 else 1)
      ensures unformatted ==> out == old(out) + [c]
      ensures old(out) <= out
    {
      if unformatted {
        Append([c]);
      } else {
        Append((if onNewLine then [LF] else []) + Writer.Tabs(tabs) + [c, LF] + Writer.Tabs(tabs + 1));
        tabs := tabs + 1;
      }
    }

    /** Closes what `Open` opened, on a line of its own when formatted. */
    method Close(c: Char16)
      requires !unformatted ==> tabs > 0
      modifies this
      ensures tabs == old(tabs) - (if unformatted then 0 else 1)
      ensures unformatted ==> out == old(out) + [c]
      ensures old(out) <= out
    {
      if unformatted {
        Append([c]);
      } else {
        tabs := tabs - 1;
        Append([LF] + Writer.Tabs(tabs) + [c]);
      }
    }

    /** The separator written before every element, entry or member but the first. */
    method Comma()
      modifies this
      ensures tabs == old(tabs) && old(out) <= out
      ensures unformatted ==> out == old(out) + [COMMA]
    {
      Append(if unformatted then [COMMA] else [COMMA, LF] + Writer.Tabs(tabs));
    }

    /** `ParseCollectionTypes`: an `IList`, a `Dictionary<,>`, or nothing for any other enumerable. */
    method ParseCollectionTypes(v: Value)
      requires v.Items? || v.Entries? || v.Dynamic? || v.Expando?
      modifies this
      ensures tabs == old(tabs) && old(out) <= out
      ensures unformatted ==> out == old(out) + Json(h, schema, v)
      decreases v, 3
    {
      if v.Items? && (v.t.TArray? || v.t.TList?) {
        Open(LBRACKET, true);
        WriteItems(v);
        Close(RBRACKET);
        Regroup4(old(out), [LBRACKET], ItemsJson(h, schema, v, 0), [RBRACKET]);
      } else if v.Entries? && v.t.TDict? {
        if v.t.key != TString {
          Append([LBRACE, RBRACE]);
          return;
        }
        Open(LBRACE, out != []);
        WriteEntries(v);
        Close(RBRACE);
        Regroup4(old(out), [LBRACE], EntriesJson(h, schema, v, 0), [RBRACE]);
      }
    }

    /** The `foreach` over the elements of a list. */
    method WriteItems(v: Value)
      requires v.Items?
      modifies this
      ensures tabs == old(tabs) && old(out) <= out
      ensures unformatted ==> out == old(out) + ItemsJson(h, schema, v, 0)
      decreases v, 2
    {
      var i := 0;
      while i < |v.elems|
        invariant i <= |v.elems| && tabs == old(tabs) && old(out) <= out
        invariant unformatted ==> out + ItemsJson(h, schema, v, i) == old(out) + ItemsJson(h, schema, v, 0)
      {
        ghost var before := out;
        if i > 0 {
          Comma();
        }
        ParseValues(v.elems[i]);
        if unformatted {
          ItemWritten(h, schema, v, i, before, out);
        }
        i := i + 1;
      }
      assert out + [] == out;
    }

    /** The `foreach` over the keys of a dictionary. */
    method WriteEntries(v: Value)
      requires v.Entries?
      modifies this
      ensures tabs == old(tabs) && old(out) <= out
      ensures unformatted ==> out == old(out) + EntriesJson(h, schema, v, 0)
      decreases v, 2
    {
      var i := 0;
      while i < |v.entries|
        invariant i <= |v.entries| && tabs == old(tabs) && old(out) <= out
        invariant unformatted ==> out + EntriesJson(h, schema, v, i) == old(out) + EntriesJson(h, schema, v, 0)
      {
        ghost var before := out;
        if i > 0 {
          Comma();
        }
        WriteEntry(v.entries[i]);
        if unformatted {
          EntryWritten(h, schema, v, i, before, out);
        }
        i := i + 1;
      }
      assert out + [] == out;
    }

    /** One entry: the key as it stands between quotes, `":`, the value. */
    method WriteEntry(e: (Str, Value))
      modifies this
      ensures tabs == old(tabs) && old(out) <= out
      ensures unformatted ==> out == old(out) + EntryJson(h, schema, e)
      decreases e, 1
    {
      Append([QUOTE] + e.0 + [QUOTE, COLON]);
      ParseValues(e.1);
      if unformatted {
        Regroup(old(out), [QUOTE] + e.0 + [QUOTE, COLON], Json(h, schema, e.1));
      }
    }

    /** `ParseCustomObjectTypes`: the field loop, then the property loop, between braces. */
    method ParseCustomObjectTypes(v: Value)
      requires v.Record?
      modifies this
      ensures tabs == old(tabs) && old(out) <= out
      ensures unformatted ==> out == old(out) + Json(h, schema, v)
      decreases v, 3
    {
      var rd := RecordOf(schema, v.t);
      var fields, properties := WrittenFields(rd.fields), WrittenProperties(rd.properties);
      Open(LBRACE, out != []);
      ghost var start := out;
      var first := WriteMembers(v, fields, true);
      first := WriteMembers(v, properties, first);
      Close(RBRACE);
      if unformatted {
        MembersAppend(h, schema, v, fields, properties, true);
        Regroup(start, MembersJson(h, schema, v, fields, true), MembersJson(h, schema, v, properties, AllNullFrom(v, fields, true)));
        Regroup4(old(out), [LBRACE], MembersJson(h, schema, v, Members(schema, v.t), true), [RBRACE]);
      }
    }

    /** One member loop; `first` is `isFirst` before it and after it. */
    method WriteMembers(v: Value, ms: seq<MemberDesc>, first: bool) returns (next: bool)
      requires v.Record?
      modifies this
      ensures tabs == old(tabs) && old(out) <= out
      ensures next == AllNullFrom(v, ms, first)
      ensures unformatted ==> out == old(out) + MembersJson(h, schema, v, ms, first)
      decreases v, 2
    {
      next := first;
      var i := 0;
      while i < |ms|
        invariant i <= |ms| && tabs == old(tabs) && old(out) <= out
        invariant AllNullFrom(v, ms[i..], next) == AllNullFrom(v, ms, first)
        invariant unformatted ==> out + MembersJson(h, schema, v, ms[i..], next) == old(out) + MembersJson(h, schema, v, ms, first)
      {
        ghost var before := out;
        assert ms[i..][1..] == ms[i + 1..];
        var after := WriteMember(v, ms[i], next);
        if unformatted {
          Regroup(before, MemberPiece(h, schema, v, ms[i], next), MembersJson(h, schema, v, ms[i + 1..], after));
        }
        next := after;
        i := i + 1;
      }
      assert ms[i..] == [];
      assert out + [] == out;
    }

    /** One pass of a member loop: skipped when the member holds null. */
    method WriteMember(v: Value, m: MemberDesc, first: bool) returns (next: bool)
      requires v.Record?
      modifies this
      ensures tabs == old(tabs) && old(out) <= out
      ensures next == StillFirst(v, m, first)
      ensures unformatted ==> out == old(out) + MemberPiece(h, schema, v, m, first)
      decreases v, 1
    {
      var k := Writer.SlotOf(v.slots, m.name);
      if k < 0 || v.slots[k].1.Null? {
        assert out + [] == out;
        return first;
      }
      ghost var before := out;
      if !first {
        Comma();
      }
      ghost var commaed := out;
      WriteMemberText(m, v.slots[k].1);
      if unformatted {
        Appended(before, commaed, out, if first then [] else [COMMA], MemberJson(h, schema, m, v.slots[k].1));
      }
      return false;
    }

    /** The body of a member loop's pass once the member holds a value: notes, key, value. */
    method WriteMemberText(m: MemberDesc, value: Value)
      modifies this
      ensures tabs == old(tabs) && old(out) <= out
      ensures unformatted ==> out == old(out) + MemberJson(h, schema, m, value)
      decreases value, 6
    {
      WriteNotes(m.legacy.notes);
      ghost var noted := out;
      Append([QUOTE] + KeyName(m) + [QUOTE, COLON]);
      WriteMemberValue(m, value);
      if unformatted {
        NotesIgnoreTabs(m.legacy.notes, tabs);
        MemberWritten(old(out), noted, out, NoteComments(m.legacy.notes, true, 0), [QUOTE] + KeyName(m) + [QUOTE, COLON], MemberValueJson(h, schema, m, value));
      }
    }

    /** A member's value: an enum stored as a string goes through `ParseValues` as the string of its name. */
    method WriteMemberValue(m: MemberDesc, value: Value)
      modifies this
      ensures tabs == old(tabs) && old(out) <= out
      ensures unformatted ==> out == old(out) + MemberValueJson(h, schema, m, value)
      decreases value, 5
    {
      if m.memberType.TEnum? && m.legacy.enumAsString {
        ParseDotNetBuiltInTypes(Text(Display(h, value)));
      } else {
        ParseValues(value);
      }
    }
  }

  /** `G9ObjectToJson`: a fresh builder, tab count 0. */
  method G9ObjectToJson(h: Host, schema: Schema, v: Value, unformatted: bool) returns (json: Str)
    ensures unformatted ==> json == Json(h, schema, v)
  {
    var writer := new LegacyJsonWriter(h, schema, unformatted);
    writer.ParseValues(v);
    json := writer.out;
  }

  // ---------------------------------------------------------------------------------------------
  // Steps of the loops, stated without the heap

  /** Whether every member of `ms` holds null, starting from `isFirst == first`. */
  function AllNullFrom(v: Value, ms: seq<MemberDesc>, first: bool): bool
    requires v.Record?
  {
    if ms == [] then first else AllNullFrom(v, ms[1..], StillFirst(v, ms[0], first))
  }

  lemma {:induction false} ItemWritten(h: Host, schema: Schema, v: Value, i: nat, before: Str, after: Str)
    requires v.Items? && i < |v.elems|
    requires after == before + (if i == 0 then [] else [COMMA]) + Json(h, schema, v.elems[i])
    ensures after + ItemsJson(h, schema, v, i + 1) == before + ItemsJson(h, schema, v, i)
  {
    Regroup4(before, if i == 0 then [] else [COMMA], Json(h, schema, v.elems[i]), ItemsJson(h, schema, v, i + 1));
  }

  lemma {:induction false} EntryWritten(h: Host, schema: Schema, v: Value, i: nat, before: Str, after: Str)
    requires v.Entries? && i < |v.entries|
    requires after == before + (if i == 0 then [] else [COMMA]) + EntryJson(h, schema, v.entries[i])
    ensures after + EntriesJson(h, schema, v, i + 1) == before + EntriesJson(h, schema, v, i)
  {
    Regroup4(before, if i == 0 then [] else [COMMA], EntryJson(h, schema, v.entries[i]), EntriesJson(h, schema, v, i + 1));
  }

  /** Proof plumbing for the writer loops: two appends to the output are one append of both pieces. */
  lemma {:induction false} Appended(before: Str, mid: Str, after: Str, a: Str, b: Str)
    requires mid == before + a && after == mid + b
    ensures after == before + (a + b)
  {
  }

  /** Proof plumbing for `WriteMemberText`: the notes, then the key and value, are one append. */
  lemma {:induction false} MemberWritten(before: Str, noted: Str, after: Str, notes: Str, key: Str, value: Str)
    requires noted == before + notes && after == noted + key + value
    ensures after == before + (notes + key + value)
  {
  }

  /** Notes written without formatting do not depend on the tab count. */
  lemma {:induction false} NotesIgnoreTabs(notes: seq<Str>, tabs: nat)
    ensures NoteComments(notes, true, tabs) == NoteComments(notes, true, 0)
  {
    if notes != [] {
      NotesIgnoreTabs(notes[1..], tabs);
    }
  }

  // ---------------------------------------------------------------------------------------------
  // What the writer promises

  /**
    The two member loops share `isFirst`: the text of the fields and then the properties is the
    fields' text followed by the properties' text, continued with `isFirst` as the fields left it.
   */
  lemma {:induction false} MembersAppend(h: Host, schema: Schema, v: Value, a: seq<MemberDesc>, b: seq<MemberDesc>, first: bool)
    requires v.Record?
    ensures MembersJson(h, schema, v, a + b, first) == MembersJson(h, schema, v, a, first) + MembersJson(h, schema, v, b, AllNullFrom(v, a, first))
    decreases |a|
  {
    if a == [] {
      assert a + b == b;
    } else {
      assert (a + b)[0] == a[0] && (a + b)[1..] == a[1..] + b;
      var next := StillFirst(v, a[0], first);
      MembersAppend(h, schema, v, a[1..], b, next);
      Regroup(MemberPiece(h, schema, v, a[0], first), MembersJson(h, schema, v, a[1..], next), MembersJson(h, schema, v, b, AllNullFrom(v, a[1..], next)));
    }
  }

  /** A member adds text exactly when it does not hold null. */
  lemma {:induction false} PieceEmptyIff(h: Host, schema: Schema, v: Value, m: MemberDesc, first: bool)
    requires v.Record?
    ensures MemberPiece(h, schema, v, m, first) == [] <==> Writer.MemberValue(v.slots, m) == Null
  {
    var k := Writer.SlotOf(v.slots, m.name);
    if k >= 0 && !v.slots[k].1.Null? {
      MemberTextStart(h, schema, m, v.slots[k].1);
    }
  }

  /** Every member of `ms` holds null. */
  predicate NoneWritten(v: Value, ms: seq<MemberDesc>)
    requires v.Record?
  {
    forall k :: 0 <= k < |ms| ==> Writer.MemberValue(v.slots, ms[k]) == Null
  }

  lemma {:induction false} NoneWrittenCons(v: Value, ms: seq<MemberDesc>)
    requires v.Record? && ms != []
    ensures NoneWritten(v, ms) <==> Writer.MemberValue(v.slots, ms[0]) == Null && NoneWritten(v, ms[1..])
  {
    assert forall k :: 1 <= k < |ms| ==> ms[k] == ms[1..][k - 1];
  }

  /** Null members are skipped: the member text is empty exactly when every member holds null. */
  lemma {:induction false} MembersEmptyIff(h: Host, schema: Schema, v: Value, ms: seq<MemberDesc>, first: bool)
    requires v.Record?
    ensures MembersJson(h, schema, v, ms, first) == [] <==> NoneWritten(v, ms)
    decreases |ms|
  {
    if ms != [] {
      MembersEmptyIff(h, schema, v, ms[1..], StillFirst(v, ms[0], first));
      PieceEmptyIff(h, schema, v, ms[0], first);
      NoneWrittenCons(v, ms);
    }
  }

  /** `isFirst` survives a member loop exactly when it came in set and every member held null. */
  lemma {:induction false} AllNullFromIff(v: Value, ms: seq<MemberDesc>, first: bool)
    requires v.Record?
    ensures AllNullFrom(v, ms, first) == (first && NoneWritten(v, ms))
    decreases |ms|
  {
    if ms != [] {
      AllNullFromIff(v, ms[1..], StillFirst(v, ms[0], first));
      NoneWrittenCons(v, ms);
    }
  }

  /** Commas only separate written members: the member text starts with a comma exactly when a member was written before it. */
  lemma {:induction false} MembersCommaIff(h: Host, schema: Schema, v: Value, ms: seq<MemberDesc>, first: bool)
    requires v.Record? && MembersJson(h, schema, v, ms, first) != []
    ensures MembersJson(h, schema, v, ms, first)[0] == COMMA <==> !first
    decreases |ms|
  {
    var piece := MemberPiece(h, schema, v, ms[0], first);
    var next := StillFirst(v, ms[0], first);
    PieceEmptyIff(h, schema, v, ms[0], first);
    if piece == [] {
      assert next == first;
      MembersCommaIff(h, schema, v, ms[1..], next);
    } else {
      var k := Writer.SlotOf(v.slots, ms[0].name);
      var text := MemberJson(h, schema, ms[0], v.slots[k].1);
      MemberTextStart(h, schema, ms[0], v.slots[k].1);
      assert piece == (if first then [] else [COMMA]) + text;
      assert MembersJson(h, schema, v, ms, first)[0] == piece[0];
    }
  }

  /** A written member starts with `/` when it has notes and with `"` otherwise, never with a comma. */
  lemma {:induction false} MemberTextStart(h: Host, schema: Schema, m: MemberDesc, value: Value)
    ensures MemberJson(h, schema, m, value) != [] && MemberJson(h, schema, m, value)[0] != COMMA
  {
    NoteCommentsStart(m.legacy.notes);
    var notes := NoteComments(m.legacy.notes, true, 0);
    var rest := [QUOTE] + KeyName(m) + [QUOTE, COLON] + MemberValueJson(h, schema, m, value);
    assert MemberJson(h, schema, m, value) == notes + rest;
    assert (notes + rest)[0] == if notes == [] then QUOTE else SLASH;
  }

  /** A member's text starts with `/` when it has notes and with `"` otherwise, never with a comma. */
  lemma {:induction false} NoteCommentsStart(notes: seq<Str>)
    ensures NoteComments(notes, true, 0) != [] ==> NoteComments(notes, true, 0)[0] == SLASH
    ensures notes == [] <==> NoteComments(notes, true, 0) == []
  {
    if notes != [] {
      assert NoteComment(notes[0], true, 0)[0] == SLASH;
    }
  }

  /** A note is written as the same `/* note */` comment in both layouts; formatting only adds layout after it. */
  lemma {:induction false} NoteLayouts(note: Str, tabs: nat)
    ensures NoteComment(note, false, tabs) == NoteComment(note, true, tabs) + [LF] + Writer.Tabs(tabs)
    ensures NoteComment(note, true, tabs) == [SLASH, STAR, SPACE] + note + [SPACE, STAR, SLASH]
  {
    assert Lit("/* ") == [SLASH, STAR, SPACE];
    assert Lit(" */") == [SPACE, STAR, SLASH];
    var c := Lit("/* ") + note + Lit(" */");
    assert NoteComment(note, true, tabs) == c + [];
    assert NoteComment(note, false, tabs) == c + ([LF] + Writer.Tabs(tabs));
  }
}

/**
  The Core writer as it runs (`Core/G9JSONWriter.cs`): a writer holding the text built so far and
  the tab depth, with one method per helper of the source. Every method leaves the tab depth as it
  found it and only appends; without formatting, each appends exactly the text the functions of
  `Writer` give, and the notes and the scalars are exact in both layouts.
 */
module ObjectWriter {
  import opened Wrappers
  import opened Text
  import opened Values
  import opened Escaping
  import opened MemberParserAttribute
  import opened Writer

  /** The state `G9ObjectToJson` threads through its helpers: the string builder and the tab count. */
  class JsonWriter {
    const w: WriterContext
    var out: Str
    var tabs: nat

    constructor(w: WriterContext)
      ensures this.w == w && out == [] && tabs == 0
    {
      this.w := w;
      out := [];
      tabs := 0;
    }

    method Append(s: Str)
      modifies this
      ensures out == old(out) + s && tabs == old(tabs)
    {
      out := out + s;
    }

    /** A string value: quoted, with `PrepareCharactersForStoring` applied. */
    method WriteString(s: Str)
      modifies this
      ensures out == old(out) + Quote(Escape(s)) && tabs == old(tabs)
    {
      var e := PrepareCharactersForStoring(s);
      Append(Quote(e));
    }

    /** `WriteJsonNoteComment`. */
    method WriteNote(note: Str, n: nat)
      modifies this
      ensures out == old(out) + NoteText(w.config.commentMode, w.config.isFormatted, note, n, tabs)
      ensures tabs == old(tabs)
    {
      var fmt := w.config.isFormatted;
      match w.config.commentMode
      case NonstandardMode =>
        Append(Lit("/* ") + note + Lit(" */") + (if fmt then [LF] + Tabs(tabs) else []));
      case StandardMode =>
        var key := [QUOTE] + NoteMarker + DecimalString(n) + Lit("__#");
        if fmt {
          var e := PrepareCharactersForStoring(note);
          Append(key + Separator(true) + Quote(e) + [COMMA, LF] + Tabs(tabs));
        } else {
          Append(key + Separator(false) + Quote(note) + [COMMA]);
        }
    }

    /** One note after the other, numbered on from `n` as `commentNumber++` numbers them. */
    method WriteNotes(notes: seq<Str>, n: nat)
      modifies this
      ensures out == old(out) + NotesText(w.config.commentMode, w.config.isFormatted, notes, n, tabs)
      ensures tabs == old(tabs)
    {
      ghost var mode, fmt := w.config.commentMode, w.config.isFormatted;
      var i := 0;
      while i < |notes|
        invariant i <= |notes| && tabs == old(tabs)
        invariant out + NotesText(mode, fmt, notes[i..], n + i, tabs) == old(out) + NotesText(mode, fmt, notes, n, tabs)
      {
        NotesStep(mode, fmt, notes, i, n, tabs);
        ghost var before := out;
        WriteNote(notes[i], n + i);
        Regroup(before, NoteText(mode, fmt, notes[i], n + i, tabs), NotesText(mode, fmt, notes[i + 1..], n + i + 1, tabs));
        i := i + 1;
      }
    }

    /** Two runs of notes numbered on from `n`: exact in both layouts, and at depth 0 unformatted. */
    method WriteTwoNoteRuns(a: seq<Str>, b: seq<Str>, n: nat)
      modifies this
      ensures out == old(out) + NotesText(w.config.commentMode, w.config.isFormatted, a + b, n, tabs)
      ensures !w.config.isFormatted ==> out == old(out) + NotesText(w.config.commentMode, false, a + b, n, 0)
      ensures tabs == old(tabs)
    {
      WriteNotes(a, n);
      WriteNotes(b, n + |a|);
      Regroup(old(out), NotesText(w.config.commentMode, w.config.isFormatted, a, n, tabs),
        NotesText(w.config.commentMode, w.config.isFormatted, b, n + |a|, tabs));
      NotesAppend(w.config.commentMode, w.config.isFormatted, a, b, n, tabs);
      NotesIgnoreTabs(w.config.commentMode, a + b, n, tabs);
    }

    /**
      `ParseObjectMembersToJson`: null, an expando, a built-in value, a collection, or a user type.
      A dynamic object is an enumerable that is neither a list nor a dictionary: nothing is written.
     */
    method WriteValue(v: Value)
      modifies this
      ensures tabs == old(tabs) && old(out) <= out
      ensures !w.config.isFormatted ==> out == old(out) + Json(w, v, old(out) == [])
      decreases v, 4
    {
      match v
      case Null => Append(Lit("null"));
      case Expando(_) => WriteExpando(v);
      case Items(_, _) => WriteList(v);
      case Entries(_, _) => WriteDictionary(v);
      case Dynamic(_) =>
      case Record(_, _) => WriteCustomObject(v);
      case _ => WriteBuiltIn(v);
    }

    /** `ParseDotNetBuiltInTypes`, the same text in both layouts. */
    method WriteBuiltIn(v: Value)
      requires v.Text? || v.Character? || v.Boolean? || v.Integral? || v.Floating? || v.EnumValue? || v.Other?
      modifies this
      ensures out == old(out) + Json(w, v, false) && tabs == old(tabs)
    {
      if v.Text? {
        WriteString(v.s);
      } else if v.Character? {
        WriteString([v.c]);
      } else if v.EnumValue? {
        Append(DecimalString(v.n));
      } else if v.Other? {
        Append(Quote(w.host.toText(v)));
      } else {
        Append(w.host.toText(v));
      }
    }

    /** Opens a list, a dictionary or an object; a formatted opening goes one tab deeper. */
    method Open(c: Char16, onNewLine: bool)
      modifies this
      ensures tabs == old(tabs) + (if w.config.isFormatted then 1 else 0)
      ensures !w.config.isFormatted ==> out == old(out) + [c]
      ensures old(out) <= out && out != []
    {
      if w.config.isFormatted {
        Append((if onNewLine then [LF] + Tabs(tabs) else []) + [c, LF] + Tabs(tabs + 1));
        tabs := tabs + 1;
      } else {
        Append([c]);
      }
    }

    /** Closes what `Open` opened, on a line of its own when formatted. */
    method Close(c: Char16)
      requires w.config.isFormatted ==> tabs > 0
      modifies this
      ensures tabs == old(tabs) - (if w.config.isFormatted then 1 else 0)
      ensures !w.config.isFormatted ==> out == old(out) + [c]
      ensures old(out) <= out && out != []
    {
      if w.config.isFormatted {
        tabs := tabs - 1;
        Append([LF] + Tabs(tabs) + [c]);
      } else {
        Append([c]);
      }
    }

    /** The separator written before every element or entry but the first. */
    method Comma()
      modifies this
      ensures tabs == old(tabs) && old(out) <= out
      ensures !w.config.isFormatted ==> out == old(out) + [COMMA]
    {
      Append(if w.config.isFormatted then [COMMA, LF] + Tabs(tabs) else [COMMA]);
    }

    /** The `IList` branch of `ParseCollectionTypes`; other enumerables write nothing. */
    method WriteList(v: Value)
      requires v.Items?
      modifies this
      ensures tabs == old(tabs) && old(out) <= out
      ensures !w.config.isFormatted ==> out == old(out) + Json(w, v, old(out) == [])
      decreases v, 3
    {
      if !(v.t.TArray? || v.t.TList?) {
        return;
      }
      Open(LBRACKET, true);
      ghost var start := out;
      var i := 0;
      while i < |v.elems|
        invariant i <= |v.elems| && out != [] && old(out) <= start <= out
        invariant tabs == old(tabs) + (if w.config.isFormatted then 1 else 0)
        invariant !w.config.isFormatted ==> out + ItemsJson(w, v, i) == start + ItemsJson(w, v, 0)
      {
        WriteItem(v, i);
        i := i + 1;
      }
      Close(RBRACKET);
      Regroup4(old(out), [LBRACKET], ItemsJson(w, v, 0), [RBRACKET]);
    }

    /** One element of a list, after a comma unless it is the first. */
    method WriteItem(v: Value, i: nat)
      requires v.Items? && i < |v.elems| && out != []
      modifies this
      ensures tabs == old(tabs) && old(out) <= out && out != []
      ensures !w.config.isFormatted ==> out + ItemsJson(w, v, i + 1) == old(out) + ItemsJson(w, v, i)
      decreases v, 1
    {
      if i > 0 {
        Comma();
      }
      WriteValue(v.elems[i]);
      if !w.config.isFormatted {
        ItemWritten(w, v, i, old(out), out);
      }
    }

    /**
      The `Dictionary<,>` branch of `ParseCollectionTypes`: `{}` for keys that are not strings,
      otherwise the entries between braces.
     */
    method WriteDictionary(v: Value)
      requires v.Entries?
      modifies this
      ensures tabs == old(tabs) && old(out) <= out
      ensures !w.config.isFormatted ==> out == old(out) + Json(w, v, old(out) == [])
      decreases v, 3
    {
      if !v.t.TDict? {
        return;
      }
      if v.t.key != TString {
        Append([LBRACE, RBRACE]);
        return;
      }
      Open(LBRACE, out != []);
      WriteEntries(v);
      Close(RBRACE);
      Regroup4(old(out), [LBRACE], EntriesJson(w, v, 0), [RBRACE]);
    }

    /** `ParseExpandoObject`. */
    method WriteExpando(v: Value)
      requires v.Expando?
      modifies this
      ensures tabs == old(tabs) && old(out) <= out
      ensures !w.config.isFormatted ==> out == old(out) + Json(w, v, old(out) == [])
      decreases v, 3
    {
      Open(LBRACE, out != [] && out[|out| - 1] != TAB);
      WriteEntries(v);
      Close(RBRACE);
      Regroup4(old(out), [LBRACE], EntriesJson(w, v, 0), [RBRACE]);
    }

    /** The key loop shared by dictionaries and expandos. */
    method WriteEntries(v: Value)
      requires (v.Entries? || v.Expando?) && out != []
      modifies this
      ensures tabs == old(tabs) && old(out) <= out && out != []
      ensures !w.config.isFormatted ==> out == old(out) + EntriesJson(w, v, 0)
      decreases v, 2
    {
      var i := 0;
      while i < |v.entries|
        invariant i <= |v.entries| && out != []
        invariant tabs == old(tabs) && old(out) <= out
        invariant !w.config.isFormatted ==> out + EntriesJson(w, v, i) == old(out) + EntriesJson(w, v, 0)
      {
        WriteEntry(v, i);
        i := i + 1;
      }
    }

    /** One entry: a comma unless it is the first, the raw key, the separator, the value. */
    method WriteEntry(v: Value, i: nat)
      requires (v.Entries? || v.Expando?) && i < |v.entries| && out != []
      modifies this
      ensures tabs == old(tabs) && old(out) <= out && out != []
      ensures !w.config.isFormatted ==> out + EntriesJson(w, v, i + 1) == old(out) + EntriesJson(w, v, i)
      decreases v, 1
    {
      if i > 0 {
        Comma();
      }
      WriteKeyed(v.entries[i].0, v.entries[i].1);
      if !w.config.isFormatted {
        EntryWritten(w, v, i, old(out), out);
      }
    }

    /** A raw key, the separator and a value written after it. */
    method WriteKeyed(key: Str, value: Value)
      requires out != []
      modifies this
      ensures tabs == old(tabs) && old(out) <= out && out != []
      ensures !w.config.isFormatted ==> out == old(out) + KeyText(key, false) + Json(w, value, false)
      decreases value, 5
    {
      Append(KeyText(key, w.config.isFormatted));
      WriteValue(value);
    }

    /**
      `ParseCustomObjectTypes`: the type's notes and its registered parser's notes, then the
      object's body.
     */
    method WriteCustomObject(v: Value)
      requires v.Record?
      modifies this
      ensures tabs == old(tabs) && old(out) <= out
      ensures !w.config.isFormatted ==> out == old(out) + Json(w, v, old(out) == [])
      decreases v, 3
    {
      var base := out == [];
      var custom := CustomText(w, v.t, v, None);
      var own := RecordOf(w.schema, v.t).comments;
      WriteTwoNoteRuns(own, custom.0, 0);
      ghost var mid := out;
      WriteObjectBody(v, custom.1, base, |own + custom.0|);
      Regroup(old(out), NotesText(w.config.commentMode, false, own + custom.0, 0, 0),
        ObjectBodyJson(w, v, custom.1, base, |own + custom.0|));
    }

    /**
      The parser's string, between braces only when nothing had been written before the object,
      or else the members between braces.
     */
    method WriteObjectBody(v: Value, custom: Option<Str>, base: bool, n: nat)
      requires v.Record?
      modifies this
      ensures tabs == old(tabs) && old(out) <= out
      ensures !w.config.isFormatted ==> out == old(out) + ObjectBodyJson(w, v, custom, base, n)
      decreases v, 2
    {
      var braces := base || custom.None?;
      if braces {
        Open(LBRACE, out != [] && out[|out| - 1] != TAB);
      }
      ghost var mid := out;
      match custom {
        case Some(s) =>
          WriteString(s);
        case None =>
          WriteMembers(v, WrittenMembers(w, v.t), n);
      }
      if braces {
        Close(RBRACE);
        ghost var inner := match custom
          case Some(s) => Quote(Escape(s))
          case None => MembersJson(w, v, WrittenMembers(w, v.t), true, n);
        Regroup4(old(out), [LBRACE], inner, [RBRACE]);
      }
    }

    /** The member loop of `ParseCustomObjectTypes`, with `isFirst` and `commentNumber`. */
    method WriteMembers(v: Value, ms: seq<WrittenMember>, n0: nat)
      requires v.Record? && out != []
      modifies this
      ensures tabs == old(tabs) && old(out) <= out && out != []
      ensures !w.config.isFormatted ==> out == old(out) + MembersJson(w, v, ms, true, n0)
      decreases v, 1
    {
      var i := 0;
      var first := true;
      var n := n0;
      assert ms[0..] == ms;
      while i < |ms|
        invariant i <= |ms| && out != []
        invariant tabs == old(tabs) && old(out) <= out
        invariant !w.config.isFormatted ==> out + MembersJson(w, v, ms[i..], first, n) == old(out) + MembersJson(w, v, ms, true, n0)
      {
        ghost var before := out;
        ghost var first0, n1 := first, n;
        first, n := WriteMember(v, ms[i], first, n);
        if !w.config.isFormatted {
          MembersLoopStep(w, v, ms, i, first0, n1, before, out);
        }
        i := i + 1;
      }
      assert ms[i..] == [];
    }

    /** One pass of the member loop: a member holding null is skipped. */
    method WriteMember(v: Value, m: WrittenMember, first: bool, n: nat) returns (first': bool, n': nat)
      requires v.Record? && out != []
      modifies this
      ensures tabs == old(tabs) && old(out) <= out && out != []
      ensures !w.config.isFormatted ==> out == old(out) + MemberPiece(w, v, m, first, n)
      ensures (first', n') == AfterMember(w, v, m, first, n)
      decreases v, 0
    {
      var k := SlotOf(v.slots, m.name);
      if k < 0 || v.slots[k].1.Null? {
        MemberSkipped(w, v, m, first, n);
        assert out + [] == out;
        return first, n;
      }
      WritePresentMember(m, v.slots[k].1, first, n);
      MemberPresent(w, v, m, k, first, n);
      if !w.config.isFormatted {
        PieceWritten(w, v, m, k, first, n, old(out), out);
      }
      first', n' := false, n + NoteCount(w, m, v.slots[k].1);
    }

    /** A member holding a value: a comma unless it is the first written, then the member. */
    method WritePresentMember(m: WrittenMember, value: Value, first: bool, n: nat)
      requires out != []
      modifies this
      ensures tabs == old(tabs) && old(out) <= out && out != []
      ensures !w.config.isFormatted ==> out == old(out) + (if first then [] else [COMMA]) + MemberJson(w, m, value, n)
      decreases value, 7
    {
      ghost var sep: Str := if first then [] else [COMMA];
      if !first {
        Comma();
      }
      assert !w.config.isFormatted ==> out == old(out) + sep;
      WriteMemberText(m, value, n);
    }

    /** A written member: its notes, its parser's notes, its key and its value. */
    method WriteMemberText(m: WrittenMember, value: Value, n: nat)
      requires out != []
      modifies this
      ensures tabs == old(tabs) && old(out) <= out && out != []
      ensures !w.config.isFormatted ==> out == old(out) + MemberJson(w, m, value, n)
      decreases value, 6
    {
      var custom := CustomText(w, m.memberType, value, Some(m));
      WriteTwoNoteRuns(m.comments, custom.0, n);
      Append(KeyText(JsonName(m), w.config.isFormatted));
      WriteMemberBody(m, value, custom.1);
      Regroup4(old(out), NotesText(w.config.commentMode, false, m.comments + custom.0, n, 0),
        KeyText(JsonName(m), false), MemberBody(w, m, value, custom.1));
    }

    /**
      A member's value: its type parser's string, its own ObjectToString method's string, the
      enum's name, the encrypted text, or the value itself.
     */
    method WriteMemberBody(m: WrittenMember, value: Value, custom: Option<Str>)
      requires out != []
      modifies this
      ensures tabs == old(tabs) && old(out) <= out && out != []
      ensures !w.config.isFormatted ==> out == old(out) + MemberBody(w, m, value, custom)
      decreases value, 5
    {
      match custom
      case Some(s) => WriteString(s);
      case None =>
        var stored := if m.encrypted then Text(w.host.encrypt(Display(w.host, value), m)) else value;
        if m.parser.Some? && WriterUsesParser(m.parser.value) {
          WriteString(w.host.memberToJson(m.parser.value.objectToStringMethod.value, stored, m));
        } else if m.memberType.TEnum? && m.enumAsString {
          WriteString(Display(w.host, stored));
        } else if m.encrypted {
          WriteString(stored.s);
        } else {
          WriteValue(value);
        }
    }
  }

  /** One step of the note loop. */
  lemma {:induction false} NotesStep(mode: CommentMode, formatted: bool, notes: seq<Str>, i: nat, n: nat, tabs: nat)
    requires i < |notes|
    ensures NotesText(mode, formatted, notes[i..], n + i, tabs)
      == NoteText(mode, formatted, notes[i], n + i, tabs) + NotesText(mode, formatted, notes[i + 1..], n + i + 1, tabs)
  {
    assert notes[i..][1..] == notes[i + 1..];
  }

  /** One element more: the text before the loop's remainder is the text before the element's. */
  lemma {:induction false} ItemWritten(w: WriterContext, v: Value, i: nat, before: Str, after: Str)
    requires v.Items? && i < |v.elems|
    requires after == before + (if i == 0 then [] else [COMMA]) + Json(w, v.elems[i], false)
    ensures after + ItemsJson(w, v, i + 1) == before + ItemsJson(w, v, i)
  {
    Regroup4(before, if i == 0 then [] else [COMMA], Json(w, v.elems[i], false), ItemsJson(w, v, i + 1));
  }

  /** One entry more, as for list elements. */
  lemma {:induction false} EntryWritten(w: WriterContext, v: Value, i: nat, before: Str, after: Str)
    requires (v.Entries? || v.Expando?) && i < |v.entries|
    requires after == before + (if i == 0 then [] else [COMMA]) + KeyText(v.entries[i].0, false) + Json(w, v.entries[i].1, false)
    ensures after + EntriesJson(w, v, i + 1) == before + EntriesJson(w, v, i)
  {
    var c := if i == 0 then [] else [COMMA];
    Regroup(before + c, KeyText(v.entries[i].0, false), Json(w, v.entries[i].1, false));
    Regroup4(before, c, EntryJson(w, v.entries[i]), EntriesJson(w, v, i + 1));
  }

  /** One member more, as for list elements. */
  lemma {:induction false} MembersLoopStep(w: WriterContext, v: Value, ms: seq<WrittenMember>, i: nat, first: bool, n: nat,
                        before: Str, after: Str)
    requires v.Record? && i < |ms| && after == before + MemberPiece(w, v, ms[i], first, n)
    ensures after + MembersJson(w, v, ms[i + 1..], AfterMember(w, v, ms[i], first, n).0, AfterMember(w, v, ms[i], first, n).1)
      == before + MembersJson(w, v, ms[i..], first, n)
  {
    var next := AfterMember(w, v, ms[i], first, n);
    assert ms[i..] == [ms[i]] + ms[i + 1..];
    MembersStep(w, v, ms[i], ms[i + 1..], first, n);
    Regroup(before, MemberPiece(w, v, ms[i], first, n), MembersJson(w, v, ms[i + 1..], next.0, next.1));
  }

  /** A member whose slot is missing or null adds nothing and changes neither flag nor count. */
  lemma {:induction false} MemberSkipped(w: WriterContext, v: Value, m: WrittenMember, first: bool, n: nat)
    requires v.Record?
    requires var k := SlotOf(v.slots, m.name); k < 0 || v.slots[k].1.Null?
    ensures MemberPiece(w, v, m, first, n) == [] && AfterMember(w, v, m, first, n) == (first, n)
  {
    MemberValueAt(v.slots, m);
  }

  /** A member whose slot holds a value is written, and the notes it writes are counted. */
  lemma {:induction false} MemberPresent(w: WriterContext, v: Value, m: WrittenMember, k: int, first: bool, n: nat)
    requires v.Record? && k == SlotOf(v.slots, m.name) && 0 <= k && !v.slots[k].1.Null?
    ensures AfterMember(w, v, m, first, n) == (false, n + NoteCount(w, m, v.slots[k].1))
  {
    MemberValueAt(v.slots, m);
  }

  /** What `WritePresentMember` appends is the member's piece of the loop. */
  lemma {:induction false} PieceWritten(w: WriterContext, v: Value, m: WrittenMember, k: int, first: bool, n: nat, before: Str, after: Str)
    requires v.Record? && k == SlotOf(v.slots, m.name) && 0 <= k && !v.slots[k].1.Null?
    requires after == before + (if first then [] else [COMMA]) + MemberJson(w, m, v.slots[k].1, n)
    ensures after == before + MemberPiece(w, v, m, first, n)
  {
    Regroup(before, if first then [] else [COMMA], MemberJson(w, m, v.slots[k].1, n));
  }

  /** `G9ObjectToJson`: a fresh writer at depth 0 writes the value, and its text is the result. */
  method ObjectToJson(w: WriterContext, v: Value) returns (json: Str)
    ensures !w.config.isFormatted ==> json == Json(w, v, true)
  {
    var writer := new JsonWriter(w);
    writer.WriteValue(v);
    json := writer.out;
  }
}

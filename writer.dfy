/**
  The Core writer's text (`Core/G9JSONWriter.cs`): what `G9ObjectToJson` appends for a value when
  the output is not formatted, the comment entries in both layouts, and the member order. The
  class `JsonWriter` in `ObjectWriter` appends the same text step by step.
 */
module Writer {
  import opened Wrappers
  import opened Text
  import opened Values
  import opened Escaping
  import opened MemberParserAttribute

  /** `uint.MaxValue / 2`: the order key of a member without an order attribute. */
  const DefaultOrderNumber: nat := 2147483647

  // ---------------------------------------------------------------------------------------------
  // Context

  /** A member attribute built by one of its constructors holds the methods its kind promises. */
  predicate Built(m: MemberDesc) {
    m.parser.Some? ==> WellFormed(m.parser.value)
  }

  /** A member the writer may write: its attributes were built by their constructors. */
  type WrittenMember = m: MemberDesc | Built(m)
    witness MemberDesc([], None, None, false, true, true, true, TObject, [], false, None, false, LegacyTags(false, None, false, [], false, None))

  /** Member attributes only come from their constructors. */
  predicate AttributesBuilt(schema: Schema) {
    forall name | name in schema ::
      (forall m | m in schema[name].fields :: Built(m)) && (forall m | m in schema[name].properties :: Built(m))
  }

  /**
    What the writer works with: its configuration, the user types, the lookup keys of the
    registered custom type parsers (`None` while the collection is null) and the host.
   */
  datatype Writing = Writing(config: WriterConfig, schema: Schema, parsers: Option<set<TypeDesc>>, host: Host)

  type WriterContext = w: Writing | AttributesBuilt(w.schema)
    witness Writing(WriterConfig(DefaultAccessibility, false, StandardMode), map[], None, InertHost)

  /** `CustomParserCollection != null && CustomParserCollection.ContainsKey(key of t)`. */
  predicate HasTypeParser(w: Writing, t: TypeDesc) {
    w.parsers.Some? && LookupKey(t) in w.parsers.value
  }

  /** What a registered parser's `Item2` hands back: the notes it writes and its string, if any. */
  function CustomText(w: Writing, t: TypeDesc, v: Value, m: Option<MemberDesc>): (seq<Str>, Option<Str>) {
    if HasTypeParser(w, t) then w.host.registryToJson(t, v, m) else ([], None)
  }

  // ---------------------------------------------------------------------------------------------
  // Member order

  /** `MemberOrderHandler`: the order attribute's number, else the default. */
  function OrderKey(m: MemberDesc): nat {
    match m.order
    case Some(k) => k
    case None => DefaultOrderNumber
  }

  /** Puts `m` before the first member whose key is not smaller. */
  function InsertByOrder(m: MemberDesc, s: seq<MemberDesc>): seq<MemberDesc> {
    if s == [] || OrderKey(m) <= OrderKey(s[0]) then [m] + s
    else [s[0]] + InsertByOrder(m, s[1..])
  }

  /** `OrderBy(MemberOrderHandler)`: the members rearranged by order key. */
  function Ordered(ms: seq<MemberDesc>): seq<MemberDesc> {
    if ms == [] then []
    else InsertByOrder(ms[0], Ordered(ms[1..]))
  }

  predicate SortedByOrder(s: seq<MemberDesc>) {
    forall i, j :: 0 <= i < j < |s| ==> OrderKey(s[i]) <= OrderKey(s[j])
  }

  /** The members that carry order key `k`, in the order given. */
  function WithKey(s: seq<MemberDesc>, k: nat): (r: seq<MemberDesc>)
    ensures |r| <= |s|
  {
    if s == [] then []
    else (if OrderKey(s[0]) == k then [s[0]] else []) + WithKey(s[1..], k)
  }

  /** The readable properties reflection hands the writer: accessible, `CanRead`, not ignored. */
  function ReadableProperties(a: Accessibility, ms: seq<MemberDesc>): (r: seq<MemberDesc>)
    ensures forall k :: 0 <= k < |r| ==> r[k] in ms && Accessible(a, r[k]) && r[k].canRead && !r[k].ignored
  {
    if ms == [] then []
    else (if Accessible(a, ms[0]) && ms[0].canRead && !ms[0].ignored then [ms[0]] else []) + ReadableProperties(a, ms[1..])
  }

  /** Fields, then readable properties, as reflection lists them for the writer. */
  function ListedMembers(w: WriterContext, t: TypeDesc): (r: seq<MemberDesc>)
    ensures forall k :: 0 <= k < |r| ==> Built(r[k])
  {
    var rd := RecordOf(w.schema, t);
    var fs := ListedFields(w.config.accessible, rd.fields);
    var ps := ReadableProperties(w.config.accessible, rd.properties);
    assert forall k :: 0 <= k < |fs| ==> Built(fs[k]) by {
      if t.TRecord? && t.name in w.schema {
        assert forall k :: 0 <= k < |fs| ==> fs[k] in w.schema[t.name].fields;
      }
    }
    assert forall k :: 0 <= k < |ps| ==> Built(ps[k]) by {
      if t.TRecord? && t.name in w.schema {
        assert forall k :: 0 <= k < |ps| ==> ps[k] in w.schema[t.name].properties;
      }
    }
    fs + ps
  }

  /** The members `ParseCustomObjectTypes` writes: the listed members, sorted by order key. */
  function WrittenMembers(w: WriterContext, t: TypeDesc): (r: seq<WrittenMember>)
    ensures SortedByOrder(r)
  {
    var listed := ListedMembers(w, t);
    OrderedIsSorted(listed);
    OrderedBuilt(listed);
    Ordered(listed)
  }

  // ---------------------------------------------------------------------------------------------
  // Pieces of text

  function Quote(s: Str): Str {
    [QUOTE] + s + [QUOTE]
  }

  function Tabs(n: nat): (r: Str)
    ensures |r| == n && forall i :: 0 <= i < n ==> r[i] == TAB
  {
    seq(n, _ => TAB)
  }

  /** `_separator`: what closes a key. */
  function Separator(formatted: bool): Str {
    if formatted then Lit("\": ") else Lit("\":")
  }

  /** A key as the writer writes it: opening quote, the name as it stands, `_separator`. */
  function KeyText(name: Str, formatted: bool): Str {
    [QUOTE] + name + Separator(formatted)
  }

  /** `WriteJsonNoteComment`: the comment for `note`, numbered `n`, at depth `tabs`. */
  function NoteText(mode: CommentMode, formatted: bool, note: Str, n: nat, tabs: nat): Str {
    match mode
    case NonstandardMode =>
      Lit("/* ") + note + Lit(" */") + (if formatted then [LF] + Tabs(tabs) else [])
    case StandardMode =>
      var key := [QUOTE] + NoteMarker + DecimalString(n) + Lit("__#");
      if formatted then key + Separator(true) + Quote(Escape(note)) + [COMMA, LF] + Tabs(tabs)
      else key + Separator(false) + Quote(note) + [COMMA]
  }

  /** The notes, numbered on from `n`. */
  function NotesText(mode: CommentMode, formatted: bool, notes: seq<Str>, n: nat, tabs: nat): Str {
    if notes == [] then [] else NoteText(mode, formatted, notes[0], n, tabs) + NotesText(mode, formatted, notes[1..], n + 1, tabs)
  }

  // ---------------------------------------------------------------------------------------------
  // The unformatted text of a value

  /** `m.GetValue()`: the member's value in the instance; a member never set holds null. */
  function MemberValue(slots: Table, m: MemberDesc): Value {
    match Lookup(slots, m.name)
    case Some(x) => x
    case None => Null
  }

  /** Where the first slot named `key` sits, or -1. */
  function SlotOf(slots: Table, key: Str): (k: int)
    ensures -1 <= k < |slots|
    ensures k >= 0 ==> slots[k].0 == key && Lookup(slots, key) == Some(slots[k].1)
    ensures k < 0 ==> Lookup(slots, key).None?
  {
    if slots == [] then -1
    else if slots[0].0 == key then 0
    else
      var j := SlotOf(slots[1..], key);
      if j < 0 then -1 else j + 1
  }

  /**
    `ParseObjectMembersToJson`. `base` says whether nothing has been written before, which
    decides whether a custom object's parser text is wrapped in braces.
   */
  function Json(w: WriterContext, v: Value, base: bool): Str
    decreases v, 3
  {
    match v
    case Null => Lit("null")
    case Expando(_) => [LBRACE] + EntriesJson(w, v, 0) + [RBRACE]
    case Text(s) => Quote(Escape(s))
    case Character(c) => Quote(Escape([c]))
    case Boolean(_) => w.host.toText(v)
    case Integral(_, _) => w.host.toText(v)
    case Floating(_, _) => w.host.toText(v)
    case EnumValue(_, _, n) => DecimalString(n)
    case Other(_, _) => Quote(w.host.toText(v))
    case Items(t, _) => if t.TArray? || t.TList? then [LBRACKET] + ItemsJson(w, v, 0) + [RBRACKET] else []
    case Entries(t, _) =>
      if !t.TDict? then []
      else if t.key != TString then [LBRACE, RBRACE]
      else [LBRACE] + EntriesJson(w, v, 0) + [RBRACE]
    case Dynamic(_) => []
    case Record(_, _) => ObjectJson(w, v, base)
  }

  /** The elements of a list from `i` on, a comma before each but the first. */
  function ItemsJson(w: WriterContext, v: Value, i: nat): Str
    requires v.Items? && i <= |v.elems|
    decreases v, 2, |v.elems| - i
  {
    if i == |v.elems| then []
    else (if i == 0 then [] else [COMMA]) + Json(w, v.elems[i], false) + ItemsJson(w, v, i + 1)
  }

  /** The entries of a dictionary or an expando from `i` on: raw key, separator, value. */
  function EntriesJson(w: WriterContext, v: Value, i: nat): Str
    requires (v.Entries? || v.Expando?) && i <= |v.entries|
    decreases v, 2, |v.entries| - i
  {
    if i == |v.entries| then []
    else (if i == 0 then [] else [COMMA]) + EntryJson(w, v.entries[i]) + EntriesJson(w, v, i + 1)
  }

  function EntryJson(w: WriterContext, e: (Str, Value)): Str
    decreases e, 0
  {
    KeyText(e.0, false) + Json(w, e.1, false)
  }

  /**
    `ParseCustomObjectTypes`: the notes of the type and of its registered parser, numbered from
    0, then the parser's string, or the members between braces.
   */
  function ObjectJson(w: WriterContext, v: Value, base: bool): Str
    requires v.Record?
    decreases v, 2, 1
  {
    var custom := CustomText(w, v.t, v, None);
    var notes := RecordOf(w.schema, v.t).comments + custom.0;
    NotesText(w.config.commentMode, false, notes, 0, 0) + ObjectBodyJson(w, v, custom.1, base, |notes|)
  }

  /**
    What follows an object's notes: the parser's string, between braces only at the top, or the
    members between braces, their notes numbered on from `n`.
   */
  function ObjectBodyJson(w: WriterContext, v: Value, custom: Option<Str>, base: bool, n: nat): Str
    requires v.Record?
    decreases v, 2, 0
  {
    match custom
    case Some(s) => if base then [LBRACE] + Quote(Escape(s)) + [RBRACE] else Quote(Escape(s))
    case None => [LBRACE] + MembersJson(w, v, WrittenMembers(w, v.t), true, n) + [RBRACE]
  }

  /**
    The member loop from the `i`th member on: members holding null are skipped, a comma goes
    before every written member but the first, and `n` counts the notes written so far.
   */
  function MembersJson(w: WriterContext, v: Value, ms: seq<WrittenMember>, first: bool, n: nat): Str
    requires v.Record?
    decreases v, 1, |ms|
  {
    if ms == [] then []
    else
      var next := AfterMember(w, v, ms[0], first, n);
      MemberPiece(w, v, ms[0], first, n) + MembersJson(w, v, ms[1..], next.0, next.1)
  }

  /** What one member adds to the loop: nothing when it holds null, else its comma and its text. */
  function MemberPiece(w: WriterContext, v: Value, m: WrittenMember, first: bool, n: nat): Str
    requires v.Record?
    decreases v, 0
  {
    var k := SlotOf(v.slots, m.name);
    if k < 0 || v.slots[k].1.Null? then []
    else (if first then [] else [COMMA]) + MemberJson(w, m, v.slots[k].1, n)
  }

  /** `isFirst` and `commentNumber` once a member has been seen. */
  function AfterMember(w: Writing, v: Value, m: MemberDesc, first: bool, n: nat): (bool, nat)
    requires v.Record?
  {
    var value := MemberValue(v.slots, m);
    if value == Null then (first, n) else (false, n + NoteCount(w, m, value))
  }

  /** How many notes a member writes: its own, then its type parser's. */
  function NoteCount(w: Writing, m: MemberDesc, value: Value): nat {
    |m.comments| + |CustomText(w, m.memberType, value, Some(m)).0|
  }

  /** One written member: its notes numbered from `n`, its key, its value. */
  function MemberJson(w: WriterContext, m: WrittenMember, value: Value, n: nat): Str
    decreases value, 5
  {
    var custom := CustomText(w, m.memberType, value, Some(m));
    NotesText(w.config.commentMode, false, m.comments + custom.0, n, 0)
    + KeyText(JsonName(m), false) + MemberBody(w, m, value, custom.1)
  }

  /**
    A member's value text, from the first source that applies: its type parser's string, its own
    ObjectToString method, the enum's name, the encrypted text, or the value itself. The member's
    method, the enum name and the encryption all see the value after encryption.
   */
  function MemberBody(w: WriterContext, m: WrittenMember, value: Value, custom: Option<Str>): Str
    decreases value, 4
  {
    match custom
    case Some(s) => Quote(Escape(s))
    case None =>
      var stored := if m.encrypted then Text(w.host.encrypt(Display(w.host, value), m)) else value;
      if m.parser.Some? && WriterUsesParser(m.parser.value) then
        Quote(Escape(w.host.memberToJson(m.parser.value.objectToStringMethod.value, stored, m)))
      else if m.memberType.TEnum? && m.enumAsString then Quote(Escape(Display(w.host, stored)))
      else if m.encrypted then Quote(Escape(stored.s))
      else Json(w, value, false)
  }

  // ---------------------------------------------------------------------------------------------
  // Properties of the member order

  lemma {:induction false} InsertBuilt(m: MemberDesc, s: seq<MemberDesc>)
    requires Built(m) && forall k :: 0 <= k < |s| ==> Built(s[k])
    ensures forall k :: 0 <= k < |InsertByOrder(m, s)| ==> Built(InsertByOrder(m, s)[k])
  {
    if s != [] && OrderKey(m) > OrderKey(s[0]) {
      InsertBuilt(m, s[1..]);
    }
  }

  lemma {:induction false} OrderedBuilt(ms: seq<MemberDesc>)
    requires forall k :: 0 <= k < |ms| ==> Built(ms[k])
    ensures forall k :: 0 <= k < |Ordered(ms)| ==> Built(Ordered(ms)[k])
  {
    if ms != [] {
      OrderedBuilt(ms[1..]);
      InsertBuilt(ms[0], Ordered(ms[1..]));
    }
  }

  /** Inserting adds the member and loses none. */
  lemma {:induction false} InsertPermutes(m: MemberDesc, s: seq<MemberDesc>)
    ensures multiset(InsertByOrder(m, s)) == multiset(s) + multiset{m}
  {
    if s != [] && OrderKey(m) > OrderKey(s[0]) {
      InsertPermutes(m, s[1..]);
      assert s == [s[0]] + s[1..];
    }
  }

  /** Sorting by order key rearranges the members and loses none. */
  lemma {:induction false} OrderedPermutes(ms: seq<MemberDesc>)
    ensures multiset(Ordered(ms)) == multiset(ms)
  {
    if ms != [] {
      OrderedPermutes(ms[1..]);
      InsertPermutes(ms[0], Ordered(ms[1..]));
      assert ms == [ms[0]] + ms[1..];
    }
  }

  lemma {:induction false} InsertKeepsSorted(m: MemberDesc, s: seq<MemberDesc>)
    requires SortedByOrder(s)
    ensures SortedByOrder(InsertByOrder(m, s))
  {
    if s != [] && OrderKey(m) > OrderKey(s[0]) {
      InsertKeepsSorted(m, s[1..]);
      InsertBounded(m, s[1..], OrderKey(s[0]));
    }
  }

  /** Inserting a member whose key is at least `b` into members whose keys are at least `b`. */
  lemma {:induction false} InsertBounded(m: MemberDesc, s: seq<MemberDesc>, b: nat)
    requires b <= OrderKey(m) && forall j :: 0 <= j < |s| ==> b <= OrderKey(s[j])
    ensures forall j :: 0 <= j < |InsertByOrder(m, s)| ==> b <= OrderKey(InsertByOrder(m, s)[j])
  {
    if s != [] && OrderKey(m) > OrderKey(s[0]) {
      InsertBounded(m, s[1..], b);
    }
  }

  /** The written members are sorted by order key. */
  lemma {:induction false} OrderedIsSorted(ms: seq<MemberDesc>)
    ensures SortedByOrder(Ordered(ms))
  {
    if ms != [] {
      OrderedIsSorted(ms[1..]);
      InsertKeepsSorted(ms[0], Ordered(ms[1..]));
    }
  }

  lemma {:induction false} InsertWithKey(m: MemberDesc, s: seq<MemberDesc>, k: nat)
    ensures WithKey(InsertByOrder(m, s), k) == (if OrderKey(m) == k then [m] else []) + WithKey(s, k)
  {
    if s == [] || OrderKey(m) <= OrderKey(s[0]) {
      assert ([m] + s)[1..] == s;
    } else {
      InsertWithKey(m, s[1..], k);
      assert ([s[0]] + InsertByOrder(m, s[1..]))[1..] == InsertByOrder(m, s[1..]);
    }
  }

  /**
    The sort is stable: the members sharing an order key keep the order they were listed in.
    With `OrderedIsSorted` and the permutation in `Ordered`'s contract, this fixes the order
    completely.
   */
  lemma {:induction false} OrderedIsStable(ms: seq<MemberDesc>, k: nat)
    ensures WithKey(Ordered(ms), k) == WithKey(ms, k)
  {
    if ms != [] {
      OrderedIsStable(ms[1..], k);
      InsertWithKey(ms[0], Ordered(ms[1..]), k);
    }
  }

  // ---------------------------------------------------------------------------------------------
  // Separators, skipped members and note numbers

  /** The text of each element of a list. */
  function ItemTexts(w: WriterContext, es: seq<Value>): (r: seq<Str>)
    ensures |r| == |es|
  {
    if es == [] then [] else [Json(w, es[0], false)] + ItemTexts(w, es[1..])
  }

  /** An unformatted list is its elements' texts joined by commas, between brackets. */
  lemma {:induction false} ItemsJoined(w: WriterContext, v: Value)
    requires v.Items?
    ensures ItemsJson(w, v, 0) == Join(ItemTexts(w, v.elems), [COMMA])
  {
    if v.elems != [] {
      ItemsAfterFirst(w, v, 1);
      JoinFirst(ItemTexts(w, v.elems), [COMMA]);
    }
  }

  lemma {:induction false} ItemsAfterFirst(w: WriterContext, v: Value, i: nat)
    requires v.Items? && 0 < i <= |v.elems|
    ensures ItemsJson(w, v, i) == PrefixEach(ItemTexts(w, v.elems[i..]), [COMMA])
    decreases |v.elems| - i
  {
    if i < |v.elems| {
      ItemsAfterFirst(w, v, i + 1);
      assert v.elems[i..][1..] == v.elems[i + 1..];
    }
  }

  /** The text of each entry of a dictionary: raw key, separator, value. */
  function EntryTexts(w: WriterContext, es: Table): (r: seq<Str>)
    ensures |r| == |es|
  {
    if es == [] then [] else [EntryJson(w, es[0])] + EntryTexts(w, es[1..])
  }

  /** An unformatted dictionary is its entries' texts joined by commas. */
  lemma {:induction false} EntriesJoined(w: WriterContext, v: Value)
    requires v.Entries? || v.Expando?
    ensures EntriesJson(w, v, 0) == Join(EntryTexts(w, v.entries), [COMMA])
  {
    if v.entries != [] {
      assert EntriesJson(w, v, 0) == EntryJson(w, v.entries[0]) + EntriesJson(w, v, 1);
      EntriesAfterFirst(w, v, 1);
      EntryTextsTail(w, v.entries);
      JoinFirst(EntryTexts(w, v.entries), [COMMA]);
    }
  }

  lemma {:induction false} EntryTextsTail(w: WriterContext, es: Table)
    requires es != []
    ensures EntryTexts(w, es)[0] == EntryJson(w, es[0])
    ensures EntryTexts(w, es)[1..] == EntryTexts(w, es[1..])
  {
    assert ([EntryJson(w, es[0])] + EntryTexts(w, es[1..]))[1..] == EntryTexts(w, es[1..]);
  }

  lemma {:induction false} EntriesAfterFirst(w: WriterContext, v: Value, i: nat)
    requires (v.Entries? || v.Expando?) && 0 < i <= |v.entries|
    ensures EntriesJson(w, v, i) == PrefixEach(EntryTexts(w, v.entries[i..]), [COMMA])
    decreases |v.entries| - i
  {
    if i < |v.entries| {
      EntriesAfterFirst(w, v, i + 1);
      assert v.entries[i..][1..] == v.entries[i + 1..];
    }
  }

  /**
    An object's member text is empty exactly when every one of its members holds null, so an
    object with nothing to write comes out as `{}`.
   */
  lemma {:induction false} MembersEmptyIff(w: WriterContext, v: Value, ms: seq<WrittenMember>, first: bool, n: nat)
    requires v.Record?
    ensures MembersJson(w, v, ms, first, n) == [] <==> forall k :: 0 <= k < |ms| ==> MemberValue(v.slots, ms[k]) == Null
    decreases |ms|
  {
    if ms != [] {
      var m, rest := ms[0], ms[1..];
      PieceEmptyIff(w, v, m, first, n);
      if MemberValue(v.slots, m) == Null {
        MembersEmptyIff(w, v, rest, first, n);
        assert forall k :: 0 < k < |ms| ==> ms[k] == rest[k - 1];
      }
    }
  }

  /** A member adds nothing exactly when it holds null. */
  lemma {:induction false} PieceEmptyIff(w: WriterContext, v: Value, m: WrittenMember, first: bool, n: nat)
    requires v.Record?
    ensures MemberPiece(w, v, m, first, n) == [] <==> MemberValue(v.slots, m) == Null
  {
    MemberValueAt(v.slots, m);
    var k := SlotOf(v.slots, m.name);
    if k >= 0 && !v.slots[k].1.Null? {
      MemberJsonNonEmpty(w, m, v.slots[k].1, n);
    }
  }

  /** The member's value is the slot `SlotOf` finds. */
  lemma {:induction false} MemberValueAt(slots: Table, m: MemberDesc)
    ensures var k := SlotOf(slots, m.name); MemberValue(slots, m) == if k < 0 then Null else slots[k].1
  {
  }

  lemma {:induction false} MemberJsonNonEmpty(w: WriterContext, m: WrittenMember, value: Value, n: nat)
    ensures |MemberJson(w, m, value, n)| > 0
  {
  }

  /** One pass of the member loop, with the member's value read as `GetValue` reads it. */
  lemma {:induction false} MembersStep(w: WriterContext, v: Value, m: WrittenMember, rest: seq<WrittenMember>, first: bool, n: nat)
    requires v.Record?
    ensures MembersJson(w, v, [m] + rest, first, n)
      == MemberPiece(w, v, m, first, n) + MembersJson(w, v, rest, AfterMember(w, v, m, first, n).0, AfterMember(w, v, m, first, n).1)
  {
    assert ([m] + rest)[0] == m;
    assert ([m] + rest)[1..] == rest;
  }


  /** The `k`th note of a run numbered from `n` is numbered `n + k`. */
  lemma {:induction false} NotesNumbered(mode: CommentMode, formatted: bool, notes: seq<Str>, n: nat, tabs: nat)
    ensures NotesText(mode, formatted, notes, n, tabs) ==
      Concat(seq(|notes|, k requires 0 <= k < |notes| => NoteText(mode, formatted, notes[k], n + k, tabs)))
    decreases |notes|
  {
    if notes != [] {
      NotesNumbered(mode, formatted, notes[1..], n + 1, tabs);
      var all := seq(|notes|, k requires 0 <= k < |notes| => NoteText(mode, formatted, notes[k], n + k, tabs));
      var tail := seq(|notes| - 1, k requires 0 <= k < |notes| - 1 => NoteText(mode, formatted, notes[1..][k], n + 1 + k, tabs));
      assert all[1..] == tail;
    }
  }


  /** The notes of two lists written one after the other are numbered on without a gap. */
  lemma {:induction false} NotesAppend(mode: CommentMode, formatted: bool, a: seq<Str>, b: seq<Str>, n: nat, tabs: nat)
    ensures NotesText(mode, formatted, a + b, n, tabs) ==
      NotesText(mode, formatted, a, n, tabs) + NotesText(mode, formatted, b, n + |a|, tabs)
    decreases |a|
  {
    if a != [] {
      var x, r := a[0], a[1..];
      assert a == [x] + r;
      assert a + b == [x] + (r + b);
      NotesCons(mode, formatted, x, r + b, n, tabs);
      NotesCons(mode, formatted, x, r, n, tabs);
      NotesAppend(mode, formatted, r, b, n + 1, tabs);
      Regroup(NoteText(mode, formatted, x, n, tabs), NotesText(mode, formatted, r, n + 1, tabs),
        NotesText(mode, formatted, b, n + |a|, tabs));
    } else {
      assert a + b == b;
    }
  }

  lemma {:induction false} NotesCons(mode: CommentMode, formatted: bool, x: Str, rest: seq<Str>, n: nat, tabs: nat)
    ensures NotesText(mode, formatted, [x] + rest, n, tabs) == NoteText(mode, formatted, x, n, tabs) + NotesText(mode, formatted, rest, n + 1, tabs)
  {
    assert ([x] + rest)[0] == x;
    assert ([x] + rest)[1..] == rest;
  }

  /** Unformatted notes do not depend on the tab depth. */
  lemma {:induction false} NotesIgnoreTabs(mode: CommentMode, notes: seq<Str>, n: nat, tabs: nat)
    ensures NotesText(mode, false, notes, n, tabs) == NotesText(mode, false, notes, n, 0)
    decreases |notes|
  {
    if notes != [] {
      NotesIgnoreTabs(mode, notes[1..], n + 1, tabs);
    }
  }
}

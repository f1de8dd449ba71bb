/**
  The root-level reader `G9JsonParser` (G9JSONParser.cs), the older standalone version of the
  Core reader. `FromJson` drops the white space outside string literals and reads the rest as
  the requested type: strings are unescaped, primitives converted by `Convert.ChangeType`,
  arrays, lists and string-keyed dictionaries read piece by piece, `object` read untyped, and any
  other braced text read as an instance whose public fields and properties are looked up by name,
  ignoring case, in per-type member tables that the reader caches between calls.
 */
module LegacyReader {
  import opened Wrappers
  import opened Text
  import opened Values
  import opened JsonScanner
  import opened Escaping
  import Reader
  import ObjectReader
  import LegacyWriter
  import Writer

  type Fault = Reader.Fault

  /**
    The library calls the legacy reader makes: `Convert.ChangeType(json, type, InvariantCulture)`
    for primitives, `TryParse` for `decimal`, `DateTime` and `TimeSpan` (the type's default when
    it fails), `Enum.Parse(type, json, false)` (`None` when it throws), and `double.TryParse`.
   */
  datatype LegacyHost = LegacyHost(
    changeType: (Str, TypeDesc) -> Result<Value, Str>,
    tryParse: (Str, TypeDesc) -> Value,
    enumParse: (Str, TypeDesc) -> Option<Value>,
    parseDouble: Str -> Value)

  /** What the reader reads against: the library calls and the user types. */
  datatype LegacyContext = LegacyContext(host: LegacyHost, schema: Schema)

  const DecimalType: TypeDesc := TFloating(Lit("System.Decimal"))
  const DateTimeType: TypeDesc := TBuiltIn(Lit("System.DateTime"))
  const TimeSpanType: TypeDesc := TBuiltIn(Lit("System.TimeSpan"))

  /** `Type.IsPrimitive`: the integral types, `char`, `bool`, `float` and `double`, but not `decimal`. */
  predicate IsPrimitive(t: TypeDesc) {
    t.TChar? || t.TBool? || t.TIntegral? || (t.TFloating? && t != DecimalType)
  }

  /** `json.Replace("\"", "")`. */
  function RemoveQuotes(s: Str): (r: Str)
    ensures |r| <= |s| && forall k :: 0 <= k < |r| ==> r[k] != QUOTE
  {
    if s == [] then []
    else (if s[0] == QUOTE then [] else [s[0]]) + RemoveQuotes(s[1..])
  }

  // ---------------------------------------------------------------------------------------------
  // `FromJson`: the normalisation loop

  /**
    The loop of `FromJson` from index `i`: a string literal is copied through
    `AppendUntilStringEnd` (backslashes kept), white space outside literals is dropped, anything
    else is copied. `None` where the scan runs past the end after a final backslash.
   */
  function CompactFrom(json: Str, i: nat): Option<Str>
    requires i <= |json|
    decreases |json| - i
  {
    if i == |json| then Some([])
    else if json[i] == QUOTE then
      match CatchString(json, i, true)
      case Overrun => None
      case Scan(e, t) => Then(t, CompactFrom(json, e + 1))
    else if IsWhiteSpace(json[i]) then CompactFrom(json, i + 1)
    else Then([json[i]], CompactFrom(json, i + 1))
  }

  function Compacted(json: Str): Option<Str> {
    CompactFrom(json, 0)
  }

  // ---------------------------------------------------------------------------------------------
  // `ParseValue`

  /** The string case of `ParseValue`: empty for two code units or fewer, else the unescaped interior. */
  function StringValue(json: Str): Str {
    if |json| <= 2 then [] else Unescape(Reader.Interior(json))
  }

  /** `Convert.ChangeType`, its exception surfacing as a fault. */
  function ChangeType(h: LegacyHost, json: Str, t: TypeDesc): Result<Value, Fault> {
    match h.changeType(json, t)
    case Err(message) => Err(Reader.HostFault(message))
    case Ok(v) => Ok(v)
  }

  /**
    The enum case: a leading quote is cut off with the last unit (`Substring(1, Length - 2)`),
    then `Enum.Parse`; when it throws the boxed `int` 0 is returned.
   */
  function ReadEnum(h: LegacyHost, t: TypeDesc, json: Str): Result<Value, Fault> {
    if json == [] then Err(Reader.IndexOutOfRange)
    else if json[0] == QUOTE && |json| < 2 then Err(Reader.ArgumentOutOfRange)
    else
      var name := if json[0] == QUOTE then Reader.Interior(json) else json;
      match h.enumParse(name, t)
      case Some(v) => Ok(v)
      case None => Ok(Integral(Int32Type, 0))
  }

  /**
    `ReadValue(type, json)`, in the order the source tests the type: string, primitive, `decimal`,
    `DateTime` and `TimeSpan` first, then `null`, enums, arrays and lists, dictionaries, `object`,
    and any other braced text as an instance. Everything else is null.
   */
  function ReadValue(ctx: LegacyContext, t: TypeDesc, json: Str): Result<Value, Fault>
    decreases |json|, 2
  {
    if t == TString then Ok(Text(StringValue(json)))
    else if IsPrimitive(t) then ChangeType(ctx.host, json, t)
    else if t == DecimalType then Ok(ctx.host.tryParse(json, t))
    else if t == DateTimeType || t == TimeSpanType then Ok(ctx.host.tryParse(RemoveQuotes(json), t))
    else if json == Reader.NullToken then Ok(Null)
    else if t.TEnum? then ReadEnum(ctx.host, t, json)
    else if t.TArray? || t.TList? then
      if json == [] then Err(Reader.IndexOutOfRange)
      else if !Reader.Bracketed(json) then Ok(Null)
      else ReadList(ctx, t, json)
    else if t.TDict? then
      if t.key != TString then Ok(Null)
      else if json == [] then Err(Reader.IndexOutOfRange)
      else if !Reader.Braced(json) then Ok(Null)
      else ReadDictionary(ctx, t, json)
    else if t == TObject then UntypedValue(ctx.host, json)
    else if json == [] then Err(Reader.IndexOutOfRange)
    else if Reader.Braced(json) then ReadObject(ctx, t, json)
    else Ok(Null)
  }

  /** An array or a `List<T>`: one element per piece, each read as the element type. */
  function ReadList(ctx: LegacyContext, t: TypeDesc, json: Str): Result<Value, Fault>
    requires (t.TArray? || t.TList?) && |json| >= 1
    decreases |json|, 1
  {
    match Reader.SplitPieces(json, true)
    case Err(e) => Err(e)
    case Ok(elems) =>
      match ItemsFrom(ctx, t.elem, t.TArray?, json, elems, 0, [])
      case Err(e) => Err(e)
      case Ok(vs) => Ok(Items(t, vs))
  }

  /**
    One element of an array (`intoArray`), a list or a dictionary: the piece read as the element
    type, then stored as `Array.SetValue`, `IList.Add` or the `IDictionary` indexer stores it.
   */
  function ElementOf(ctx: LegacyContext, et: TypeDesc, intoArray: bool, piece: Str): (r: Result<Value, Fault>)
    ensures r.Ok? && IsValueType(ctx.schema, et) ==> r.value != Null
    decreases |piece|, 3
  {
    match ReadValue(ctx, et, piece)
    case Err(e) => Err(e)
    case Ok(v) => Reader.Store(ctx.schema, intoArray, et, v)
  }

  /** The element loop from piece `i` on, with the elements read so far in `acc`. */
  function ItemsFrom(ctx: LegacyContext, et: TypeDesc, intoArray: bool, json: Str, elems: seq<Str>, i: nat, acc: seq<Value>)
    : Result<seq<Value>, Fault>
    requires i <= |elems| && forall k :: 0 <= k < |elems| ==> |elems[k]| < |json|
    decreases |json|, 0, |elems| - i
  {
    if i == |elems| then Ok(acc)
    else
      match ElementOf(ctx, et, intoArray, elems[i])
      case Err(e) => Err(e)
      case Ok(v) => ItemsFrom(ctx, et, intoArray, json, elems, i + 1, acc + [v])
  }

  /** A `Dictionary<string, V>`: null unless the pieces pair up, else one entry per pair whose key piece is longer than two units. */
  function ReadDictionary(ctx: LegacyContext, t: TypeDesc, json: Str): Result<Value, Fault>
    requires t.TDict? && |json| >= 1
    decreases |json|, 1
  {
    match Reader.SplitPieces(json, true)
    case Err(e) => Err(e)
    case Ok(elems) =>
      if |elems| % 2 != 0 then Ok(Null)
      else
        match EntriesFrom(ctx, t.value, json, elems, 0, [])
        case Err(e) => Err(e)
        case Ok(table) => Ok(Entries(t, table))
  }

  /** The pair loop: a key piece of two units or fewer is skipped, else `dictionary[key] = value`. */
  function EntriesFrom(ctx: LegacyContext, vt: TypeDesc, json: Str, elems: seq<Str>, i: nat, acc: Table)
    : Result<Table, Fault>
    requires |elems| % 2 == 0 && i % 2 == 0 && i <= |elems|
    requires forall k :: 0 <= k < |elems| ==> |elems[k]| < |json|
    decreases |json|, 0, |elems| - i
  {
    if i == |elems| then Ok(acc)
    else if |elems[i]| <= 2 then Reader.NextPair(i, |elems|); EntriesFrom(ctx, vt, json, elems, i + 2, acc)
    else
      Reader.NextPair(i, |elems|);
      match ElementOf(ctx, vt, false, elems[i + 1])
      case Err(e) => Err(e)
      case Ok(v) => EntriesFrom(ctx, vt, json, elems, i + 2, Put(acc, Reader.Interior(elems[i]), v))
  }

  // ---------------------------------------------------------------------------------------------
  // `CreateMemberNameDictionary` and `ParseObject`

  /** A member name table: `Dictionary<string, MemberInfo>` with `OrdinalIgnoreCase`, in insertion order. */
  type MemberNames = seq<(Str, MemberDesc)>

  /** The name a member is read under: a non-empty `DataMember` name, else its declared name. */
  function DataName(m: MemberDesc): Str {
    match m.legacy.dataMemberName
    case Some(n) => if n != [] then n else m.name
    case None => m.name
  }

  /** `TryGetValue` on a table: the member under a key equal to `key` ignoring case. */
  function FindName(table: MemberNames, key: Str): (r: Option<MemberDesc>)
    ensures r.Some? ==> exists k :: 0 <= k < |table| && table[k].1 == r.value && SameIgnoringCase(table[k].0, key)
    ensures r.None? <==> forall k :: 0 <= k < |table| ==> !SameIgnoringCase(table[k].0, key)
  {
    if table == [] then None
    else if SameIgnoringCase(table[0].0, key) then Some(table[0].1)
    else
      var r := FindName(table[1..], key);
      assert forall k :: 1 <= k < |table| ==> table[k] == table[1..][k - 1];
      r
  }

  /** The loop of `CreateMemberNameDictionary` from member `i` on; `Add` throws on a name already present. */
  function NamesFrom(ms: seq<MemberDesc>, i: nat, acc: MemberNames): Result<MemberNames, Fault>
    requires i <= |ms|
    decreases |ms| - i
  {
    if i == |ms| then Ok(acc)
    else if ms[i].legacy.ignoreDataMember then NamesFrom(ms, i + 1, acc)
    else if FindName(acc, DataName(ms[i])).Some? then Err(Reader.DuplicateKey(DataName(ms[i])))
    else NamesFrom(ms, i + 1, acc + [(DataName(ms[i]), ms[i])])
  }

  function MemberNameTable(ms: seq<MemberDesc>): Result<MemberNames, Fault> {
    NamesFrom(ms, 0, [])
  }

  /** `GetFields` or `GetProperties` with `Instance | Public`: the public members. */
  function PublicMembers(ms: seq<MemberDesc>): (r: seq<MemberDesc>)
    ensures forall k :: 0 <= k < |r| ==> r[k] in ms && r[k].isPublic
  {
    if ms == [] then []
    else (if ms[0].isPublic then [ms[0]] else []) + PublicMembers(ms[1..])
  }

  function FieldsOf(schema: Schema, t: TypeDesc): seq<MemberDesc> {
    PublicMembers(RecordOf(schema, t).fields)
  }

  function PropertiesOf(schema: Schema, t: TypeDesc): seq<MemberDesc> {
    PublicMembers(RecordOf(schema, t).properties)
  }

  /**
    `ParseObject`: a fresh instance, left blank when the pieces do not pair up; otherwise the
    field table and then the property table are built, and the members are set pair by pair.
   */
  function ReadObject(ctx: LegacyContext, t: TypeDesc, json: Str): Result<Value, Fault>
    requires |json| >= 1
    decreases |json|, 1
  {
    match Reader.SplitPieces(json, true)
    case Err(e) => Err(e)
    case Ok(elems) =>
      if |elems| % 2 != 0 then Ok(Record(t, []))
      else ObjectMembers(ctx, t, json, elems)
  }

  /** The rest of `ParseObject` once the pieces pair up: the field table, the property table, then the pair loop. */
  function ObjectMembers(ctx: LegacyContext, t: TypeDesc, json: Str, elems: seq<Str>): Result<Value, Fault>
    requires |elems| % 2 == 0 && forall k :: 0 <= k < |elems| ==> |elems[k]| < |json|
    decreases |json|, 0, |elems| + 1
  {
    match MemberNameTable(FieldsOf(ctx.schema, t))
    case Err(e) => Err(e)
    case Ok(fields) =>
      match MemberNameTable(PropertiesOf(ctx.schema, t))
      case Err(e) => Err(e)
      case Ok(properties) =>
        match ObjectSlots(ctx, json, elems, fields, properties, 0, [])
        case Err(e) => Err(e)
        case Ok(slots) => Ok(Record(t, slots))
  }

  /**
    The pair loop of `ParseObject` from pair `i` on: a key piece of two units or fewer is skipped;
    a field with the key is set; else a writable property with the key is set; else the pair is
    skipped. The value piece is read as the member's type.
   */
  function ObjectSlots(ctx: LegacyContext, json: Str, elems: seq<Str>, fields: MemberNames, properties: MemberNames, i: nat, acc: Table)
    : Result<Table, Fault>
    requires |elems| % 2 == 0 && i % 2 == 0 && i <= |elems|
    requires forall k :: 0 <= k < |elems| ==> |elems[k]| < |json|
    decreases |json|, 0, |elems| - i
  {
    if i == |elems| then Ok(acc)
    else
      Reader.NextPair(i, |elems|);
      match PairTarget(elems[i], fields, properties)
      case None => ObjectSlots(ctx, json, elems, fields, properties, i + 2, acc)
      case Some(m) =>
        match ReadValue(ctx, m.memberType, elems[i + 1])
        case Err(e) => Err(e)
        case Ok(v) => ObjectSlots(ctx, json, elems, fields, properties, i + 2, Put(acc, m.name, v))
  }

  /** The member a key piece sets: none for a piece of two units or fewer, a field first, else a writable property. */
  function PairTarget(piece: Str, fields: MemberNames, properties: MemberNames): (r: Option<MemberDesc>)
    ensures r.Some? ==> |piece| > 2
  {
    if |piece| <= 2 then None
    else
      var key := Reader.Interior(piece);
      match FindName(fields, key)
      case Some(f) => Some(f)
      case None =>
        match FindName(properties, key)
        case Some(p) => if p.canWrite then Some(p) else None
        case None => None
  }

  // ---------------------------------------------------------------------------------------------
  // `ParseAnonymousValue`

  /**
    An untyped token: null when empty; a braced span a `Dictionary<string, object>` (null when its
    pieces do not pair up); a bracketed span a `List<object>`; a quoted token its interior with
    every backslash deleted; a token starting with a digit or `-` a double when it holds a `.`,
    else an `int` (0 when `int.TryParse` fails); `true`, `false`; anything else null.
   */
  function UntypedValue(h: LegacyHost, json: Str): Result<Value, Fault>
    decreases |json|, 1
  {
    if json == [] then Ok(Null)
    else if Reader.Braced(json) then
      match Reader.SplitPieces(json, true)
      case Err(e) => Err(e)
      case Ok(elems) =>
        if |elems| % 2 != 0 then Ok(Null)
        else
          match AnonymousPairs(h, json, elems, 0, [])
          case Err(e) => Err(e)
          case Ok(table) => Ok(Entries(Reader.AnonymousDictType, table))
    else if Reader.Bracketed(json) then
      match Reader.SplitPieces(json, true)
      case Err(e) => Err(e)
      case Ok(elems) =>
        match AnonymousItems(h, json, elems, 0, [])
        case Err(e) => Err(e)
        case Ok(vs) => Ok(Items(Reader.ObjectListType, vs))
    else if json[0] == QUOTE && json[|json| - 1] == QUOTE then
      if |json| < 2 then Err(Reader.ArgumentOutOfRange) else Ok(Text(RemoveBackslashes(Reader.Interior(json))))
    else if IsDigit(json[0]) || json[0] == MINUS then
      if DOT in json then Ok(h.parseDouble(json))
      else Ok(Integral(Int32Type, match ParseInt32(json) case Some(n) => n case None => 0))
    else if json == Reader.TrueToken then Ok(Boolean(true))
    else if json == Reader.FalseToken then Ok(Boolean(false))
    else Ok(Null)
  }

  /** The pair loop of the untyped dictionary: every key piece's interior (a piece shorter than two units throws). */
  function AnonymousPairs(h: LegacyHost, json: Str, elems: seq<Str>, i: nat, acc: Table): Result<Table, Fault>
    requires |elems| % 2 == 0 && i % 2 == 0 && i <= |elems|
    requires forall k :: 0 <= k < |elems| ==> |elems[k]| < |json|
    decreases |json|, 0, |elems| - i
  {
    if i == |elems| then Ok(acc)
    else if |elems[i]| < 2 then Err(Reader.ArgumentOutOfRange)
    else
      match UntypedValue(h, elems[i + 1])
      case Err(e) => Err(e)
      case Ok(v) => AnonymousPairs(h, json, elems, i + 2, Put(acc, Reader.Interior(elems[i]), v))
  }

  /** `items.Select(ParseAnonymousValue)`. */
  function AnonymousItems(h: LegacyHost, json: Str, elems: seq<Str>, i: nat, acc: seq<Value>): Result<seq<Value>, Fault>
    requires i <= |elems| && forall k :: 0 <= k < |elems| ==> |elems[k]| < |json|
    decreases |json|, 0, |elems| - i
  {
    if i == |elems| then Ok(acc)
    else
      match UntypedValue(h, elems[i])
      case Err(e) => Err(e)
      case Ok(v) => AnonymousItems(h, json, elems, i + 1, acc + [v])
  }

  /** `FromJson<T>`: the normalisation loop, then `ParseValue`. */
  function ReadDocument(ctx: LegacyContext, t: TypeDesc, json: Str): Result<Value, Fault> {
    match Compacted(json)
    case None => Err(Reader.IndexOutOfRange)
    case Some(compact) => ReadValue(ctx, t, compact)
  }

  // ---------------------------------------------------------------------------------------------
  // One pass of each pair loop, stated apart from the heap

  lemma {:induction false} EntriesStep(ctx: LegacyContext, vt: TypeDesc, json: Str, elems: seq<Str>, i: nat, acc: Table)
    requires |elems| % 2 == 0 && i % 2 == 0 && i < |elems|
    requires forall k :: 0 <= k < |elems| ==> |elems[k]| < |json|
    ensures |elems[i]| <= 2 ==> EntriesFrom(ctx, vt, json, elems, i, acc) == EntriesFrom(ctx, vt, json, elems, i + 2, acc)
    ensures |elems[i]| > 2 ==>
      var v := ElementOf(ctx, vt, false, elems[i + 1]);
      EntriesFrom(ctx, vt, json, elems, i, acc)
        == if v.Err? then Err(v.error) else EntriesFrom(ctx, vt, json, elems, i + 2, Put(acc, Reader.Interior(elems[i]), v.value))
  {
  }

  /** What one pass of the pair loop did, read against the loop function: the fault it ends with, or the rest of the loop. */
  lemma {:induction false} PairAdvance(ctx: LegacyContext, json: Str, elems: seq<Str>, fields: MemberNames, properties: MemberNames, i: nat,
    before: Table, after: Table, fault: Option<Fault>)
    requires |elems| % 2 == 0 && i % 2 == 0 && i < |elems|
    requires forall k :: 0 <= k < |elems| ==> |elems[k]| < |json|
    requires var target := PairTarget(elems[i], fields, properties);
      if target.None? then fault.None? && after == before
      else
        var v := ReadValue(ctx, target.value.memberType, elems[i + 1]);
        if v.Err? then fault == Some(v.error)
        else fault.None? && after == Put(before, target.value.name, v.value)
    ensures i + 2 <= |elems|
    ensures fault.Some? ==> ObjectSlots(ctx, json, elems, fields, properties, i, before) == Err(fault.value)
    ensures fault.None? ==>
      ObjectSlots(ctx, json, elems, fields, properties, i, before) == ObjectSlots(ctx, json, elems, fields, properties, i + 2, after)
  {
    var target := PairTarget(elems[i], fields, properties);
    if target.Some? {
      var v := ReadValue(ctx, target.value.memberType, elems[i + 1]);
      if v.Err? {
        assert fault == Some(v.error);
      } else {
        assert after == Put(before, target.value.name, v.value);
      }
    }
  }

  lemma {:induction false} PairsStep(h: LegacyHost, json: Str, elems: seq<Str>, i: nat, acc: Table)
    requires |elems| % 2 == 0 && i % 2 == 0 && i < |elems|
    requires forall k :: 0 <= k < |elems| ==> |elems[k]| < |json|
    ensures |elems[i]| < 2 ==> AnonymousPairs(h, json, elems, i, acc) == Err(Reader.ArgumentOutOfRange)
    ensures |elems[i]| >= 2 ==>
      var v := UntypedValue(h, elems[i + 1]);
      AnonymousPairs(h, json, elems, i, acc)
        == if v.Err? then Err(v.error) else AnonymousPairs(h, json, elems, i + 2, Put(acc, Reader.Interior(elems[i]), v.value))
  {
  }

  // ---------------------------------------------------------------------------------------------
  // The loops

  /** The string loop of `ParseValue`, over the units between the first and the last. */
  method ParseString(json: Str) returns (r: Str)
    ensures r == StringValue(json)
  {
    if |json| <= 2 {
      return [];
    }
    var n := |json|;
    r := [];
    var i := 1;
    while i < n - 1
      invariant 1 <= i <= n - 1
      invariant r + Unescape(json[i..n - 1]) == Unescape(json[1..n - 1])
    {
      ghost var rest := json[i..n - 1];
      if json[i] == BACKSLASH && i + 1 < n - 1 {
        var j := ShortEscape(json[i + 1]);
        if j.Some? {
          UnescapeShort(rest, 6);
          assert rest[2..] == json[i + 2..n - 1];
          Regroup(r, [j.value], Unescape(json[i + 2..n - 1]));
          r := r + [j.value];
          i := i + 2;
          continue;
        }
        if json[i + 1] == LETTER_U && i + 5 < n - 1 {
          var c := ParseHex4(json[i + 2..i + 6]);
          if c.Some? {
            assert forall k :: 2 <= k < 6 ==> rest[k] == json[i + k];
            assert rest[2..6] == json[i + 2..i + 6];
            UnescapeCode(rest, 6);
            assert rest[6..] == json[i + 6..n - 1];
            Regroup(r, [c.value], Unescape(json[i + 6..n - 1]));
            r := r + [c.value];
            i := i + 6;
            continue;
          }
        }
      }
      assert |rest| >= 2 ==> rest[1] == json[i + 1];
      if |rest| >= 6 {
        assert forall k :: 2 <= k < 6 ==> rest[k] == json[i + k];
        assert rest[2..6] == json[i + 2..i + 6];
      }
      UnescapeCopy(rest, 6);
      assert rest[1..] == json[i + 1..n - 1];
      Regroup(r, [json[i]], Unescape(json[i + 1..n - 1]));
      r := r + [json[i]];
      i := i + 1;
    }
    assert json[i..n - 1] == [];
    assert r + [] == r;
  }

  /** `CreateMemberNameDictionary`. */
  method CreateMemberNameDictionary(ms: seq<MemberDesc>) returns (r: Result<MemberNames, Fault>)
    ensures r == MemberNameTable(ms)
  {
    var table: MemberNames := [];
    var i := 0;
    while i < |ms|
      invariant i <= |ms|
      invariant NamesFrom(ms, i, table) == MemberNameTable(ms)
    {
      if !ms[i].legacy.ignoreDataMember {
        var name := DataName(ms[i]);
        if FindName(table, name).Some? {
          return Err(Reader.DuplicateKey(name));
        }
        table := table + [(name, ms[i])];
      }
      i := i + 1;
    }
    return Ok(table);
  }

  /**
    The thread-static state of `G9JsonParser`: the string builder and split pool (the scratch
    object of the Core scanner, whose `AppendUntilStringEnd` and `Split` are the same code) and the
    per-type caches of member name tables.
   */
  class LegacyParser {
    const ctx: LegacyContext
    const scratch: ParserScratch
    var fieldCache: map<TypeDesc, MemberNames>
    var propertyCache: map<TypeDesc, MemberNames>

    /** A cached table is the table `CreateMemberNameDictionary` builds for that type. */
    predicate Valid()
      reads this
    {
      (forall t :: t in fieldCache ==> MemberNameTable(FieldsOf(ctx.schema, t)) == Ok(fieldCache[t])) &&
      (forall t :: t in propertyCache ==> MemberNameTable(PropertiesOf(ctx.schema, t)) == Ok(propertyCache[t]))
    }

    constructor(ctx: LegacyContext)
      ensures Valid() && this.ctx == ctx && fieldCache == map[] && propertyCache == map[]
    {
      this.ctx := ctx;
      scratch := new ParserScratch();
      fieldCache := map[];
      propertyCache := map[];
    }

    /** `FromJson<T>`: white space outside string literals dropped into the builder, then `ParseValue`. */
    method FromJson(t: TypeDesc, json: Str) returns (r: Result<Value, Fault>)
      requires Valid()
      modifies this, scratch
      ensures Valid() && r == ReadDocument(ctx, t, json)
    {
      scratch.builder := [];
      var i := 0;
      ThenThen([], [], CompactFrom(json, 0));
      while i < |json|
        invariant 0 <= i <= |json| && Valid()
        invariant CompactFrom(json, 0) == Then(scratch.builder, CompactFrom(json, i))
        decreases |json| - i
      {
        var c := json[i];
        if c == QUOTE {
          ghost var before := scratch.builder;
          var e := scratch.CatchStringBetweenSigns(true, i, json);
          if e.None? {
            return Err(Reader.IndexOutOfRange);
          }
          ThenThen(before, CatchString(json, i, true).text, CompactFrom(json, e.value + 1));
          i := e.value + 1;
          continue;
        }
        if IsWhiteSpace(c) {
          i := i + 1;
          continue;
        }
        ThenThen(scratch.builder, [c], CompactFrom(json, i + 1));
        scratch.builder := scratch.builder + [c];
        i := i + 1;
      }
      var compact := scratch.builder;
      assert compact + [] == compact;
      r := ParseValue(t, compact);
    }

    /** `ParseValue`, testing the type in the order of `ReadValue`. */
    method ParseValue(t: TypeDesc, json: Str) returns (r: Result<Value, Fault>)
      requires Valid()
      modifies this, scratch
      ensures Valid() && r == ReadValue(ctx, t, json)
      decreases |json|, 3
    {
      if t == TString {
        var s := ParseString(json);
        return Ok(Text(s));
      } else if IsPrimitive(t) {
        return ChangeType(ctx.host, json, t);
      } else if t == DecimalType {
        return Ok(ctx.host.tryParse(json, t));
      } else if t == DateTimeType || t == TimeSpanType {
        return Ok(ctx.host.tryParse(RemoveQuotes(json), t));
      } else if json == Reader.NullToken {
        return Ok(Null);
      } else if t.TEnum? {
        return ReadEnum(ctx.host, t, json);
      } else if t.TArray? || t.TList? {
        if json == [] {
          return Err(Reader.IndexOutOfRange);
        }
        if !Reader.Bracketed(json) {
          return Ok(Null);
        }
        r := ParseList(t, json);
      } else if t.TDict? {
        if t.key != TString {
          return Ok(Null);
        }
        if json == [] {
          return Err(Reader.IndexOutOfRange);
        }
        if !Reader.Braced(json) {
          return Ok(Null);
        }
        r := ParseDictionary(t, json);
      } else if t == TObject {
        r := ParseAnonymousValue(json);
      } else if json == [] {
        return Err(Reader.IndexOutOfRange);
      } else if Reader.Braced(json) {
        r := ParseObject(t, json);
      } else {
        return Ok(Null);
      }
    }

    /** The array and `List<T>` case: split, then one element per piece. */
    method ParseList(t: TypeDesc, json: Str) returns (r: Result<Value, Fault>)
      requires Valid() && (t.TArray? || t.TList?) && |json| >= 1
      modifies this, scratch
      ensures Valid() && r == ReadList(ctx, t, json)
      decreases |json|, 1
    {
      var split := scratch.Splitter(json, true);
      SplitPiecesShorter(json, true);
      if split.None? {
        return Err(Reader.IndexOutOfRange);
      }
      var elems := split.value;
      var vs: seq<Value> := [];
      var i := 0;
      while i < |elems|
        invariant i <= |elems| && Valid()
        invariant ItemsFrom(ctx, t.elem, t.TArray?, json, elems, i, vs) == ItemsFrom(ctx, t.elem, t.TArray?, json, elems, 0, [])
      {
        var v := ParseValue(t.elem, elems[i]);
        if v.Err? {
          return Err(v.error);
        }
        var stored := Reader.Store(ctx.schema, t.TArray?, t.elem, v.value);
        if stored.Err? {
          return Err(stored.error);
        }
        vs := vs + [stored.value];
        i := i + 1;
      }
      return Ok(Items(t, vs));
    }

    /** The `Dictionary<string, V>` case: split, null unless the pieces pair up, then one entry per pair. */
    method ParseDictionary(t: TypeDesc, json: Str) returns (r: Result<Value, Fault>)
      requires Valid() && t.TDict? && |json| >= 1
      modifies this, scratch
      ensures Valid() && r == ReadDictionary(ctx, t, json)
      decreases |json|, 1
    {
      var split := scratch.Splitter(json, true);
      SplitPiecesShorter(json, true);
      if split.None? {
        return Err(Reader.IndexOutOfRange);
      }
      var elems := split.value;
      if |elems| % 2 != 0 {
        return Ok(Null);
      }
      var table: Table := [];
      var i := 0;
      while i < |elems|
        invariant i % 2 == 0 && i <= |elems| && Valid()
        invariant EntriesFrom(ctx, t.value, json, elems, i, table) == EntriesFrom(ctx, t.value, json, elems, 0, [])
      {
        EntriesStep(ctx, t.value, json, elems, i, table);
        var next := DictionaryPair(t.value, json, elems, i, table);
        if next.Err? {
          return Err(next.error);
        }
        table := next.value;
        Reader.NextPair(i, |elems|);
        i := i + 2;
      }
      return Ok(Entries(t, table));
    }

    /** One pass of the pair loop of the dictionary case: the table with the pair at `i` entered, or skipped. */
    method DictionaryPair(vt: TypeDesc, json: Str, elems: seq<Str>, i: nat, table: Table) returns (r: Result<Table, Fault>)
      requires Valid() && |elems| % 2 == 0 && i % 2 == 0 && i < |elems|
      requires forall k :: 0 <= k < |elems| ==> |elems[k]| < |json|
      modifies this, scratch
      ensures Valid()
      ensures |elems[i]| <= 2 ==> r == Ok(table)
      ensures |elems[i]| > 2 ==> var v := ElementOf(ctx, vt, false, elems[i + 1]);
        r == if v.Err? then Err(v.error) else Ok(Put(table, Reader.Interior(elems[i]), v.value))
      decreases |json|, 0
    {
      if |elems[i]| <= 2 {
        return Ok(table);
      }
      var key := Reader.Interior(elems[i]);
      var v := ParseValue(vt, elems[i + 1]);
      if v.Err? {
        return Err(v.error);
      }
      var stored := Reader.Store(ctx.schema, false, vt, v.value);
      if stored.Err? {
        return Err(stored.error);
      }
      return Ok(Put(table, key, stored.value));
    }

    /** The field table of a type: the cached one, else a new one, cached when it is built. */
    method FieldTable(t: TypeDesc) returns (r: Result<MemberNames, Fault>)
      requires Valid()
      modifies this
      ensures Valid() && r == MemberNameTable(FieldsOf(ctx.schema, t))
      ensures propertyCache == old(propertyCache)
      ensures fieldCache == if r.Ok? then old(fieldCache)[t := r.value] else old(fieldCache)
    {
      if t in fieldCache {
        r := Ok(fieldCache[t]);
        assert fieldCache[t := r.value] == fieldCache;
        return;
      }
      r := CreateMemberNameDictionary(FieldsOf(ctx.schema, t));
      if r.Ok? {
        fieldCache := fieldCache[t := r.value];
      }
    }

    /** The property table of a type: the cached one, else a new one, cached when it is built. */
    method PropertyTable(t: TypeDesc) returns (r: Result<MemberNames, Fault>)
      requires Valid()
      modifies this
      ensures Valid() && r == MemberNameTable(PropertiesOf(ctx.schema, t))
      ensures fieldCache == old(fieldCache)
      ensures propertyCache == if r.Ok? then old(propertyCache)[t := r.value] else old(propertyCache)
    {
      if t in propertyCache {
        r := Ok(propertyCache[t]);
        assert propertyCache[t := r.value] == propertyCache;
        return;
      }
      r := CreateMemberNameDictionary(PropertiesOf(ctx.schema, t));
      if r.Ok? {
        propertyCache := propertyCache[t := r.value];
      }
    }

    /**
      `ParseObject`: a fresh instance, returned blank when the pieces do not pair up; otherwise the
      two member tables, then each pair sets the member its key names.
     */
    method ParseObject(t: TypeDesc, json: Str) returns (r: Result<Value, Fault>)
      requires Valid() && |json| >= 1
      modifies this, scratch
      ensures Valid() && r == ReadObject(ctx, t, json)
      decreases |json|, 1
    {
      var instance := new ObjectReader.ObjectInstance(t);
      var split := scratch.Splitter(json, true);
      SplitPiecesShorter(json, true);
      if split.None? {
        return Err(Reader.IndexOutOfRange);
      }
      var elems := split.value;
      if |elems| % 2 != 0 {
        return Ok(Record(t, instance.slots));
      }
      r := ObjectMembersOf(instance, json, elems);
    }

    /** The member tables and the pair loop of `ParseObject`, filling the fresh instance. */
    method ObjectMembersOf(instance: ObjectReader.ObjectInstance, json: Str, elems: seq<Str>) returns (r: Result<Value, Fault>)
      requires Valid() && instance.slots == []
      requires |elems| % 2 == 0 && forall k :: 0 <= k < |elems| ==> |elems[k]| < |json|
      modifies this, scratch, instance
      ensures Valid() && r == ObjectMembers(ctx, instance.t, json, elems)
      decreases |json|, 0, |elems| + 1
    {
      var fields := FieldTable(instance.t);
      if fields.Err? {
        return Err(fields.error);
      }
      var properties := PropertyTable(instance.t);
      if properties.Err? {
        return Err(properties.error);
      }
      var i := 0;
      while i < |elems|
        invariant i % 2 == 0 && i <= |elems| && Valid()
        invariant ObjectSlots(ctx, json, elems, fields.value, properties.value, i, instance.slots)
          == ObjectSlots(ctx, json, elems, fields.value, properties.value, 0, [])
      {
        ghost var before := instance.slots;
        var fault := ObjectPair(instance, json, elems, fields.value, properties.value, i);
        PairAdvance(ctx, json, elems, fields.value, properties.value, i, before, instance.slots, fault);
        if fault.Some? {
          return Err(fault.value);
        }
        Reader.NextPair(i, |elems|);
        i := i + 2;
      }
      return Ok(Record(instance.t, instance.slots));
    }

    /** One pass of the pair loop of `ParseObject`: the member the key names is set from the value piece, or nothing. */
    method ObjectPair(instance: ObjectReader.ObjectInstance, json: Str, elems: seq<Str>, fields: MemberNames, properties: MemberNames, i: nat)
      returns (fault: Option<Fault>)
      requires Valid() && |elems| % 2 == 0 && i % 2 == 0 && i < |elems|
      requires forall k :: 0 <= k < |elems| ==> |elems[k]| < |json|
      modifies this, scratch, instance
      ensures Valid()
      ensures var target := PairTarget(elems[i], fields, properties);
        if target.None? then fault.None? && instance.slots == old(instance.slots)
        else
          var v := ReadValue(ctx, target.value.memberType, elems[i + 1]);
          if v.Err? then fault == Some(v.error)
          else fault.None? && instance.slots == Put(old(instance.slots), target.value.name, v.value)
      decreases |json|, 0, 0
    {
      var target := PairTarget(elems[i], fields, properties);
      if target.None? {
        return None;
      }
      var m := target.value;
      var v := ParseValue(m.memberType, elems[i + 1]);
      if v.Err? {
        return Some(v.error);
      }
      instance.SetValue(m.name, v.value);
      return None;
    }

    /** `ParseAnonymousValue`: the untyped reader, its dictionary and list loops on the shared splitter. */
    method ParseAnonymousValue(json: Str) returns (r: Result<Value, Fault>)
      modifies scratch
      ensures r == UntypedValue(ctx.host, json)
      decreases |json|, 2
    {
      if json == [] {
        return Ok(Null);
      }
      if Reader.Braced(json) || Reader.Bracketed(json) {
        var split := scratch.Splitter(json, true);
        SplitPiecesShorter(json, true);
        if split.None? {
          return Err(Reader.IndexOutOfRange);
        }
        if Reader.Braced(json) {
          r := AnonymousDictionary(json, split.value);
        } else {
          r := AnonymousList(json, split.value);
        }
        return;
      }
      if json[0] == QUOTE && json[|json| - 1] == QUOTE {
        if |json| < 2 {
          return Err(Reader.ArgumentOutOfRange);
        }
        return Ok(Text(RemoveBackslashes(Reader.Interior(json))));
      }
      if IsDigit(json[0]) || json[0] == MINUS {
        if DOT in json {
          return Ok(ctx.host.parseDouble(json));
        }
        var n := ParseInt32(json);
        return Ok(Integral(Int32Type, if n.Some? then n.value else 0));
      }
      if json == Reader.TrueToken {
        return Ok(Boolean(true));
      }
      if json == Reader.FalseToken {
        return Ok(Boolean(false));
      }
      return Ok(Null);
    }

    /** The braced case of `ParseAnonymousValue`: null unless the pieces pair up, else a `Dictionary<string, object>`. */
    method AnonymousDictionary(json: Str, elems: seq<Str>) returns (r: Result<Value, Fault>)
      requires Reader.Braced(json) && Split(json, true) == Some(elems)
      modifies scratch
      ensures r == UntypedValue(ctx.host, json)
      decreases |json|, 1
    {
      SplitPiecesShorter(json, true);
      if |elems| % 2 != 0 {
        return Ok(Null);
      }
      var table: Table := [];
      var i := 0;
      while i < |elems|
        invariant i % 2 == 0 && i <= |elems|
        invariant AnonymousPairs(ctx.host, json, elems, i, table) == AnonymousPairs(ctx.host, json, elems, 0, [])
      {
        PairsStep(ctx.host, json, elems, i, table);
        var next := AnonymousPair(json, elems, i, table);
        if next.Err? {
          return Err(next.error);
        }
        table := next.value;
        Reader.NextPair(i, |elems|);
        i := i + 2;
      }
      return Ok(Entries(Reader.AnonymousDictType, table));
    }

    /** One pass of the untyped pair loop: the table with the pair at `i` entered. */
    method AnonymousPair(json: Str, elems: seq<Str>, i: nat, table: Table) returns (r: Result<Table, Fault>)
      requires |elems| % 2 == 0 && i % 2 == 0 && i < |elems|
      requires forall k :: 0 <= k < |elems| ==> |elems[k]| < |json|
      modifies scratch
      ensures |elems[i]| < 2 ==> r == Err(Reader.ArgumentOutOfRange)
      ensures |elems[i]| >= 2 ==> var v := UntypedValue(ctx.host, elems[i + 1]);
        r == if v.Err? then Err(v.error) else Ok(Put(table, Reader.Interior(elems[i]), v.value))
      decreases |json|, 0
    {
      if |elems[i]| < 2 {
        return Err(Reader.ArgumentOutOfRange);
      }
      var key := Reader.Interior(elems[i]);
      var v := ParseAnonymousValue(elems[i + 1]);
      if v.Err? {
        return Err(v.error);
      }
      return Ok(Put(table, key, v.value));
    }

    /** The bracketed case of `ParseAnonymousValue`: a `List<object>`, one item per piece. */
    method AnonymousList(json: Str, elems: seq<Str>) returns (r: Result<Value, Fault>)
      requires !Reader.Braced(json) && Reader.Bracketed(json) && Split(json, true) == Some(elems)
      modifies scratch
      ensures r == UntypedValue(ctx.host, json)
      decreases |json|, 1
    {
      SplitPiecesShorter(json, true);
      var vs: seq<Value> := [];
      var i := 0;
      while i < |elems|
        invariant i <= |elems|
        invariant AnonymousItems(ctx.host, json, elems, i, vs) == AnonymousItems(ctx.host, json, elems, 0, [])
      {
        var v := ParseAnonymousValue(elems[i]);
        if v.Err? {
          return Err(v.error);
        }
        vs := vs + [v.value];
        i := i + 1;
      }
      return Ok(Items(Reader.ObjectListType, vs));
    }
  }

  // ---------------------------------------------------------------------------------------------
  // Properties

  /** A string the legacy writer wrote, read back as a string, is the string it wrote. */
  lemma {:induction false} StringRoundTrip(ctx: LegacyContext, h: Host, schema: Schema, s: Str)
    ensures ReadValue(ctx, TString, LegacyWriter.Json(h, schema, Text(s))) == Ok(Text(s))
  {
    var b := Escape(s);
    var w := LegacyWriter.Json(h, schema, Text(s));
    assert w == [QUOTE] + b + [QUOTE];
    UnescapeOfEscape(s);
    if s != [] {
      assert |b| >= 1 by {
        assert b == EscapeUnit(s[0]) + Escape(s[1..]);
      }
      assert Reader.Interior(w) == b;
    }
  }

  /** A document holding only a written string literal passes the normalisation loop unchanged and reads back as that string. */
  lemma {:induction false} DocumentStringRoundTrip(ctx: LegacyContext, h: Host, schema: Schema, s: Str)
    ensures ReadDocument(ctx, TString, LegacyWriter.Json(h, schema, Text(s))) == Ok(Text(s))
  {
    WrittenStringCompacts(h, schema, s);
    StringRoundTrip(ctx, h, schema, s);
  }

  /** A written string literal passes the normalisation loop unchanged. */
  lemma {:induction false} WrittenStringCompacts(h: Host, schema: Schema, s: Str)
    ensures Compacted(LegacyWriter.Json(h, schema, Text(s))) == Some(LegacyWriter.Json(h, schema, Text(s)))
  {
    var b := Escape(s);
    var w := LegacyWriter.Json(h, schema, Text(s));
    assert w == [QUOTE] + b + [QUOTE];
    assert CatchString(w, 0, true) == Scan(|w| - 1, w) by {
      EscapedIsStringBody(s);
      assert w[1..|b| + 1] == b;
      ScanStopsAtClosingQuote(w, 1, |b| + 1, true);
      ScanVerbatim(w, 1);
      assert w[1..|w|] == b + [QUOTE];
      assert [QUOTE] + w[1..|w|] == w;
    }
    assert CompactFrom(w, |w|) == Some([]);
    assert Compacted(w) == Some(w + []);
    assert w + [] == w;
  }

  /**
    The `null` token is tested only after the string, primitive, `decimal`, `DateTime` and
    `TimeSpan` cases: read as a string it is its interior `ul`; read as any other type it is null.
   */
  lemma {:induction false} NullTokenReads(ctx: LegacyContext, t: TypeDesc)
    ensures ReadValue(ctx, TString, Reader.NullToken) == Ok(Text(Lit("ul")))
    ensures t != TString && !IsPrimitive(t) && t != DecimalType && t != DateTimeType && t != TimeSpanType
      ==> ReadValue(ctx, t, Reader.NullToken) == Ok(Null)
  {
    var ul := Lit("ul");
    assert Reader.Interior(Reader.NullToken) == ul;
    UnescapeCopy(ul, 6);
    UnescapeCopy(ul[1..], 6);
    assert ul[1..][1..] == [];
    assert [ul[0]] + ([ul[1]] + []) == ul;
  }

  /** The `null` the legacy writer writes for a missing string reads back as the two-unit string `ul`. */
  lemma {:induction false} WrittenNullStringReadsAsUl(ctx: LegacyContext, h: Host, schema: Schema)
    ensures ReadDocument(ctx, TString, LegacyWriter.Json(h, schema, Null)) == Ok(Text(Lit("ul")))
  {
    var w := LegacyWriter.Json(h, schema, Null);
    assert w == Reader.NullToken;
    NullTokenReads(ctx, TString);
    CompactPlain(w, 0);
    assert w[0..] == w;
  }

  /** Text without quotes or white space passes the legacy normalisation loop unchanged. */
  lemma {:induction false} CompactPlain(s: Str, i: nat)
    requires i <= |s|
    requires forall k :: 0 <= k < |s| ==> !IsWhiteSpace(s[k]) && s[k] != QUOTE
    ensures CompactFrom(s, i) == Some(s[i..])
    decreases |s| - i
  {
    if i < |s| {
      CompactPlain(s, i + 1);
      assert s[i..] == [s[i]] + s[i + 1..];
    }
  }

  /**
    The legacy loop knows no comments: on text without `/` it agrees with the Core normalisation
    loop, and a comment the legacy writer wrote stays in the text, its spaces dropped.
   */
  lemma {:induction false} CompactAgreesWithCore(json: Str, i: nat)
    requires i <= |json|
    requires forall k :: 0 <= k < |json| ==> json[k] != SLASH
    ensures CompactFrom(json, i) == JsonScanner.NormFrom(json, i, false)
    decreases |json| - i
  {
    if i < |json| {
      if json[i] == QUOTE {
        match CatchString(json, i, true)
        case Overrun =>
        case Scan(e, t) =>
          CompactAgreesWithCore(json, e + 1);
      } else {
        CompactAgreesWithCore(json, i + 1);
      }
    }
  }

  lemma {:induction false} NoteKept(note: Str)
    requires forall k :: 0 <= k < |note| ==> !IsWhiteSpace(note[k]) && note[k] != QUOTE
    ensures Compacted(LegacyWriter.NoteComment(note, true, 0)) == Some([SLASH, STAR] + note + [STAR, SLASH])
  {
    var c := LegacyWriter.NoteComment(note, true, 0);
    var n := |note|;
    assert c == [SLASH, STAR, SPACE] + note + [SPACE, STAR, SLASH];
    NoteInterior(c, n, 3);
    assert c[3..n + 3] == note;
    assert !IsWhiteSpace(SLASH) && !IsWhiteSpace(STAR) && IsWhiteSpace(SPACE);
    assert c[0] == SLASH && c[1] == STAR && c[2] == SPACE;
    assert CompactFrom(c, 3) == Some(note + [STAR, SLASH]);
    assert CompactFrom(c, 2) == Some(note + [STAR, SLASH]);
    assert CompactFrom(c, 1) == Some([STAR] + (note + [STAR, SLASH]));
    assert CompactFrom(c, 0) == Some([SLASH] + ([STAR] + (note + [STAR, SLASH])));
    assert [SLASH] + ([STAR] + (note + [STAR, SLASH])) == [SLASH, STAR] + note + [STAR, SLASH];
  }

  lemma {:induction false} NoteInterior(c: Str, n: nat, j: nat)
    requires 3 <= j <= n + 3 && |c| == n + 6
    requires forall k :: 3 <= k < n + 3 ==> !IsWhiteSpace(c[k]) && c[k] != QUOTE
    requires c[n + 3] == SPACE && c[n + 4] == STAR && c[n + 5] == SLASH
    ensures CompactFrom(c, j) == Some(c[j..n + 3] + [STAR, SLASH])
    decreases n + 3 - j
  {
    if j == n + 3 {
      assert !IsWhiteSpace(SLASH) && !IsWhiteSpace(STAR) && IsWhiteSpace(SPACE);
      assert CompactFrom(c, n + 6) == Some([]);
      assert CompactFrom(c, n + 5) == Then([SLASH], Some([]));
      assert [SLASH] + [] == [SLASH];
      assert CompactFrom(c, n + 4) == Then([STAR], Some([SLASH]));
      assert [STAR] + [SLASH] == [STAR, SLASH];
      assert CompactFrom(c, n + 4) == Some([STAR, SLASH]);
      assert c[j..n + 3] + [STAR, SLASH] == [STAR, SLASH];
      assert CompactFrom(c, n + 3) == CompactFrom(c, n + 4);
    } else {
      NoteInterior(c, n, j + 1);
      assert c[j..n + 3] + [STAR, SLASH] == [c[j]] + (c[j + 1..n + 3] + [STAR, SLASH]);
    }
  }

  // ---------------------------------------------------------------------------------------------
  // The member name table

  /** The entry a member contributes: none when it carries `IgnoreDataMember`, else its data name. */
  function Entry(m: MemberDesc): MemberNames {
    if m.legacy.ignoreDataMember then [] else [(DataName(m), m)]
  }

  /** The table a member list should give: one entry per member read, in declaration order. */
  function Named(ms: seq<MemberDesc>): MemberNames {
    if ms == [] then [] else Named(ms[..|ms| - 1]) + Entry(ms[|ms| - 1])
  }

  /** No two entries of a table whose names are equal ignoring case: what `Add` on the case-insensitive dictionary keeps. */
  predicate ClashFree(table: MemberNames) {
    forall a, b :: 0 <= a < b < |table| ==> !SameIgnoringCase(table[a].0, table[b].0)
  }

  /** The names a table holds. */
  function TableNames(table: MemberNames): (r: seq<Str>)
    ensures |r| == |table| && forall k :: 0 <= k < |table| ==> r[k] == table[k].0
  {
    seq(|table|, k requires 0 <= k < |table| => table[k].0)
  }

  /** The entries of `Named(ms)` are exactly the members read, each under its data name. */
  lemma {:induction false} NamedMembers(ms: seq<MemberDesc>)
    ensures forall e :: e in Named(ms) <==> e.1 in ms && !e.1.legacy.ignoreDataMember && e.0 == DataName(e.1)
    decreases |ms|
  {
    if ms != [] {
      var p := ms[..|ms| - 1];
      NamedMembers(p);
      assert ms == p + [ms[|ms| - 1]];
      forall e
        ensures e in Named(ms) <==> e.1 in ms && !e.1.legacy.ignoreDataMember && e.0 == DataName(e.1)
      {
        assert e in Named(ms) <==> e in Named(p) || e in Entry(ms[|ms| - 1]);
        assert e.1 in ms <==> e.1 in p || e.1 == ms[|ms| - 1];
      }
    }
  }

  /** The table of a prefix of the members is a prefix of the table of all of them. */
  lemma {:induction false} NamedPrefix(ms: seq<MemberDesc>, i: nat)
    requires i <= |ms|
    ensures Named(ms[..i]) <= Named(ms)
    decreases |ms| - i
  {
    if i < |ms| {
      NamedPrefix(ms, i + 1);
      var q := ms[..i + 1];
      assert q[..|q| - 1] == ms[..i];
    } else {
      assert ms[..i] == ms;
    }
  }

  lemma {:induction false} NamedSnoc(ms: seq<MemberDesc>, i: nat)
    requires i < |ms|
    ensures Named(ms[..i + 1]) == Named(ms[..i]) + Entry(ms[i])
  {
    var q := ms[..i + 1];
    assert q[..|q| - 1] == ms[..i];
  }

  /** A member whose data name is already in the table of the members before it: the whole table clashes and holds that name. */
  lemma {:induction false} DuplicateFound(ms: seq<MemberDesc>, i: nat)
    requires i < |ms| && !ms[i].legacy.ignoreDataMember && FindName(Named(ms[..i]), DataName(ms[i])).Some?
    ensures !ClashFree(Named(ms)) && DataName(ms[i]) in TableNames(Named(ms))
  {
    var p := Named(ms[..i]);
    var d := DataName(ms[i]);
    NamedSnoc(ms, i);
    NamedPrefix(ms, i + 1);
    var n := Named(ms[..i + 1]);
    assert n == p + [(d, ms[i])];
    var k :| 0 <= k < |p| && SameIgnoringCase(p[k].0, d);
    assert n[k] == p[k] && Named(ms)[k] == n[k];
    assert Named(ms)[|p|] == (d, ms[i]);
    assert TableNames(Named(ms))[|p|] == d;
  }

  /** The loop from member `i`, given the table of the members before it: it gives the whole table or the duplicate name. */
  lemma {:induction false} NamesFromSpec(ms: seq<MemberDesc>, i: nat)
    requires i <= |ms| && ClashFree(Named(ms[..i]))
    ensures var r := NamesFrom(ms, i, Named(ms[..i]));
      (r.Ok? <==> ClashFree(Named(ms))) && (r.Ok? ==> r.value == Named(ms))
      && (r.Err? ==> r.error.DuplicateKey? && r.error.key in TableNames(Named(ms)))
    decreases |ms| - i
  {
    if i == |ms| {
      assert ms[..i] == ms;
    } else {
      NamedSnoc(ms, i);
      var p := Named(ms[..i]);
      if ms[i].legacy.ignoreDataMember {
        assert Named(ms[..i + 1]) == p + [] == p;
        NamesFromSpec(ms, i + 1);
      } else if FindName(p, DataName(ms[i])).Some? {
        DuplicateFound(ms, i);
      } else {
        assert Named(ms[..i + 1]) == p + [(DataName(ms[i]), ms[i])];
        assert ClashFree(Named(ms[..i + 1]));
        NamesFromSpec(ms, i + 1);
      }
    }
  }

  /**
    `CreateMemberNameDictionary` succeeds exactly when no two members it reads share a data name
    ignoring case; then the table holds one entry per member read, under its data name, in
    declaration order; otherwise the fault names a data name added twice.
   */
  lemma {:induction false} MemberNameTableSpec(ms: seq<MemberDesc>)
    ensures var r := MemberNameTable(ms);
      (r.Ok? <==> ClashFree(Named(ms))) && (r.Ok? ==> r.value == Named(ms))
      && (r.Err? ==> r.error.DuplicateKey? && r.error.key in TableNames(Named(ms)))
  {
    assert ms[..0] == [];
    NamesFromSpec(ms, 0);
  }

  // ---------------------------------------------------------------------------------------------
  // Lists, dictionaries and instances

  /** The element loop fails exactly when one of the remaining pieces fails. */
  lemma {:induction false} ItemsFromOk(ctx: LegacyContext, et: TypeDesc, intoArray: bool, json: Str, elems: seq<Str>, i: nat, acc: seq<Value>)
    requires i <= |elems| && forall k :: 0 <= k < |elems| ==> |elems[k]| < |json|
    ensures ItemsFrom(ctx, et, intoArray, json, elems, i, acc).Ok? <==> forall k :: i <= k < |elems| ==> ElementOf(ctx, et, intoArray, elems[k]).Ok?
    decreases |elems| - i
  {
    if i < |elems| {
      var v := ElementOf(ctx, et, intoArray, elems[i]);
      if v.Ok? {
        ItemsFromOk(ctx, et, intoArray, json, elems, i + 1, acc + [v.value]);
      }
    }
  }

  /** Otherwise it keeps what it had and appends one value per remaining piece ... */
  lemma {:induction false} ItemsFromLength(ctx: LegacyContext, et: TypeDesc, intoArray: bool, json: Str, elems: seq<Str>, i: nat, acc: seq<Value>)
    requires i <= |elems| && forall k :: 0 <= k < |elems| ==> |elems[k]| < |json|
    ensures var r := ItemsFrom(ctx, et, intoArray, json, elems, i, acc);
      r.Ok? ==> |r.value| == |acc| + |elems| - i && r.value[..|acc|] == acc
    decreases |elems| - i
  {
    if i < |elems| {
      var v := ElementOf(ctx, et, intoArray, elems[i]);
      if v.Ok? {
        var acc' := acc + [v.value];
        ItemsFromLength(ctx, et, intoArray, json, elems, i + 1, acc');
        var r := ItemsFrom(ctx, et, intoArray, json, elems, i + 1, acc');
        if r.Ok? {
          assert r.value[..|acc|] == r.value[..|acc'|][..|acc|];
        }
      }
    }
  }

  /** ... each the piece read as the element type. */
  lemma {:induction false} ItemsFromValues(ctx: LegacyContext, et: TypeDesc, intoArray: bool, json: Str, elems: seq<Str>, i: nat, acc: seq<Value>)
    requires i <= |elems| && forall k :: 0 <= k < |elems| ==> |elems[k]| < |json|
    ensures var r := ItemsFrom(ctx, et, intoArray, json, elems, i, acc);
      r.Ok? ==> (|r.value| == |acc| + |elems| - i
        && forall k :: i <= k < |elems| ==> ElementOf(ctx, et, intoArray, elems[k]) == Ok(r.value[|acc| + k - i]))
    decreases |elems| - i
  {
    ItemsFromLength(ctx, et, intoArray, json, elems, i, acc);
    if i < |elems| {
      var v := ElementOf(ctx, et, intoArray, elems[i]);
      if v.Ok? {
        var acc' := acc + [v.value];
        ItemsFromValues(ctx, et, intoArray, json, elems, i + 1, acc');
        ItemsFromLength(ctx, et, intoArray, json, elems, i + 1, acc');
        var r := ItemsFrom(ctx, et, intoArray, json, elems, i + 1, acc');
        if r.Ok? {
          var w := r.value;
          assert w[|acc|] == w[..|acc'|][|acc|] == v.value;
          forall k | i < k < |elems|
            ensures ElementOf(ctx, et, intoArray, elems[k]) == Ok(w[|acc| + k - i])
          {
            assert |acc| + k - i == |acc'| + k - (i + 1);
          }
        }
      }
    }
  }

  /**
    An element is the piece's value unless the piece reads as null: then an array of a value type
    holds `default(T)`, a list or dictionary of a value type throws, and any other collection holds null.
   */
  lemma {:induction false} ElementOfPiece(ctx: LegacyContext, et: TypeDesc, intoArray: bool, piece: Str)
    ensures ReadValue(ctx, et, piece).Err? ==> ElementOf(ctx, et, intoArray, piece) == ReadValue(ctx, et, piece)
    ensures ReadValue(ctx, et, piece).Ok? && ReadValue(ctx, et, piece).value != Null ==>
      ElementOf(ctx, et, intoArray, piece) == ReadValue(ctx, et, piece)
    ensures ReadValue(ctx, et, piece) == Ok(Null) ==>
      ElementOf(ctx, et, intoArray, piece)
        == if !IsValueType(ctx.schema, et) then Ok(Null) else if intoArray then Ok(ZeroValue(et)) else Err(Reader.NullElementRefused)
  {
  }

  /**
    The `null` piece in a collection of an enum or a user type: read before the enum branch as
    null, it becomes `default(T)` in an array of a value type and throws in a list or dictionary of one.
   */
  lemma {:induction false} NullElement(ctx: LegacyContext, et: TypeDesc, intoArray: bool)
    requires et.TEnum? || et.TRecord?
    ensures ElementOf(ctx, et, intoArray, Reader.NullToken)
      == if !IsValueType(ctx.schema, et) then Ok(Null) else if intoArray then Ok(ZeroValue(et)) else Err(Reader.NullElementRefused)
  {
    assert ReadValue(ctx, et, Reader.NullToken) == Ok(Null);
    ElementOfPiece(ctx, et, intoArray, Reader.NullToken);
  }

  /**
    A bracketed text read as an array or a list: an index fault when the splitter overruns, else
    one element per piece, each the piece's element, failing when one of them does; an array or
    a list of a value type holds no null.
   */
  lemma {:induction false} ListReadsEachPiece(ctx: LegacyContext, t: TypeDesc, json: Str)
    requires (t.TArray? || t.TList?) && Reader.Bracketed(json)
    ensures Split(json, true).None? ==> ReadValue(ctx, t, json) == Err(Reader.IndexOutOfRange)
    ensures Split(json, true).Some? ==>
      var elems := Split(json, true).value;
      var r := ReadValue(ctx, t, json);
      (r.Ok? <==> forall k :: 0 <= k < |elems| ==> ElementOf(ctx, t.elem, t.TArray?, elems[k]).Ok?)
      && (r.Ok? ==> (r.value.Items? && r.value.t == t && |r.value.elems| == |elems|
          && (forall k :: 0 <= k < |elems| ==> ElementOf(ctx, t.elem, t.TArray?, elems[k]) == Ok(r.value.elems[k]))
          && (IsValueType(ctx.schema, t.elem) ==> forall k :: 0 <= k < |elems| ==> r.value.elems[k] != Null)))
  {
    ListReadsAsList(ctx, t, json);
    if Split(json, true).Some? {
      ListOkWhenEachPieceIs(ctx, t, json);
      ListElementsArePieces(ctx, t, json);
    }
  }

  lemma {:induction false} ListOkWhenEachPieceIs(ctx: LegacyContext, t: TypeDesc, json: Str)
    requires (t.TArray? || t.TList?) && Reader.Bracketed(json) && Split(json, true).Some?
    ensures var elems := Split(json, true).value;
      ReadList(ctx, t, json).Ok? <==> forall k :: 0 <= k < |elems| ==> ElementOf(ctx, t.elem, t.TArray?, elems[k]).Ok?
  {
    var elems := Split(json, true).value;
    SplitPiecesShorter(json, true);
    ItemsFromOk(ctx, t.elem, t.TArray?, json, elems, 0, []);
  }

  lemma {:induction false} ListElementsArePieces(ctx: LegacyContext, t: TypeDesc, json: Str)
    requires (t.TArray? || t.TList?) && Reader.Bracketed(json) && Split(json, true).Some?
    ensures var elems := Split(json, true).value;
      var r := ReadList(ctx, t, json);
      r.Ok? ==> (r.value.Items? && r.value.t == t && |r.value.elems| == |elems|
        && forall k :: 0 <= k < |elems| ==> ElementOf(ctx, t.elem, t.TArray?, elems[k]) == Ok(r.value.elems[k]))
  {
    var elems := Split(json, true).value;
    SplitPiecesShorter(json, true);
    ItemsFromValues(ctx, t.elem, t.TArray?, json, elems, 0, []);
  }

  /** A bracketed text read as an array or a list goes to the list reader. */
  lemma ListReadsAsList(ctx: LegacyContext, t: TypeDesc, json: Str)
    requires (t.TArray? || t.TList?) && Reader.Bracketed(json)
    ensures ReadValue(ctx, t, json) == ReadList(ctx, t, json)
  {
    assert json[0] != Reader.NullToken[0];
  }

  /** The keys the dictionary loop enters from pair `i` on: the interior of each key piece longer than two units. */
  function KeyPieces(elems: seq<Str>, i: nat): seq<Str>
    decreases |elems| - i
  {
    if i >= |elems| then []
    else (if |elems[i]| > 2 then [Reader.Interior(elems[i])] else []) + KeyPieces(elems, i + 2)
  }

  /**
    Any property of the pair index and the table that each pass of the dictionary loop keeps, for
    whatever value it reads, holds when the loop ends.
   */
  lemma {:induction false} EntriesPreserve(
    P: (nat, Table) -> bool, ctx: LegacyContext, vt: TypeDesc, json: Str, elems: seq<Str>, i: nat, acc: Table)
    requires |elems| % 2 == 0 && i % 2 == 0 && i <= |elems|
    requires forall k :: 0 <= k < |elems| ==> |elems[k]| < |json|
    requires P(i, acc)
    requires forall j: nat, tbl :: j < |elems| && |elems[j]| <= 2 && P(j, tbl) ==> P(j + 2, tbl)
    requires forall j: nat, tbl, v :: j < |elems| && |elems[j]| > 2 && P(j, tbl) ==> P(j + 2, Put(tbl, Reader.Interior(elems[j]), v))
    ensures var r := EntriesFrom(ctx, vt, json, elems, i, acc);
      r.Ok? ==> P(|elems|, r.value)
    decreases |elems| - i
  {
    if i < |elems| {
      Reader.NextPair(i, |elems|);
      if |elems[i]| <= 2 {
        EntriesPreserve(P, ctx, vt, json, elems, i + 2, acc);
      } else {
        match ElementOf(ctx, vt, false, elems[i + 1])
        case Err(_) =>
        case Ok(v) => EntriesPreserve(P, ctx, vt, json, elems, i + 2, Put(acc, Reader.Interior(elems[i]), v));
      }
    }
  }

  /** The dictionary loop keeps keys distinct, and its keys are those it had and those of the remaining key pieces. */
  lemma {:induction false} EntriesFromKeys(ctx: LegacyContext, vt: TypeDesc, json: Str, elems: seq<Str>, i: nat, acc: Table)
    requires |elems| % 2 == 0 && i % 2 == 0 && i <= |elems|
    requires forall k :: 0 <= k < |elems| ==> |elems[k]| < |json|
    ensures var r := EntriesFrom(ctx, vt, json, elems, i, acc);
      r.Ok? ==> ((DistinctKeys(acc) ==> DistinctKeys(r.value))
        && forall k :: k in Keys(r.value) <==> k in Keys(acc) || k in KeyPieces(elems, i))
  {
    if DistinctKeys(acc) {
      var D := (j: nat, tbl: Table) => DistinctKeys(tbl);
      forall j: nat, tbl, v | j < |elems| && |elems[j]| > 2 && D(j, tbl)
        ensures D(j + 2, Put(tbl, Reader.Interior(elems[j]), v))
      {
        PutKeys(tbl, Reader.Interior(elems[j]), v);
      }
      EntriesPreserve(D, ctx, vt, json, elems, i, acc);
    }
    var K := (j: nat, tbl: Table) => KeysCover(elems, acc, i, j, tbl);
    forall j: nat, tbl | j < |elems| && |elems[j]| <= 2 && K(j, tbl)
      ensures K(j + 2, tbl)
    {
      KeysCoverSkip(elems, acc, i, j, tbl);
    }
    forall j: nat, tbl, v | j < |elems| && |elems[j]| > 2 && K(j, tbl)
      ensures K(j + 2, Put(tbl, Reader.Interior(elems[j]), v))
    {
      KeysCoverPut(elems, acc, i, j, tbl, v);
    }
    EntriesPreserve(K, ctx, vt, json, elems, i, acc);
    var r := EntriesFrom(ctx, vt, json, elems, i, acc);
    if r.Ok? {
      KeysCoverEnd(elems, acc, i, r.value);
    }
  }

  /** The keys of `tbl` together with the key pieces from pair `j` on are those of `acc` and the key pieces from pair `i` on. */
  ghost predicate KeysCover(elems: seq<Str>, acc: Table, i: nat, j: nat, tbl: Table) {
    forall k :: (k in Keys(tbl) || k in KeyPieces(elems, j)) <==> (k in Keys(acc) || k in KeyPieces(elems, i))
  }

  lemma {:induction false} KeysCoverSkip(elems: seq<Str>, acc: Table, i: nat, j: nat, tbl: Table)
    requires j < |elems| && |elems[j]| <= 2 && KeysCover(elems, acc, i, j, tbl)
    ensures KeysCover(elems, acc, i, j + 2, tbl)
  {
    assert KeyPieces(elems, j) == [] + KeyPieces(elems, j + 2);
  }

  lemma {:induction false} KeysCoverPut(elems: seq<Str>, acc: Table, i: nat, j: nat, tbl: Table, v: Value)
    requires j < |elems| && |elems[j]| > 2 && KeysCover(elems, acc, i, j, tbl)
    ensures KeysCover(elems, acc, i, j + 2, Put(tbl, Reader.Interior(elems[j]), v))
  {
    PutKeys(tbl, Reader.Interior(elems[j]), v);
    assert KeyPieces(elems, j) == [Reader.Interior(elems[j])] + KeyPieces(elems, j + 2);
  }

  lemma {:induction false} KeysCoverEnd(elems: seq<Str>, acc: Table, i: nat, tbl: Table)
    requires KeysCover(elems, acc, i, |elems|, tbl)
    ensures forall k :: k in Keys(tbl) <==> k in Keys(acc) || k in KeyPieces(elems, i)
  {
    assert KeyPieces(elems, |elems|) == [];
  }

  /**
    A braced text read as a `Dictionary<string, V>`: null when the pieces do not pair up, else a
    dictionary with distinct keys, exactly the interiors of the key pieces longer than two units.
   */
  lemma {:induction false} DictionaryKeys(ctx: LegacyContext, t: TypeDesc, json: Str)
    requires t.TDict? && t.key == TString && Reader.Braced(json)
    ensures Split(json, true).None? ==> ReadValue(ctx, t, json) == Err(Reader.IndexOutOfRange)
    ensures Split(json, true).Some? ==>
      var elems := Split(json, true).value;
      var r := ReadValue(ctx, t, json);
      (|elems| % 2 != 0 ==> r == Ok(Null))
      && (|elems| % 2 == 0 && r.Ok? ==>
          r.value.Entries? && r.value.t == t && DistinctKeys(r.value.entries)
          && forall k :: k in Keys(r.value.entries) <==> k in KeyPieces(elems, 0))
  {
    assert json[0] != Reader.NullToken[0];
    if Split(json, true).Some? {
      var elems := Split(json, true).value;
      SplitPiecesShorter(json, true);
      if |elems| % 2 == 0 {
        EntriesFromKeys(ctx, t.value, json, elems, 0, []);
      }
    }
  }

  /** The members the pair loop of `ParseObject` sets from pair `i` on. */
  function TargetNames(elems: seq<Str>, fields: MemberNames, properties: MemberNames, i: nat): seq<Str>
    decreases |elems| - i
  {
    if i >= |elems| then []
    else
      (match PairTarget(elems[i], fields, properties) case Some(m) => [m.name] case None => [])
      + TargetNames(elems, fields, properties, i + 2)
  }

  /**
    Any property of the pair index and the table that each pass of the instance loop keeps, for
    whatever value it reads, holds when the loop ends.
   */
  lemma {:induction false} ObjectSlotsPreserve(P: (nat, Table) -> bool,
    ctx: LegacyContext, json: Str, elems: seq<Str>, fields: MemberNames, properties: MemberNames, i: nat, acc: Table)
    requires |elems| % 2 == 0 && i % 2 == 0 && i <= |elems|
    requires forall k :: 0 <= k < |elems| ==> |elems[k]| < |json|
    requires P(i, acc)
    requires forall j: nat, tbl :: j < |elems| && PairTarget(elems[j], fields, properties).None? && P(j, tbl) ==> P(j + 2, tbl)
    requires forall j: nat, tbl, v ::
      (j < |elems| && PairTarget(elems[j], fields, properties).Some? && P(j, tbl) ==> P(j + 2, Put(tbl, PairTarget(elems[j], fields, properties).value.name, v)))
    ensures var r := ObjectSlots(ctx, json, elems, fields, properties, i, acc);
      r.Ok? ==> P(|elems|, r.value)
    decreases |elems| - i
  {
    if i < |elems| {
      Reader.NextPair(i, |elems|);
      match PairTarget(elems[i], fields, properties)
      case None =>
        ObjectSlotsPreserve(P, ctx, json, elems, fields, properties, i + 2, acc);
      case Some(m) =>
        match ReadValue(ctx, m.memberType, elems[i + 1])
        case Err(_) =>
        case Ok(v) => ObjectSlotsPreserve(P, ctx, json, elems, fields, properties, i + 2, Put(acc, m.name, v));
    }
  }

  /** The instance loop keeps member names distinct, and sets exactly the members the remaining pairs name. */
  lemma {:induction false} ObjectSlotsKeys(
    ctx: LegacyContext, json: Str, elems: seq<Str>, fields: MemberNames, properties: MemberNames, i: nat, acc: Table)
    requires |elems| % 2 == 0 && i % 2 == 0 && i <= |elems|
    requires forall k :: 0 <= k < |elems| ==> |elems[k]| < |json|
    ensures var r := ObjectSlots(ctx, json, elems, fields, properties, i, acc);
      r.Ok? ==> ((DistinctKeys(acc) ==> DistinctKeys(r.value))
        && forall k :: k in Keys(r.value) <==> k in Keys(acc) || k in TargetNames(elems, fields, properties, i))
  {
    if DistinctKeys(acc) {
      var D := (j: nat, tbl: Table) => DistinctKeys(tbl);
      forall j: nat, tbl, v | j < |elems| && PairTarget(elems[j], fields, properties).Some? && D(j, tbl)
        ensures D(j + 2, Put(tbl, PairTarget(elems[j], fields, properties).value.name, v))
      {
        PutKeys(tbl, PairTarget(elems[j], fields, properties).value.name, v);
      }
      ObjectSlotsPreserve(D, ctx, json, elems, fields, properties, i, acc);
    }
    var K := (j: nat, tbl: Table) => TargetsCover(elems, fields, properties, acc, i, j, tbl);
    forall j: nat, tbl | j < |elems| && PairTarget(elems[j], fields, properties).None? && K(j, tbl)
      ensures K(j + 2, tbl)
    {
      TargetsCoverSkip(elems, fields, properties, acc, i, j, tbl);
    }
    forall j: nat, tbl, v | j < |elems| && PairTarget(elems[j], fields, properties).Some? && K(j, tbl)
      ensures K(j + 2, Put(tbl, PairTarget(elems[j], fields, properties).value.name, v))
    {
      TargetsCoverPut(elems, fields, properties, acc, i, j, tbl, v);
    }
    ObjectSlotsPreserve(K, ctx, json, elems, fields, properties, i, acc);
    var r := ObjectSlots(ctx, json, elems, fields, properties, i, acc);
    if r.Ok? {
      TargetsCoverEnd(elems, fields, properties, acc, i, r.value);
    }
  }

  /** The members of `tbl` together with those the pairs from `j` on name are those of `acc` and those the pairs from `i` on name. */
  ghost predicate TargetsCover(elems: seq<Str>, fields: MemberNames, properties: MemberNames, acc: Table, i: nat, j: nat, tbl: Table) {
    forall k ::
      (k in Keys(tbl) || k in TargetNames(elems, fields, properties, j)) <==> (k in Keys(acc) || k in TargetNames(elems, fields, properties, i))
  }

  lemma {:induction false} TargetsCoverSkip(elems: seq<Str>, fields: MemberNames, properties: MemberNames, acc: Table, i: nat, j: nat, tbl: Table)
    requires j < |elems| && PairTarget(elems[j], fields, properties).None?
    requires TargetsCover(elems, fields, properties, acc, i, j, tbl)
    ensures TargetsCover(elems, fields, properties, acc, i, j + 2, tbl)
  {
    assert TargetNames(elems, fields, properties, j) == [] + TargetNames(elems, fields, properties, j + 2);
  }

  lemma {:induction false} TargetsCoverPut(elems: seq<Str>, fields: MemberNames, properties: MemberNames, acc: Table, i: nat, j: nat, tbl: Table, v: Value)
    requires j < |elems| && PairTarget(elems[j], fields, properties).Some?
    requires TargetsCover(elems, fields, properties, acc, i, j, tbl)
    ensures TargetsCover(elems, fields, properties, acc, i, j + 2, Put(tbl, PairTarget(elems[j], fields, properties).value.name, v))
  {
    var name := PairTarget(elems[j], fields, properties).value.name;
    PutKeys(tbl, name, v);
    assert TargetNames(elems, fields, properties, j) == [name] + TargetNames(elems, fields, properties, j + 2);
  }

  lemma {:induction false} TargetsCoverEnd(elems: seq<Str>, fields: MemberNames, properties: MemberNames, acc: Table, i: nat, tbl: Table)
    requires TargetsCover(elems, fields, properties, acc, i, |elems|, tbl)
    ensures forall k :: k in Keys(tbl) <==> k in Keys(acc) || k in TargetNames(elems, fields, properties, i)
  {
    assert TargetNames(elems, fields, properties, |elems|) == [];
  }

  /** A member the legacy reader may set on an instance of `t`: a public field, or a public writable property, not ignored. */
  predicate Settable(schema: Schema, t: TypeDesc, name: Str) {
    (exists m :: m in FieldsOf(schema, t) && !m.legacy.ignoreDataMember && m.name == name)
    || (exists m :: m in PropertiesOf(schema, t) && m.canWrite && !m.legacy.ignoreDataMember && m.name == name)
  }

  /** The member a key names is a field of the field table, or else a writable property of the property table. */
  lemma {:induction false} PairTargetSettable(schema: Schema, t: TypeDesc, piece: Str)
    ensures var r := PairTarget(piece, Named(FieldsOf(schema, t)), Named(PropertiesOf(schema, t)));
      r.Some? ==> Settable(schema, t, r.value.name)
  {
    if |piece| > 2 {
      var key := Reader.Interior(piece);
      NamedFound(FieldsOf(schema, t), key);
      NamedFound(PropertiesOf(schema, t), key);
    }
  }

  /** A member found by name in the table built from `ms` is one of `ms` that is not ignored. */
  lemma {:induction false} NamedFound(ms: seq<MemberDesc>, key: Str)
    ensures var f := FindName(Named(ms), key);
      f.Some? ==> f.value in ms && !f.value.legacy.ignoreDataMember
  {
    var table := Named(ms);
    var f := FindName(table, key);
    if f.Some? {
      NamedMembers(ms);
      var k :| 0 <= k < |table| && table[k].1 == f.value && SameIgnoringCase(table[k].0, key);
      assert table[k] in table;
    }
  }

  lemma {:induction false} TargetNamesSettable(schema: Schema, t: TypeDesc, elems: seq<Str>, i: nat)
    requires |elems| % 2 == 0 && i % 2 == 0 && i <= |elems|
    ensures forall k :: k in TargetNames(elems, Named(FieldsOf(schema, t)), Named(PropertiesOf(schema, t)), i) ==> Settable(schema, t, k)
    decreases |elems| - i
  {
    if i < |elems| {
      Reader.NextPair(i, |elems|);
      PairTargetSettable(schema, t, elems[i]);
      TargetNamesSettable(schema, t, elems, i + 2);
    }
  }

  /**
    `ParseObject` on a braced text: a blank instance of `t` when the pieces do not pair up; a
    duplicate-name fault when the fields or the properties read clash ignoring case; otherwise an
    instance of `t` whose member names are distinct and each a settable member of `t`.
   */
  lemma {:induction false} ReadObjectSetsMembers(ctx: LegacyContext, t: TypeDesc, json: Str)
    requires |json| >= 1
    ensures Split(json, true).None? ==> ReadObject(ctx, t, json) == Err(Reader.IndexOutOfRange)
    ensures Split(json, true).Some? ==>
      var elems := Split(json, true).value;
      var r := ReadObject(ctx, t, json);
      (|elems| % 2 != 0 ==> r == Ok(Record(t, [])))
      && (|elems| % 2 == 0 && !ClashFree(Named(FieldsOf(ctx.schema, t))) ==> r.Err? && r.error.DuplicateKey?)
      && (|elems| % 2 == 0 && ClashFree(Named(FieldsOf(ctx.schema, t))) && !ClashFree(Named(PropertiesOf(ctx.schema, t)))
          ==> r.Err? && r.error.DuplicateKey?)
      && (r.Ok? ==> (r.value.Record? && r.value.t == t && DistinctKeys(r.value.slots)
          && forall k :: k in Keys(r.value.slots) ==> Settable(ctx.schema, t, k)))
  {
    MemberNameTableSpec(FieldsOf(ctx.schema, t));
    MemberNameTableSpec(PropertiesOf(ctx.schema, t));
    if Split(json, true).Some? {
      var elems := Split(json, true).value;
      SplitPiecesShorter(json, true);
      if |elems| % 2 == 0 && MemberNameTable(FieldsOf(ctx.schema, t)).Ok? && MemberNameTable(PropertiesOf(ctx.schema, t)).Ok? {
        var fields := Named(FieldsOf(ctx.schema, t));
        var properties := Named(PropertiesOf(ctx.schema, t));
        ObjectSlotsKeys(ctx, json, elems, fields, properties, 0, []);
        TargetNamesSettable(ctx.schema, t, elems, 0);
      }
    }
  }

  // ---------------------------------------------------------------------------------------------
  // The untyped reader

  /** Escaping leaves alone a string none of whose units needs escaping. */
  lemma {:induction false} EscapePlain(s: Str)
    requires forall k :: 0 <= k < |s| ==> EscapeUnit(s[k]) == [s[k]]
    ensures Escape(s) == s && forall k :: 0 <= k < |s| ==> s[k] != BACKSLASH && s[k] != QUOTE
    decreases |s|
  {
    if s != [] {
      EscapePlain(s[1..]);
      assert [s[0]] + s[1..] == s;
    }
  }

  lemma {:induction false} RemoveBackslashesPlain(s: Str)
    requires forall k :: 0 <= k < |s| ==> s[k] != BACKSLASH
    ensures RemoveBackslashes(s) == s
    decreases |s|
  {
    if s != [] {
      RemoveBackslashesPlain(s[1..]);
      assert [s[0]] + s[1..] == s;
    }
  }

  /**
    Read untyped, a written string comes back only when none of its units needs escaping: the
    reader deletes backslashes instead of decoding escapes, so a written line feed comes back as `n`.
   */
  lemma {:induction false} UntypedStringReads(h: LegacyHost, hw: Host, schema: Schema, s: Str)
    requires forall k :: 0 <= k < |s| ==> EscapeUnit(s[k]) == [s[k]]
    ensures UntypedValue(h, LegacyWriter.Json(hw, schema, Text(s))) == Ok(Text(s))
  {
    EscapePlain(s);
    RemoveBackslashesPlain(s);
    var w := LegacyWriter.Json(hw, schema, Text(s));
    assert w == [QUOTE] + s + [QUOTE];
    assert Reader.Interior(w) == s;
  }

  /** A written line feed, read untyped, comes back as the letter `n`. */
  lemma {:induction false} UntypedLineFeedReads(h: LegacyHost, hw: Host, schema: Schema)
    ensures UntypedValue(h, LegacyWriter.Json(hw, schema, Text([LF]))) == Ok(Text([LETTER_N]))
  {
    var w := LegacyWriter.Json(hw, schema, Text([LF]));
    assert w == [QUOTE] + Escape([LF]) + [QUOTE];
    RemoveBackslashesLosesLineFeed();
    assert Reader.Interior(w) == Escape([LF]);
  }

  /** A 32-bit integer the legacy writer wrote reads back untyped as that `int`. */
  lemma {:induction false} UntypedIntegerRoundTrip(h: LegacyHost, hw: Host, schema: Schema, t: TypeDesc, n: int)
    requires Int32Min <= n <= Int32Max
    ensures UntypedValue(h, LegacyWriter.Json(hw, schema, Integral(t, n))) == Ok(Integral(Int32Type, n))
  {
    var w := DecimalString(n);
    var d := if n < 0 then Digits(-n) else Digits(n);
    assert forall k :: 0 <= k < |w| ==> w[k] == MINUS || IsAsciiDigit(w[k]) by {
      forall k | 0 <= k < |w| ensures w[k] == MINUS || IsAsciiDigit(w[k]) {
        if n < 0 && k > 0 { assert w[k] == d[k - 1]; }
      }
    }
    assert DOT !in w;
    assert IsAsciiDigit(w[0]) ==> IsDigit(w[0]) by {
      assert DigitBlocks[0] == 0x30;
    }
    ParseInt32OfDecimal(n);
  }

  // ---------------------------------------------------------------------------------------------
  // Enums and built-in types

  /** An enum name reads the same quoted (as the writer writes it with `G9JsonEnumAsString`) or bare. */
  lemma {:induction false} EnumQuotesIgnored(h: LegacyHost, t: TypeDesc, name: Str)
    requires name != [] && name[0] != QUOTE
    ensures ReadEnum(h, t, Writer.Quote(name)) == ReadEnum(h, t, name)
  {
    assert Reader.Interior(Writer.Quote(name)) == name;
  }

  lemma {:induction false} RemoveQuotesAppend(a: Str, b: Str)
    ensures RemoveQuotes(a + b) == RemoveQuotes(a) + RemoveQuotes(b)
    decreases |a|
  {
    if a != [] {
      RemoveQuotesAppend(a[1..], b);
      assert (a + b)[1..] == a[1..] + b;
    } else {
      assert a + b == b;
    }
  }

  /**
    A `DateTime` or `TimeSpan` the legacy writer wrote as a quoted token is parsed from the bare
    token: the quotes are removed before `TryParse`.
   */
  lemma {:induction false} BuiltInQuotesDropped(ctx: LegacyContext, h: Host, schema: Schema, t: TypeDesc, token: Str)
    requires t == DateTimeType || t == TimeSpanType
    requires forall k :: 0 <= k < |token| ==> token[k] != QUOTE
    ensures ReadValue(ctx, t, LegacyWriter.Json(h, schema, Other(t, token))) == Ok(ctx.host.tryParse(token, t))
  {
    var w := LegacyWriter.Json(h, schema, Other(t, token));
    assert w == [QUOTE] + token + [QUOTE];
    QuotedTokenBare(token);
    assert t != TString && !IsPrimitive(t) && t != DecimalType;
  }

  /** Removing the quotes from a quoted token without quotes gives the token. */
  lemma {:induction false} QuotedTokenBare(token: Str)
    requires forall k :: 0 <= k < |token| ==> token[k] != QUOTE
    ensures RemoveQuotes([QUOTE] + token + [QUOTE]) == token
  {
    RemoveQuotesAppend([QUOTE] + token, [QUOTE]);
    RemoveQuotesAppend([QUOTE], token);
    assert RemoveQuotes([QUOTE]) == [] by {
      assert [QUOTE][1..] == [];
    }
    RemoveQuotesPlain(token);
    assert RemoveQuotes([QUOTE] + token) == [] + token == token;
    assert RemoveQuotes([QUOTE] + token + [QUOTE]) == token + [];
  }

  lemma {:induction false} RemoveQuotesPlain(s: Str)
    requires forall k :: 0 <= k < |s| ==> s[k] != QUOTE
    ensures RemoveQuotes(s) == s
    decreases |s|
  {
    if s != [] {
      RemoveQuotesPlain(s[1..]);
      assert [s[0]] + s[1..] == s;
    }
  }
}

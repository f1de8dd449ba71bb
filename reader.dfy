/**
  The reader of `G9JsonParser`: `ParsePureJsonData` dispatches on the target type,
  `ParsingAnonymousValue` guesses a value for an untyped token, and `ParseObject` fills a fresh
  instance of a user type from the key-value pieces of an object span. Every exception the
  source lets escape is a `Fault`; the ones `ParseObject` catches and rethrows carry the fault
  they wrap.
 */
module Reader {
  import opened Wrappers
  import opened Text
  import opened Values
  import opened JsonScanner
  import opened Escaping
  import opened MemberParserAttribute

  datatype Fault =
    | IndexOutOfRange                  // a string or array index past the end (`json[0]` of "", `json[i + 1]`)
    | ArgumentOutOfRange               // a list index past the end, or `Substring` with a negative length
    | NullReference                    // a member parser attribute without the method it is asked to call
    | DuplicateKey(key: Str)           // `Dictionary.Add` of a member name that is already there
    | NullElementRefused               // ArgumentNullException: `IList.Add` or the `IDictionary` indexer handed null for a value type
    | HostFault(message: Str)          // an exception thrown by a host call
    | TypeParserFailed(parser: Str, json: Str, typeName: Str, inner: Fault)
    | MemberTypeParserFailed(parser: Str, value: Str, member: Str, typeName: Str, inner: Fault)
    | MemberParserFailed(value: Str, member: Str, typeName: Str, inner: Fault)
    | DefaultParserFailed(value: Str, member: Str, typeName: Str, inner: Fault)

  /** A fault that `ParseObject` raised in its `catch` block. */
  predicate Rethrown(f: Fault) {
    f.TypeParserFailed? || f.MemberTypeParserFailed? || f.MemberParserFailed? || f.DefaultParserFailed?
  }

  /**
    AES decryption of base64 text returns fewer code units than it is given: the cipher text is at
    least one block longer than the UTF-8 bytes of the plain text, and base64 adds a third again.
   */
  ghost predicate DecryptShrinks(h: Host) {
    forall s: Str, m: MemberDesc :: h.decrypt(s, m).Ok? ==> |h.decrypt(s, m).value| < |s|
  }

  type ReaderHost = h: Host | DecryptShrinks(h) witness InertHost

  /**
    What the reader works with: its configuration, the user types, the registered custom type
    parsers (each target's lookup key, with the runtime name of its parser) and the host.
   */
  datatype Context = Context(config: ParserConfig, schema: Schema, parsers: Option<map<TypeDesc, Str>>, host: ReaderHost)

  /** `CustomParserCollection != null && CustomParserCollection.ContainsKey(key of t)`. */
  predicate Registered(ctx: Context, t: TypeDesc) {
    ctx.parsers.Some? && LookupKey(t) in ctx.parsers.value
  }

  function ParserName(ctx: Context, t: TypeDesc): Str
    requires Registered(ctx, t)
  {
    ctx.parsers.value[LookupKey(t)]
  }

  const NullToken: Str := Lit("null")
  const TrueToken: Str := Lit("true")
  const FalseToken: Str := Lit("false")
  const ListKey: Str := Lit("List")
  const ValueKey: Str := Lit("Value")

  /** The type of what `ParsingAnonymousValue` builds for an object span and for an array span. */
  const AnonymousDictType: TypeDesc := TDict(TString, TObject)
  const ObjectListType: TypeDesc := TList(TObject)

  predicate Braced(json: Str) { |json| > 0 && json[0] == LBRACE && json[|json| - 1] == RBRACE }
  predicate Bracketed(json: Str) { |json| > 0 && json[0] == LBRACKET && json[|json| - 1] == RBRACKET }

  /** The exception `TrimStringSign` throws: an index on the empty string, a negative length on a lone `"`. */
  function TrimFault(value: Str): Fault {
    if value == [] then IndexOutOfRange else ArgumentOutOfRange
  }

  /** `Splitter`, whose unguarded read past a final backslash is an index exception, with the pieces bounded. */
  function SplitPieces(json: Str, keep: bool): (r: Result<seq<Str>, Fault>)
    requires |json| >= 1
    ensures r.Ok? <==> Split(json, keep).Some?
    ensures r.Ok? ==> Split(json, keep).value == r.value && forall k :: 0 <= k < |r.value| ==> |r.value[k]| < |json|
    ensures r.Err? ==> r.error == IndexOutOfRange
  {
    SplitPiecesShorter(json, keep);
    match Split(json, keep)
    case None => Err(IndexOutOfRange)
    case Some(p) => Ok(p)
  }

  /** The piece between the first and the last code unit: `Substring(1, Length - 2)`. */
  function Interior(p: Str): Str
    requires |p| >= 2
  {
    p[1..|p| - 1]
  }

  // ---------------------------------------------------------------------------------------------
  // `ParsingAnonymousValue`

  /**
    The value of an untyped token: an object span becomes a `Dictionary<string, object>` (null
    when its pieces cannot pair up), an array span a `List<object>`, a quoted token its unescaped
    interior, a token starting with a digit or `-` a double when it holds a `.` and otherwise
    an `int` (0 when `int.TryParse` fails), `true` and `false` booleans, and anything else null.
   */
  function AnonymousValue(host: Host, json: Str): (r: Result<Value, Fault>)
    decreases |json|, 1
  {
    if json == [] then Ok(Null)
    else if Braced(json) then
      match SplitPieces(json, true)
      case Err(e) => Err(e)
      case Ok(elems) =>
        if |elems| % 2 != 0 then Ok(Null)
        else
          match AnonymousPairs(host, json, elems, 0, [])
          case Err(e) => Err(e)
          case Ok(table) => Ok(Entries(AnonymousDictType, table))
    else if Bracketed(json) then
      match SplitPieces(json, true)
      case Err(e) => Err(e)
      case Ok(elems) =>
        match AnonymousItems(host, json, elems, 0)
        case Err(e) => Err(e)
        case Ok(vs) => Ok(Items(ObjectListType, vs))
    else if json[0] == QUOTE && json[|json| - 1] == QUOTE then
      if |json| < 2 then Err(ArgumentOutOfRange) else Ok(Text(Unescape(Interior(json))))
    else if IsDigit(json[0]) || json[0] == MINUS then
      if DOT in json then Ok(host.parseDouble(json))
      else Ok(Integral(Int32Type, match ParseInt32(json) case Some(n) => n case None => 0))
    else if json == TrueToken then Ok(Boolean(true))
    else if json == FalseToken then Ok(Boolean(false))
    else Ok(Null)
  }

  /** The dictionary loop: each key piece's interior mapped to the value of the piece after it. */
  function AnonymousPairs(host: Host, json: Str, elems: seq<Str>, i: nat, acc: Table): (r: Result<Table, Fault>)
    requires |elems| % 2 == 0 && i % 2 == 0 && i <= |elems|
    requires forall k :: 0 <= k < |elems| ==> |elems[k]| < |json|
    decreases |json|, 0, |elems| - i
  {
    if i == |elems| then Ok(acc)
    else if |elems[i]| < 2 then Err(ArgumentOutOfRange)
    else
      match AnonymousValue(host, elems[i + 1])
      case Err(e) => Err(e)
      case Ok(v) => AnonymousPairs(host, json, elems, i + 2, Put(acc, Interior(elems[i]), v))
  }

  function AnonymousItems(host: Host, json: Str, elems: seq<Str>, i: nat): (r: Result<seq<Value>, Fault>)
    requires i <= |elems|
    requires forall k :: 0 <= k < |elems| ==> |elems[k]| < |json|
    decreases |json|, 0, |elems| - i
  {
    if i == |elems| then Ok([])
    else
      match AnonymousValue(host, elems[i])
      case Err(e) => Err(e)
      case Ok(v) =>
        match AnonymousItems(host, json, elems, i + 1)
        case Err(e) => Err(e)
        case Ok(vs) => Ok([v] + vs)
  }

  // ---------------------------------------------------------------------------------------------
  // `ParsePureJsonData`

  /**
    The value of `json` as a `t`: `null` for every type; the dynamic shapes for `G9CDynamicObject`,
    `ExpandoObject` and `object`; a conversion for enums and built-in types; one element per piece
    for arrays and lists; string-keyed dictionaries; and `ParseObject` for an object span or a
    type with a registered parser. Anything else is null.
   */
  function ParsePure(ctx: Context, t: TypeDesc, json: Str): (r: Result<Value, Fault>)
    decreases |json|, 4
  {
    if json == NullToken then Ok(Null)
    else if t.TDynamic? || t.TExpando? || t.TObject? then ParseUntyped(ctx, t, json)
    else if IsScalar(t) then ParseScalar(ctx, t, json)
    else if t.TArray? || t.TList? then ParseSequence(ctx, t, json)
    else if t.TDict? then ParseDictionary(ctx, t, json)
    else if json == [] then Err(IndexOutOfRange)
    else if Braced(json) || Registered(ctx, t) then ReadObject(ctx, t, json)
    else Ok(Null)
  }

  /** `SmartChangeType(PrepareStringType(TrimStringSign(json)), type)`; a string converts to itself. */
  function ParseScalar(ctx: Context, t: TypeDesc, json: Str): (r: Result<Value, Fault>) {
    match TrimStringSign(json)
    case None => Err(TrimFault(json))
    case Some(s) =>
      var text := Unescape(s);
      if t.TString? then Ok(Text(text))
      else
        match ctx.host.changeType(text, t)
        case Ok(v) => Ok(v)
        case Err(m) => Err(HostFault(m))
  }

  /** A dynamic or expando object holding one entry. */
  function Wrapped(t: TypeDesc, key: Str, v: Value): Value {
    if t.TExpando? then Expando([(key, v)]) else Dynamic([(key, v)])
  }

  /**
    `ParseDynamicObject`, `ParseExpandoObject` and the `object` branch: an object span becomes a
    dynamic (or expando) object, an array span a `List<object>` (wrapped under "List" for the
    two dynamic types), and any other token its anonymous value (wrapped under "Value").
   */
  function ParseUntyped(ctx: Context, t: TypeDesc, json: Str): (r: Result<Value, Fault>)
    decreases |json|, 3
  {
    if json == [] then Err(IndexOutOfRange)
    else if Braced(json) then
      match SplitPieces(json, true)
      case Err(e) => Err(e)
      case Ok(elems) =>
        match DynamicPairs(ctx, json, elems, 0, [])
        case Err(e) => Err(e)
        case Ok(table) => Ok(if t.TExpando? then Expando(table) else Dynamic(table))
    else if Bracketed(json) then
      match SplitPieces(json, true)
      case Err(e) => Err(e)
      case Ok(elems) =>
        match Elements(ctx, TObject, false, json, elems, 0)
        case Err(e) => Err(e)
        case Ok(vs) => Ok(if t.TObject? then Items(ObjectListType, vs) else Wrapped(t, ListKey, Items(ObjectListType, vs)))
    else
      match AnonymousValue(ctx.host, json)
      case Err(e) => Err(e)
      case Ok(v) => Ok(if t.TObject? then v else Wrapped(t, ValueKey, v))
  }

  /**
    The key-value loop of the dynamic shapes, which steps by two without checking that the
    pieces pair up: a key piece shorter than two code units, or a missing value piece, throws.
   */
  function DynamicPairs(ctx: Context, json: Str, elems: seq<Str>, i: nat, acc: Table): (r: Result<Table, Fault>)
    requires i <= |elems|
    requires forall k :: 0 <= k < |elems| ==> |elems[k]| < |json|
    decreases |json|, 2, |elems| - i
  {
    if i == |elems| then Ok(acc)
    else if |elems[i]| < 2 || i + 1 == |elems| then Err(ArgumentOutOfRange)
    else
      match ParsePure(ctx, TObject, elems[i + 1])
      case Err(e) => Err(e)
      case Ok(v) => DynamicPairs(ctx, json, elems, i + 2, Put(acc, Interior(elems[i]), v))
  }

  /**
    What a collection keeps of an element it is handed: `Array.SetValue` stores `default(T)` for
    null in an array of a value type, while `IList.Add` and the `IDictionary` indexer throw for
    it; anything else is kept as it is. A collection of a value type never holds null.
   */
  function Store(schema: Schema, intoArray: bool, et: TypeDesc, v: Value): (r: Result<Value, Fault>)
    ensures r.Err? <==> v == Null && IsValueType(schema, et) && !intoArray
    ensures r.Err? ==> r.error == NullElementRefused
    ensures r.Ok? && IsValueType(schema, et) ==> r.value != Null
    ensures r.Ok? && v != Null ==> r.value == v
  {
    if v != Null || !IsValueType(schema, et) then Ok(v)
    else if intoArray then Ok(ZeroValue(et))
    else Err(NullElementRefused)
  }

  /** One element of an array (`intoArray`), a list or a dictionary: the piece parsed as the element type, then stored. */
  function ElementOf(ctx: Context, et: TypeDesc, intoArray: bool, piece: Str): (r: Result<Value, Fault>)
    ensures r.Ok? && IsValueType(ctx.schema, et) ==> r.value != Null
    decreases |piece|, 5
  {
    match ParsePure(ctx, et, piece)
    case Err(e) => Err(e)
    case Ok(v) => Store(ctx.schema, intoArray, et, v)
  }

  /** One element per piece, in order. */
  function Elements(ctx: Context, et: TypeDesc, intoArray: bool, json: Str, elems: seq<Str>, i: nat): (r: Result<seq<Value>, Fault>)
    requires i <= |elems|
    requires forall k :: 0 <= k < |elems| ==> |elems[k]| < |json|
    decreases |json|, 2, |elems| - i
  {
    if i == |elems| then Ok([])
    else
      match ElementOf(ctx, et, intoArray, elems[i])
      case Err(e) => Err(e)
      case Ok(v) =>
        match Elements(ctx, et, intoArray, json, elems, i + 1)
        case Err(e) => Err(e)
        case Ok(vs) => Ok([v] + vs)
  }

  /** Arrays and `List<T>`: null unless the span is bracketed, else one element per piece. */
  function ParseSequence(ctx: Context, t: TypeDesc, json: Str): (r: Result<Value, Fault>)
    requires t.TArray? || t.TList?
    decreases |json|, 3
  {
    if json == [] then Err(IndexOutOfRange)
    else if !Bracketed(json) then Ok(Null)
    else
      match SplitPieces(json, true)
      case Err(e) => Err(e)
      case Ok(elems) =>
        match Elements(ctx, t.elem, t.TArray?, json, elems, 0)
        case Err(e) => Err(e)
        case Ok(vs) => Ok(Items(t, vs))
  }

  /**
    `Dictionary<K, V>`: null for a key type other than string, a span that is not braced, or
    pieces (split with escapes dropped) that do not pair up; key pieces of two code units or
    fewer are skipped.
   */
  function ParseDictionary(ctx: Context, t: TypeDesc, json: Str): (r: Result<Value, Fault>)
    requires t.TDict?
    decreases |json|, 3
  {
    if t.key != TString then Ok(Null)
    else if json == [] then Err(IndexOutOfRange)
    else if !Braced(json) then Ok(Null)
    else
      match SplitPieces(json, false)
      case Err(e) => Err(e)
      case Ok(elems) =>
        if |elems| % 2 != 0 then Ok(Null)
        else
          match DictionaryPairs(ctx, t.value, json, elems, 0, [])
          case Err(e) => Err(e)
          case Ok(table) => Ok(Entries(t, table))
  }

  function DictionaryPairs(ctx: Context, vt: TypeDesc, json: Str, elems: seq<Str>, i: nat, acc: Table): (r: Result<Table, Fault>)
    requires |elems| % 2 == 0 && i % 2 == 0 && i <= |elems|
    requires forall k :: 0 <= k < |elems| ==> |elems[k]| < |json|
    decreases |json|, 2, |elems| - i
  {
    if i == |elems| then Ok(acc)
    else if |elems[i]| <= 2 then NextPair(i, |elems|); DictionaryPairs(ctx, vt, json, elems, i + 2, acc)
    else
      NextPair(i, |elems|);
      match ElementOf(ctx, vt, false, elems[i + 1])
      case Err(e) => Err(e)
      case Ok(v) => DictionaryPairs(ctx, vt, json, elems, i + 2, Put(acc, Interior(elems[i]), v))
  }

  // ---------------------------------------------------------------------------------------------
  // `ParseObject`

  /** The properties `ParseObject` may set: accessible, writable and without the ignore attribute. */
  function SettableProperties(a: Accessibility, ms: seq<MemberDesc>): (r: seq<MemberDesc>)
    ensures forall k :: 0 <= k < |r| ==> r[k] in ms && Accessible(a, r[k]) && r[k].canWrite && !r[k].ignored
  {
    if ms == [] then []
    else (if Accessible(a, ms[0]) && ms[0].canWrite && !ms[0].ignored then [ms[0]] else []) + SettableProperties(a, ms[1..])
  }

  /** The members `ParseObject` indexes: accessible fields without the ignore attribute, then such properties that can be written. */
  function IndexedMembers(ctx: Context, t: TypeDesc): seq<MemberDesc> {
    var d := RecordOf(ctx.schema, t);
    ListedFields(ctx.config.accessible, d.fields) + SettableProperties(ctx.config.accessible, d.properties)
  }

  /** No two members share a key, compared as `OrdinalIgnoreCase` compares. */
  predicate DistinctNames(ms: seq<MemberDesc>) {
    forall i, j :: 0 <= i < j < |ms| ==> !SameIgnoringCase(JsonName(ms[i]), JsonName(ms[j]))
  }

  /** Whether the member's key is already in the index built from `ms`. */
  predicate NameTaken(ms: seq<MemberDesc>, m: MemberDesc) {
    exists k :: 0 <= k < |ms| && SameIgnoringCase(JsonName(ms[k]), JsonName(m))
  }

  /** `CreateDictionaryOfMembers` from the `i`th member on: `Add` throws on the first key already present. */
  function IndexFrom(ms: seq<MemberDesc>, i: nat): (r: Result<seq<MemberDesc>, Fault>)
    requires i <= |ms|
    decreases |ms| - i
  {
    if i == |ms| then Ok(ms)
    else if NameTaken(ms[..i], ms[i]) then Err(DuplicateKey(JsonName(ms[i])))
    else IndexFrom(ms, i + 1)
  }

  /** The index fails only on a duplicate key. */
  lemma {:induction false} IndexFromFault(ms: seq<MemberDesc>, i: nat)
    requires i <= |ms|
    ensures IndexFrom(ms, i).Err? ==> IndexFrom(ms, i).error.DuplicateKey?
    decreases |ms| - i
  {
    if i < |ms| && !NameTaken(ms[..i], ms[i]) {
      IndexFromFault(ms, i + 1);
    }
  }

  function MemberIndex(ms: seq<MemberDesc>): Result<seq<MemberDesc>, Fault> {
    IndexFrom(ms, 0)
  }

  /** The declared names of the members, in order. */
  function Names(ms: seq<MemberDesc>): (r: seq<Str>)
    ensures |r| == |ms| && forall k :: 0 <= k < |ms| ==> r[k] == ms[k].name
  {
    if ms == [] then [] else [ms[0].name] + Names(ms[1..])
  }

  /** `TryGetValue` on the case-insensitive index: the member whose key matches. */
  function Find(ms: seq<MemberDesc>, key: Str): (r: Option<MemberDesc>)
    ensures r.Some? ==> r.value in ms && SameIgnoringCase(JsonName(r.value), key)
    ensures r.None? <==> forall k :: 0 <= k < |ms| ==> !SameIgnoringCase(JsonName(ms[k]), key)
  {
    if ms == [] then None
    else if SameIgnoringCase(JsonName(ms[0]), key) then Some(ms[0])
    else Find(ms[1..], key)
  }

  /** The `try` block of a registered type: the parser's `Item1` applied to the first piece, trimmed. */
  function RegistryAttempt(ctx: Context, t: TypeDesc, elems: seq<Str>): Result<Value, Fault> {
    if elems == [] then Err(ArgumentOutOfRange)
    else
      match TrimStringSign(elems[0])
      case None => Err(TrimFault(elems[0]))
      case Some(s) =>
        match ctx.host.registryToObject(t, s, None)
        case Ok(v) => Ok(v)
        case Err(m) => Err(HostFault(m))
  }

  /**
    A registered type's object: in the `catch` block the uninitialized instance is returned when
    mismatches are ignored, and otherwise a fault naming the parser, the span and the type is thrown.
   */
  function RegistryObject(ctx: Context, t: TypeDesc, json: Str, elems: seq<Str>): (r: Result<Value, Fault>)
    requires Registered(ctx, t)
    ensures RegistryAttempt(ctx, t, elems).Ok? ==> r == RegistryAttempt(ctx, t, elems)
    ensures r.Err? <==> RegistryAttempt(ctx, t, elems).Err? && !ctx.config.ignoreMismatching
    ensures r.Err? ==> r.error == TypeParserFailed(ParserName(ctx, t), json, TypeName(t), RegistryAttempt(ctx, t, elems).error)
  {
    var attempt := RegistryAttempt(ctx, t, elems);
    if attempt.Ok? then attempt
    else if ctx.config.ignoreMismatching then Ok(Record(t, []))
    else Err(TypeParserFailed(ParserName(ctx, t), json, TypeName(t), attempt.error))
  }

  /**
    `ParseObject`: the registered parser when there is one; otherwise an uninitialized instance,
    left blank when the pieces do not pair up, whose members are set from the pairs.
   */
  function ReadObject(ctx: Context, t: TypeDesc, json: Str): (r: Result<Value, Fault>)
    requires |json| >= 1
    decreases |json|, 3
  {
    match SplitPieces(json, true)
    case Err(e) => Err(e)
    case Ok(elems) =>
      if Registered(ctx, t) then RegistryObject(ctx, t, json, elems)
      else if |elems| % 2 != 0 then Ok(Record(t, []))
      else
        match MemberIndex(IndexedMembers(ctx, t))
        case Err(e) => Err(e)
        case Ok(members) =>
          match Slots(ctx, t, json, elems, members, 0, [])
          case Err(e) => Err(e)
          case Ok(slots) => Ok(Record(t, slots))
  }

  /** The member loop from the pair at `i` on, with the members set so far in `acc`. */
  function Slots(ctx: Context, t: TypeDesc, json: Str, elems: seq<Str>, members: seq<MemberDesc>, i: nat, acc: Table)
    : Result<Table, Fault>
    requires |elems| % 2 == 0 && i % 2 == 0 && i <= |elems|
    requires forall k :: 0 <= k < |elems| ==> |elems[k]| < |json|
    decreases |json|, 2, |elems| - i
  {
    if i == |elems| then Ok(acc)
    else
      NextPair(i, |elems|);
      match SlotStep(ctx, t, json, elems, members, i)
      case Err(e) => Err(e)
      case Ok(None) => Slots(ctx, t, json, elems, members, i + 2, acc)
      case Ok(Some((name, v))) => Slots(ctx, t, json, elems, members, i + 2, Put(acc, name, v))
  }

  /**
    The member loop keeps the keys distinct, sets only members of the type, and with mismatches
    ignored fails only outside the `try` block.
   */
  lemma {:induction false} SlotsFacts(ctx: Context, t: TypeDesc, json: Str, elems: seq<Str>, members: seq<MemberDesc>, i: nat, acc: Table)
    requires |elems| % 2 == 0 && i % 2 == 0 && i <= |elems|
    requires forall k :: 0 <= k < |elems| ==> |elems[k]| < |json|
    ensures var r := Slots(ctx, t, json, elems, members, i, acc);
      (r.Ok? && DistinctKeys(acc) ==> DistinctKeys(r.value)) &&
      (r.Ok? ==> forall k :: k in Keys(r.value) ==> k in Keys(acc) || k in Names(members)) &&
      (r.Err? && ctx.config.ignoreMismatching ==>
        r.error == IndexOutOfRange || r.error == ArgumentOutOfRange || r.error.HostFault?)
  {
    if DistinctKeys(acc) {
      SlotsDistinct(ctx, t, json, elems, members, i, acc);
    }
    SlotsNamed(ctx, t, json, elems, members, i, acc);
    SlotsFaults(ctx, t, json, elems, members, i, acc);
  }

  /** The pair index moves on by two and stays within an even-length piece list. */
  lemma {:induction false} NextPair(i: nat, n: nat)
    requires i % 2 == 0 && n % 2 == 0 && i < n
    ensures (i + 2) % 2 == 0 && i + 2 <= n
  {
  }

  /** Any property of the table that setting a member of the type keeps is kept by the member loop. */
  lemma {:induction false} SlotsPreserve(P: Table -> bool, ctx: Context, t: TypeDesc, json: Str, elems: seq<Str>, members: seq<MemberDesc>, i: nat, acc: Table)
    requires |elems| % 2 == 0 && i % 2 == 0 && i <= |elems|
    requires forall k :: 0 <= k < |elems| ==> |elems[k]| < |json|
    requires P(acc)
    requires forall tbl, name, v :: P(tbl) && name in Names(members) ==> P(Put(tbl, name, v))
    ensures var r := Slots(ctx, t, json, elems, members, i, acc);
      r.Ok? ==> P(r.value)
    decreases |elems| - i
  {
    if i < |elems| {
      var step := SlotsUnfold(ctx, t, json, elems, members, i, acc);
      if step.Ok? && step.value.None? {
        SlotsPreserve(P, ctx, t, json, elems, members, i + 2, acc);
      } else if step.Ok? {
        var next := Put(acc, step.value.value.0, step.value.value.1);
        assert P(next);
        SlotsPreserve(P, ctx, t, json, elems, members, i + 2, next);
      }
    }
  }

  /** Proof plumbing: one pass of the member loop, unfolded once, with the pass's outcome returned. */
  lemma {:induction false} SlotsUnfold(ctx: Context, t: TypeDesc, json: Str, elems: seq<Str>, members: seq<MemberDesc>, i: nat, acc: Table)
    returns (step: Result<Option<(Str, Value)>, Fault>)
    requires |elems| % 2 == 0 && i % 2 == 0 && i < |elems|
    requires forall k :: 0 <= k < |elems| ==> |elems[k]| < |json|
    ensures i + 2 <= |elems| && (i + 2) % 2 == 0
    ensures step.Err? ==> Slots(ctx, t, json, elems, members, i, acc) == Err(step.error)
    ensures step.Ok? && step.value.None? ==> Slots(ctx, t, json, elems, members, i, acc) == Slots(ctx, t, json, elems, members, i + 2, acc)
    ensures step.Ok? && step.value.Some? ==>
              step.value.value.0 in Names(members) &&
              Slots(ctx, t, json, elems, members, i, acc) == Slots(ctx, t, json, elems, members, i + 2, Put(acc, step.value.value.0, step.value.value.1))
  {
    NextPair(i, |elems|);
    step := SlotStep(ctx, t, json, elems, members, i);
  }

  lemma {:induction false} SlotsDistinct(ctx: Context, t: TypeDesc, json: Str, elems: seq<Str>, members: seq<MemberDesc>, i: nat, acc: Table)
    requires |elems| % 2 == 0 && i % 2 == 0 && i <= |elems|
    requires forall k :: 0 <= k < |elems| ==> |elems[k]| < |json|
    requires DistinctKeys(acc)
    ensures var r := Slots(ctx, t, json, elems, members, i, acc);
      r.Ok? ==> DistinctKeys(r.value)
  {
    forall tbl, name, v | DistinctKeys(tbl) && name in Names(members)
      ensures DistinctKeys(Put(tbl, name, v))
    {
      PutKeys(tbl, name, v);
    }
    SlotsPreserve(DistinctKeys, ctx, t, json, elems, members, i, acc);
  }

  lemma {:induction false} SlotsNamed(ctx: Context, t: TypeDesc, json: Str, elems: seq<Str>, members: seq<MemberDesc>, i: nat, acc: Table)
    requires |elems| % 2 == 0 && i % 2 == 0 && i <= |elems|
    requires forall k :: 0 <= k < |elems| ==> |elems[k]| < |json|
    ensures var r := Slots(ctx, t, json, elems, members, i, acc);
      r.Ok? ==> forall k :: k in Keys(r.value) ==> k in Keys(acc) || k in Names(members)
  {
    var P := (tbl: Table) => forall k :: k in Keys(tbl) ==> k in Keys(acc) || k in Names(members);
    forall tbl, name, v | P(tbl) && name in Names(members)
      ensures P(Put(tbl, name, v))
    {
      PutKeys(tbl, name, v);
    }
    SlotsPreserve(P, ctx, t, json, elems, members, i, acc);
  }

  lemma {:induction false} SlotsFaults(ctx: Context, t: TypeDesc, json: Str, elems: seq<Str>, members: seq<MemberDesc>, i: nat, acc: Table)
    requires |elems| % 2 == 0 && i % 2 == 0 && i <= |elems|
    requires forall k :: 0 <= k < |elems| ==> |elems[k]| < |json|
    ensures var r := Slots(ctx, t, json, elems, members, i, acc);
      r.Err? && ctx.config.ignoreMismatching ==> r.error == IndexOutOfRange || r.error == ArgumentOutOfRange || r.error.HostFault?
    decreases |elems| - i
  {
    if i < |elems| {
      match SlotStep(ctx, t, json, elems, members, i)
      case Err(_) =>
      case Ok(None) => SlotsFaults(ctx, t, json, elems, members, i + 2, acc);
      case Ok(Some((name, v))) => SlotsFaults(ctx, t, json, elems, members, i + 2, Put(acc, name, v));
    }
  }

  /**
    One pass of the member loop, on the pair at `i`: the member to set and its value, `None` when
    the pair is skipped or the member keeps its default. Outside the `try`: a key piece of two
    code units or fewer is skipped, the value piece is trimmed (which throws on an empty piece),
    an unknown key is skipped, and an encrypted value is decrypted.
   */
  function SlotStep(ctx: Context, t: TypeDesc, json: Str, elems: seq<Str>, members: seq<MemberDesc>, i: nat)
    : (r: Result<Option<(Str, Value)>, Fault>)
    requires |elems| % 2 == 0 && i % 2 == 0 && i < |elems|
    requires forall k :: 0 <= k < |elems| ==> |elems[k]| < |json|
    ensures r.Ok? && r.value.Some? ==>
      |elems[i]| > 2 && Find(members, Interior(elems[i])).Some? &&
      r.value.value.0 == Find(members, Interior(elems[i])).value.name && r.value.value.0 in Names(members)
    ensures r.Err? && ctx.config.ignoreMismatching ==>
      r.error == IndexOutOfRange || r.error == ArgumentOutOfRange || r.error.HostFault?
    decreases |json|, 1
  {
    if |elems[i]| <= 2 then Ok(None)
    else
      match TrimStringSign(elems[i + 1])
      case None => Err(TrimFault(elems[i + 1]))
      case Some(trimmed) =>
        match Find(members, Interior(elems[i]))
        case None => Ok(None)
        case Some(m) => MemberSlot(ctx, t, json, m, elems[i + 1], trimmed)
  }

  /**
    The rest of the pass once the key has found member `m`: an encrypted value is decrypted
    (outside the `try`), then converted inside it.
   */
  function MemberSlot(ctx: Context, t: TypeDesc, json: Str, m: MemberDesc, raw: Str, trimmed: Str)
    : (r: Result<Option<(Str, Value)>, Fault>)
    requires |raw| < |json| && |trimmed| <= |raw|
    ensures r.Ok? && r.value.Some? ==> r.value.value.0 == m.name
    ensures r.Err? && ctx.config.ignoreMismatching ==> r.error.HostFault?
    decreases |json|, 0
  {
    match (if m.encrypted then ctx.host.decrypt(trimmed, m) else Ok(trimmed))
    case Err(msg) => Err(HostFault(msg))
    case Ok(value) =>
      match Caught(ctx, t, m, value, MemberConversion(ctx, m, raw, value, false))
      case Err(e) => Err(e)
      case Ok(None) => Ok(None)
      case Ok(Some(v)) => Ok(Some((m.name, v)))
  }

  /**
    The `try` block for one member: the registered parser of the member's type, else the
    member's own StringToObject method when the reader uses it, else the default reader. The
    default reader is given the value piece itself (or the decrypted text), so that a quoted
    piece keeps its quotes; with `trim` set it is given the trimmed value, as the source does.
   */
  function MemberConversion(ctx: Context, m: MemberDesc, raw: Str, value: Str, trim: bool): (r: Result<Value, Fault>)
    requires |value| <= |raw|
    decreases |raw|, 5
  {
    if Registered(ctx, m.memberType) then
      match ctx.host.registryToObject(m.memberType, value, Some(m))
      case Ok(v) => Ok(v)
      case Err(msg) => Err(HostFault(msg))
    else if m.parser.Some? && ReaderUsesParser(m.parser.value) then
      match m.parser.value.stringToObjectMethod
      case None => Err(NullReference)
      case Some(f) =>
        match ctx.host.memberToObject(f, value, m)
        case Ok(v) => Ok(v)
        case Err(msg) => Err(HostFault(msg))
    else ParsePure(ctx, m.memberType, if trim || m.encrypted then value else raw)
  }

  /**
    The `catch` block for one member: the member keeps its default when mismatches are ignored
    (`Ok(None)`); otherwise the fault is rethrown naming the value, the member and the type, and
    the registered parser or the member's parser when one was involved.
   */
  function Caught(ctx: Context, t: TypeDesc, m: MemberDesc, value: Str, attempt: Result<Value, Fault>)
    : (r: Result<Option<Value>, Fault>)
    ensures attempt.Ok? ==> r == Ok(Some(attempt.value))
    ensures r.Err? <==> attempt.Err? && !ctx.config.ignoreMismatching
    ensures r.Err? ==> Rethrown(r.error) && r.error.inner == attempt.error
  {
    if attempt.Ok? then Ok(Some(attempt.value))
    else if ctx.config.ignoreMismatching then Ok(None)
    else if Registered(ctx, m.memberType) then
      Err(MemberTypeParserFailed(ParserName(ctx, m.memberType), value, m.name, TypeName(t), attempt.error))
    else if m.parser.Some? then Err(MemberParserFailed(value, m.name, TypeName(t), attempt.error))
    else Err(DefaultParserFailed(value, m.name, TypeName(t), attempt.error))
  }

  // ---------------------------------------------------------------------------------------------
  // Properties

  /**
    An array or list gets one element per piece, each the piece parsed as the element type and
    stored; the first piece that fails to parse or to be stored decides the failure.
   */
  lemma {:induction false} ElementsOnePerPiece(ctx: Context, et: TypeDesc, intoArray: bool, json: Str, elems: seq<Str>, i: nat)
    requires i <= |elems|
    requires forall k :: 0 <= k < |elems| ==> |elems[k]| < |json|
    ensures Elements(ctx, et, intoArray, json, elems, i).Ok? <==> forall k :: i <= k < |elems| ==> ElementOf(ctx, et, intoArray, elems[k]).Ok?
    ensures Elements(ctx, et, intoArray, json, elems, i).Ok? ==>
      |Elements(ctx, et, intoArray, json, elems, i).value| == |elems| - i &&
      forall k :: i <= k < |elems| ==> Elements(ctx, et, intoArray, json, elems, i).value[k - i] == ElementOf(ctx, et, intoArray, elems[k]).value
  {
    ElementsSucceed(ctx, et, intoArray, json, elems, i);
    ElementsValues(ctx, et, intoArray, json, elems, i);
  }

  lemma {:induction false} ElementsSucceed(ctx: Context, et: TypeDesc, intoArray: bool, json: Str, elems: seq<Str>, i: nat)
    requires i <= |elems|
    requires forall k :: 0 <= k < |elems| ==> |elems[k]| < |json|
    ensures Elements(ctx, et, intoArray, json, elems, i).Ok? <==> forall k :: i <= k < |elems| ==> ElementOf(ctx, et, intoArray, elems[k]).Ok?
    decreases |elems| - i
  {
    if i < |elems| && ElementOf(ctx, et, intoArray, elems[i]).Ok? {
      ElementsSucceed(ctx, et, intoArray, json, elems, i + 1);
    }
  }

  lemma {:induction false} ElementsValues(ctx: Context, et: TypeDesc, intoArray: bool, json: Str, elems: seq<Str>, i: nat)
    requires i <= |elems|
    requires forall k :: 0 <= k < |elems| ==> |elems[k]| < |json|
    ensures Elements(ctx, et, intoArray, json, elems, i).Ok? ==>
      |Elements(ctx, et, intoArray, json, elems, i).value| == |elems| - i &&
      forall k :: i <= k < |elems| ==> ElementOf(ctx, et, intoArray, elems[k]) == Ok(Elements(ctx, et, intoArray, json, elems, i).value[k - i])
    decreases |elems| - i
  {
    if i < |elems| && ElementOf(ctx, et, intoArray, elems[i]).Ok? {
      ElementsValues(ctx, et, intoArray, json, elems, i + 1);
    }
  }

  /** The first piece that fails to parse or to be stored decides the failure of the elements. */
  lemma {:induction false} ElementsFailure(ctx: Context, et: TypeDesc, intoArray: bool, json: Str, elems: seq<Str>, i: nat)
    requires i <= |elems|
    requires forall k :: 0 <= k < |elems| ==> |elems[k]| < |json|
    ensures Elements(ctx, et, intoArray, json, elems, i).Err? ==>
      exists k :: i <= k < |elems| && ElementOf(ctx, et, intoArray, elems[k]) == Err(Elements(ctx, et, intoArray, json, elems, i).error)
    decreases |elems| - i
  {
    if i < |elems| && ElementOf(ctx, et, intoArray, elems[i]).Ok? {
      ElementsFailure(ctx, et, intoArray, json, elems, i + 1);
    }
  }

  /**
    An element is the piece's value unless the piece reads as null: then an array of a value type
    holds `default(T)`, a list or dictionary of a value type throws, and any other collection holds null.
   */
  lemma {:induction false} ElementOfPiece(ctx: Context, et: TypeDesc, intoArray: bool, piece: Str)
    ensures ParsePure(ctx, et, piece).Err? ==> ElementOf(ctx, et, intoArray, piece) == ParsePure(ctx, et, piece)
    ensures ParsePure(ctx, et, piece).Ok? && ParsePure(ctx, et, piece).value != Null ==>
      ElementOf(ctx, et, intoArray, piece) == ParsePure(ctx, et, piece)
    ensures ParsePure(ctx, et, piece) == Ok(Null) ==>
      ElementOf(ctx, et, intoArray, piece)
        == if !IsValueType(ctx.schema, et) then Ok(Null) else if intoArray then Ok(ZeroValue(et)) else Err(NullElementRefused)
  {
  }

  /** The `null` piece: `default(T)` in an array of a value type, a throw in a list or dictionary of one. */
  lemma {:induction false} NullElement(ctx: Context, et: TypeDesc, intoArray: bool)
    ensures ElementOf(ctx, et, intoArray, NullToken)
      == if !IsValueType(ctx.schema, et) then Ok(Null) else if intoArray then Ok(ZeroValue(et)) else Err(NullElementRefused)
  {
    NullReadsAsNull(ctx, et);
    ElementOfPiece(ctx, et, intoArray, NullToken);
  }

  /**
    A bracketed span read as an array or a list: one element per piece of the split, each the
    piece's element; an array or list of a value type holds no null.
   */
  lemma {:induction false} SequenceOfPieces(ctx: Context, t: TypeDesc, json: Str)
    requires t.TArray? || t.TList?
    requires Bracketed(json) && Split(json, true).Some?
    ensures var elems := Split(json, true).value;
      ParsePure(ctx, t, json).Ok? <==> forall k :: 0 <= k < |elems| ==> ElementOf(ctx, t.elem, t.TArray?, elems[k]).Ok?
    ensures var elems := Split(json, true).value; var r := ParsePure(ctx, t, json);
      r.Ok? ==>
        r.value.Items? && r.value.t == t && |r.value.elems| == |elems| &&
        (forall k :: 0 <= k < |elems| ==> r.value.elems[k] == ElementOf(ctx, t.elem, t.TArray?, elems[k]).value) &&
        (IsValueType(ctx.schema, t.elem) ==> forall k :: 0 <= k < |elems| ==> r.value.elems[k] != Null)
  {
    assert json != NullToken;
    SplitPiecesShorter(json, true);
    ElementsOnePerPiece(ctx, t.elem, t.TArray?, json, Split(json, true).value, 0);
  }

  /** A dictionary is read only with string keys, from a braced span, and keys of a written entry are never empty. */
  lemma {:induction false} DictionaryKeysNonEmpty(ctx: Context, vt: TypeDesc, json: Str, elems: seq<Str>, i: nat, acc: Table)
    requires |elems| % 2 == 0 && i % 2 == 0 && i <= |elems|
    requires forall k :: 0 <= k < |elems| ==> |elems[k]| < |json|
    requires forall k :: k in Keys(acc) ==> k != []
    requires DistinctKeys(acc)
    requires IsValueType(ctx.schema, vt) ==> NullFree(acc)
    ensures var r := DictionaryPairs(ctx, vt, json, elems, i, acc);
      r.Ok? ==>
        DistinctKeys(r.value) && (forall k :: k in Keys(r.value) ==> k != []) &&
        (IsValueType(ctx.schema, vt) ==> NullFree(r.value))
    decreases |elems| - i
  {
    if i < |elems| {
      var step := DictionaryPairsUnfold(ctx, vt, json, elems, i, acc);
      if |elems[i]| > 2 && step.Ok? {
        var key := Interior(elems[i]);
        PutKeys(acc, key, step.value);
        if IsValueType(ctx.schema, vt) {
          PutNullFree(acc, key, step.value);
        }
        DictionaryKeysNonEmpty(ctx, vt, json, elems, i + 2, Put(acc, key, step.value));
      } else if |elems[i]| <= 2 {
        DictionaryKeysNonEmpty(ctx, vt, json, elems, i + 2, acc);
      }
    }
  }

  /** Proof plumbing: `DictionaryPairs` unfolded once; it states nothing beyond the definition. */
  lemma {:induction false} DictionaryPairsUnfold(ctx: Context, vt: TypeDesc, json: Str, elems: seq<Str>, i: nat, acc: Table)
    returns (step: Result<Value, Fault>)
    requires |elems| % 2 == 0 && i % 2 == 0 && i < |elems|
    requires forall k :: 0 <= k < |elems| ==> |elems[k]| < |json|
    ensures i + 2 <= |elems| && (i + 2) % 2 == 0
    ensures step == ElementOf(ctx, vt, false, elems[i + 1])
    ensures step.Ok? && IsValueType(ctx.schema, vt) ==> step.value != Null
    ensures |elems[i]| <= 2 ==> DictionaryPairs(ctx, vt, json, elems, i, acc) == DictionaryPairs(ctx, vt, json, elems, i + 2, acc)
    ensures |elems[i]| > 2 && step.Err? ==> DictionaryPairs(ctx, vt, json, elems, i, acc) == Err(step.error)
    ensures |elems[i]| > 2 && step.Ok? ==>
              DictionaryPairs(ctx, vt, json, elems, i, acc) == DictionaryPairs(ctx, vt, json, elems, i + 2, Put(acc, Interior(elems[i]), step.value))
  {
    NextPair(i, |elems|);
    step := ElementOf(ctx, vt, false, elems[i + 1]);
  }

  /**
    The guards of the dictionary reader: a non-string key type or an unbraced span gives null; a
    dictionary read has distinct non-empty keys, and none of its values is null when the value
    type is a value type.
   */
  lemma {:induction false} DictionaryGuards(ctx: Context, t: TypeDesc, json: Str)
    requires t.TDict? && json != NullToken && json != []
    ensures t.key != TString ==> ParsePure(ctx, t, json) == Ok(Null)
    ensures !Braced(json) ==> ParsePure(ctx, t, json) == Ok(Null)
    ensures var r := ParsePure(ctx, t, json);
      r.Ok? && r.value != Null ==>
        r.value.Entries? && r.value.t == t && DistinctKeys(r.value.entries) &&
        (forall k :: k in Keys(r.value.entries) ==> k != []) &&
        (IsValueType(ctx.schema, t.value) ==> NullFree(r.value.entries))
  {
    if t.key == TString && Braced(json) {
      var sp := SplitPieces(json, false);
      if sp.Ok? && |sp.value| % 2 == 0 {
        DictionaryKeysNonEmpty(ctx, t.value, json, sp.value, 0, []);
      }
    }
  }

  /** A string the dynamic writer quoted reads back as that string. */
  lemma {:induction false} AnonymousStringRoundTrip(host: Host, s: Str)
    ensures AnonymousValue(host, [QUOTE] + EscapeDynamic(s) + [QUOTE]) == Ok(Text(s))
  {
    var w := [QUOTE] + EscapeDynamic(s) + [QUOTE];
    assert Interior(w) == EscapeDynamic(s);
    UnescapeOfEscapeDynamic(s);
  }

  /** A 32-bit integer written in decimal reads back as that `int`. */
  lemma {:induction false} AnonymousIntegerRoundTrip(host: Host, n: int)
    requires Int32Min <= n <= Int32Max
    ensures AnonymousValue(host, DecimalString(n)) == Ok(Integral(Int32Type, n))
  {
    var w := DecimalString(n);
    var d := if n < 0 then Digits(-n) else Digits(n);
    assert forall k :: 0 <= k < |w| ==> w[k] == MINUS || IsAsciiDigit(w[k]) by {
      forall k | 0 <= k < |w| ensures w[k] == MINUS || IsAsciiDigit(w[k]) {
        if n < 0 && k > 0 { assert w[k] == d[k - 1]; }
      }
    }
    assert DOT !in w;
    assert IsAsciiDigit(w[0]) ==> IsDigit(w[0]) by {
      assert DigitBlocks[0] == 0x30;
    }
    ParseInt32OfDecimal(n);
  }

  /** No lower-case ASCII letter is a decimal digit. */
  lemma {:induction false} LetterIsNotDigit(c: Char16)
    requires 0x61 <= c <= 0x7A
    ensures !IsDigit(c)
  {
    forall k | 0 <= k < |DigitBlocks|
      ensures !(DigitBlocks[k] <= c as int < DigitBlocks[k] + 10)
    {
      assert k == 0 || DigitBlocks[k] >= 0x660;
    }
  }

  /** A token starting with a lower-case letter is a boolean literal or null. */
  lemma {:induction false} AnonymousWord(host: Host, w: Str)
    requires |w| > 0 && 0x61 <= w[0] <= 0x7A
    ensures w == TrueToken ==> AnonymousValue(host, w) == Ok(Boolean(true))
    ensures w == FalseToken ==> AnonymousValue(host, w) == Ok(Boolean(false))
    ensures w != TrueToken && w != FalseToken ==> AnonymousValue(host, w) == Ok(Null)
  {
    LetterIsNotDigit(w[0]);
  }

  /** `true` and `false` read back as booleans, and `null` as null. */
  lemma {:induction false} AnonymousLiterals(host: Host)
    ensures AnonymousValue(host, TrueToken) == Ok(Boolean(true))
    ensures AnonymousValue(host, FalseToken) == Ok(Boolean(false))
    ensures AnonymousValue(host, NullToken) == Ok(Null)
  {
    assert TrueToken[0] == 0x74 && FalseToken[0] == 0x66 && NullToken[0] == 0x6E;
    assert |NullToken| == 4 && |TrueToken| == 4 && |FalseToken| == 5;
    assert NullToken[1] != TrueToken[1];
    AnonymousWord(host, TrueToken);
    AnonymousWord(host, FalseToken);
    AnonymousWord(host, NullToken);
  }

  /** A string member's written value, read as a string, is the string. */
  lemma {:induction false} TypedStringRoundTrip(ctx: Context, s: Str)
    ensures ParsePure(ctx, TString, [QUOTE] + Escape(s) + [QUOTE]) == Ok(Text(s))
  {
    var w := [QUOTE] + Escape(s) + [QUOTE];
    assert w[0] != NullToken[0];
    TrimWrittenString(s);
    UnescapeOfEscape(s);
  }

  /**
    Building the case-insensitive member index fails exactly when two members share a key, and
    then names the first member whose key was already taken.
   */
  lemma {:induction false} IndexFromDistinct(ms: seq<MemberDesc>, i: nat)
    requires i <= |ms| && DistinctNames(ms[..i])
    ensures IndexFrom(ms, i).Ok? <==> DistinctNames(ms)
    ensures IndexFrom(ms, i).Ok? ==> IndexFrom(ms, i).value == ms
    ensures IndexFrom(ms, i).Err? ==>
      exists j :: i <= j < |ms| && DistinctNames(ms[..j]) && NameTaken(ms[..j], ms[j]) &&
        IndexFrom(ms, i).error == DuplicateKey(JsonName(ms[j]))
    decreases |ms| - i
  {
    if i == |ms| {
      assert ms[..i] == ms;
    } else if NameTaken(ms[..i], ms[i]) {
      var k :| 0 <= k < i && SameIgnoringCase(JsonName(ms[..i][k]), JsonName(ms[i]));
      assert ms[..i][k] == ms[k];
    } else {
      var p, q := ms[..i + 1], ms[..i];
      forall a, b | 0 <= a < b < i + 1
        ensures !SameIgnoringCase(JsonName(p[a]), JsonName(p[b]))
      {
        assert p[a] == q[a];
        if b < i {
          assert p[b] == q[b];
        } else {
          assert p[b] == ms[i];
        }
      }
      IndexFromDistinct(ms, i + 1);
    }
  }

  lemma {:induction false} MemberIndexDistinct(ms: seq<MemberDesc>)
    ensures MemberIndex(ms).Ok? <==> DistinctNames(ms)
    ensures MemberIndex(ms).Ok? ==> MemberIndex(ms).value == ms
    ensures MemberIndex(ms).Err? ==>
      exists j :: 0 <= j < |ms| && DistinctNames(ms[..j]) && NameTaken(ms[..j], ms[j]) &&
        MemberIndex(ms).error == DuplicateKey(JsonName(ms[j]))
  {
    IndexFromDistinct(ms, 0);
  }

  /**
    Proof plumbing: `ReadObject` unfolded once into its three endings, an unfolding step for
    `OddPieceCountBlank` and the slot lemmas below; it states nothing beyond the definition.
   */
  lemma {:induction false} ReadObjectCases(ctx: Context, t: TypeDesc, json: Str)
    requires |json| >= 1
    ensures SplitPieces(json, true).Err? ==> ReadObject(ctx, t, json) == Err(IndexOutOfRange)
    ensures SplitPieces(json, true).Ok? && Registered(ctx, t) ==>
      ReadObject(ctx, t, json) == RegistryObject(ctx, t, json, SplitPieces(json, true).value)
    ensures SplitPieces(json, true).Ok? && !Registered(ctx, t) && |SplitPieces(json, true).value| % 2 == 0 &&
            MemberIndex(IndexedMembers(ctx, t)).Ok? ==>
      var slots := Slots(ctx, t, json, SplitPieces(json, true).value, MemberIndex(IndexedMembers(ctx, t)).value, 0, []);
      ReadObject(ctx, t, json) == if slots.Ok? then Ok(Record(t, slots.value)) else Err(slots.error)
  {
  }

  /**
    A span whose pieces do not pair up reads, for a type without a registered parser, as the
    uninitialized instance with no member set; a span that does not split throws.
   */
  lemma {:induction false} OddPieceCountBlank(ctx: Context, t: TypeDesc, json: Str)
    requires |json| >= 1 && !Registered(ctx, t)
    ensures SplitPieces(json, true).Err? ==> ReadObject(ctx, t, json) == Err(IndexOutOfRange)
    ensures SplitPieces(json, true).Ok? && |SplitPieces(json, true).value| % 2 == 1 ==>
      ReadObject(ctx, t, json) == Ok(Record(t, []))
  {
    ReadObjectCases(ctx, t, json);
  }

  /** The token `null` reads as null whatever the target type, before any other dispatch. */
  lemma {:induction false} NullReadsAsNull(ctx: Context, t: TypeDesc)
    ensures ParsePure(ctx, t, NullToken) == Ok(Null)
  {
  }

  /**
    An object read without a registered parser is an instance of the type whose set members are
    distinct, writable or field members of the type, found by their key.
   */
  lemma {:induction false} ReadObjectSetsMembers(ctx: Context, t: TypeDesc, json: Str)
    requires |json| >= 1 && !Registered(ctx, t)
    ensures var r := ReadObject(ctx, t, json);
      r.Ok? ==>
        r.value.Record? && r.value.t == t && DistinctKeys(r.value.slots) &&
        (forall k :: k in Keys(r.value.slots) ==> k in Names(IndexedMembers(ctx, t)))
  {
    ReadObjectCases(ctx, t, json);
    MemberIndexDistinct(IndexedMembers(ctx, t));
    if SplitPieces(json, true).Ok? && |SplitPieces(json, true).value| % 2 == 0 && MemberIndex(IndexedMembers(ctx, t)).Ok? {
      SlotsFacts(ctx, t, json, SplitPieces(json, true).value, MemberIndex(IndexedMembers(ctx, t)).value, 0, []);
    }
  }

  /**
    With mismatches ignored, reading an object only fails on what happens outside the `try`
    block (a piece that cannot be trimmed, a value that cannot be decrypted, a duplicate key in
    the member index), and a registered type always reads.
   */
  lemma {:induction false} IgnoredObjectNeverRethrows(ctx: Context, t: TypeDesc, json: Str)
    requires |json| >= 1 && ctx.config.ignoreMismatching
    ensures ReadObject(ctx, t, json).Err? ==> !Rethrown(ReadObject(ctx, t, json).error)
  {
    var pieces := SplitPieces(json, true);
    if pieces.Ok? && Registered(ctx, t) {
      assert ReadObject(ctx, t, json) == RegistryObject(ctx, t, json, pieces.value);
    } else if pieces.Ok? && |pieces.value| % 2 == 0 {
      IgnoredMemberLoopNeverRethrows(ctx, t, json);
    }
  }

  /** The unregistered case: the member index fails only on a duplicate key, the loop only outside the `try`. */
  lemma {:induction false} IgnoredMemberLoopNeverRethrows(ctx: Context, t: TypeDesc, json: Str)
    requires |json| >= 1 && ctx.config.ignoreMismatching && !Registered(ctx, t)
    requires SplitPieces(json, true).Ok? && |SplitPieces(json, true).value| % 2 == 0
    ensures ReadObject(ctx, t, json).Err? ==> !Rethrown(ReadObject(ctx, t, json).error)
  {
    var pieces := SplitPieces(json, true);
    var index := MemberIndex(IndexedMembers(ctx, t));
    if index.Ok? {
      var slots := Slots(ctx, t, json, pieces.value, index.value, 0, []);
      SlotsFacts(ctx, t, json, pieces.value, index.value, 0, []);
      assert ReadObject(ctx, t, json) == if slots.Ok? then Ok(Record(t, slots.value)) else Err(slots.error);
    } else {
      IndexFromFault(IndexedMembers(ctx, t), 0);
      assert ReadObject(ctx, t, json) == Err(index.error);
    }
  }
  /** With mismatches ignored, a registered type always reads once its pieces split. */
  lemma {:induction false} IgnoredRegisteredObjectReads(ctx: Context, t: TypeDesc, json: Str)
    requires |json| >= 1 && ctx.config.ignoreMismatching && Registered(ctx, t)
    ensures Split(json, true).Some? ==> ReadObject(ctx, t, json).Ok?
  {
    if Split(json, true).Some? {
      var pieces := SplitPieces(json, true);
      assert ReadObject(ctx, t, json) == RegistryObject(ctx, t, json, pieces.value);
    }
  }


  /**
    Without ignoring mismatches, a member that fails to convert aborts the read with a fault that
    names the value, the member and the type, and wraps the conversion's own fault.
   */
  lemma {:induction false} MismatchRethrown(ctx: Context, t: TypeDesc, m: MemberDesc, value: Str, attempt: Result<Value, Fault>)
    requires attempt.Err? && !ctx.config.ignoreMismatching
    ensures var r := Caught(ctx, t, m, value, attempt);
      r.Err? && Rethrown(r.error) && r.error.inner == attempt.error && r.error.value == value &&
      r.error.member == m.name && r.error.typeName == TypeName(t)
  {
  }

  // ---------------------------------------------------------------------------------------------
  // Reading a string member

  /**
    As written, the member loop hands the default reader the trimmed value, which the string
    reader trims again: an empty string throws, and the string "null" reads as null.
   */
  lemma {:induction false} TrimmedStringMemberAsWritten(ctx: Context, m: MemberDesc)
    requires m.memberType == TString && m.parser.None? && !m.encrypted && !Registered(ctx, TString)
    ensures MemberConversion(ctx, m, [QUOTE, QUOTE], [], true) == Err(IndexOutOfRange)
    ensures MemberConversion(ctx, m, [QUOTE] + NullToken + [QUOTE], NullToken, true) == Ok(Null)
  {
  }

  /**
    With the member value trimmed before dispatch as written, and the typed string read with the
    corrected `\uXXXX` guard, a written string member reads back for every string except two: the
    empty string throws and the string "null" reads as null.
   */
  lemma {:induction false} TrimmedStringMember(ctx: Context, m: MemberDesc, s: Str)
    requires m.memberType == TString && m.parser.None? && !m.encrypted && !Registered(ctx, TString)
    ensures var w := [QUOTE] + Escape(s) + [QUOTE];
      TrimStringSign(w) == Some(Escape(s)) &&
      MemberConversion(ctx, m, w, Escape(s), true) ==
        if s == [] then Err(IndexOutOfRange) else if s == NullToken then Ok(Null) else Ok(Text(s))
  {
    TrimWrittenString(s);
    EscapedNullToken(s);
    if s != [] && s != NullToken {
      UnescapeOfEscape(s);
    }
  }

  /** Only the string "null" is written as the token `null`. */
  lemma {:induction false} EscapedNullToken(s: Str)
    ensures Escape(s) == NullToken <==> s == NullToken
  {
    assert NullToken == [0x6E, 0x75, 0x6C, 0x6C];
    if Escape(s) == NullToken {
      EscapeWithoutBackslash(s);
    }
    if s == NullToken {
      assert Escape(s) == EscapeUnit(s[0]) + Escape(s[1..]);
      assert s[1..] == [0x75, 0x6C, 0x6C];
      assert Escape(s[1..]) == EscapeUnit(0x75) + Escape(s[2..]);
      assert s[2..] == [0x6C, 0x6C];
      assert Escape(s[2..]) == EscapeUnit(0x6C) + Escape(s[3..]);
      assert s[3..] == [0x6C];
      assert Escape(s[3..]) == EscapeUnit(0x6C) + Escape([]);
    }
  }

  /** Handing the default reader the value piece itself reads back every written string. */
  lemma {:induction false} StringMemberRoundTrip(ctx: Context, m: MemberDesc, s: Str)
    requires m.memberType == TString && m.parser.None? && !m.encrypted && !Registered(ctx, TString)
    ensures var w := [QUOTE] + Escape(s) + [QUOTE];
      TrimStringSign(w) == Some(Escape(s)) && MemberConversion(ctx, m, w, Escape(s), false) == Ok(Text(s))
  {
    TrimWrittenString(s);
    TypedStringRoundTrip(ctx, s);
  }
}

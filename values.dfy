/**
  The data the reader produces and the writer consumes, standing in for .NET runtime objects and
  the reflection metadata the library reads from them: type descriptors, member descriptors with
  their attributes, the schema of user classes, the two configurations, and the host operations
  the library calls into (type conversion, encryption, user parser methods).
 */
module Values {
  import opened Wrappers
  import opened Text

  /** A .NET type as the reader and the writer tell types apart. */
  datatype TypeDesc =
    | TString                               // System.String
    | TChar                                 // System.Char
    | TBool                                 // System.Boolean
    | TIntegral(name: Str)                  // SByte .. UInt64
    | TFloating(name: Str)                  // Single, Double, Decimal
    | TBuiltIn(name: Str)                   // other built-in non-enumerable types: DateTime, Guid, TimeSpan, ...
    | TEnum(name: Str)
    | TObject                               // System.Object
    | TDynamic                              // G9CDynamicObject
    | TExpando                              // System.Dynamic.ExpandoObject
    | TArray(elem: TypeDesc)
    | TList(elem: TypeDesc)                 // List<T>
    | TDict(key: TypeDesc, value: TypeDesc) // Dictionary<K, V>
    | TEnumerable(name: Str)                // any other enumerable type (HashSet<T>, Queue<T>, ...)
    | TGenericDefinition(name: Str)         // an open generic type such as List<>: only ever a registry key
    | TRecord(name: Str)                    // any other class or struct, described by the schema

  const Int32Type: TypeDesc := TIntegral(Lit("System.Int32"))
  const DoubleType: TypeDesc := TFloating(Lit("System.Double"))

  /** Types converted by `SmartChangeType`: enums and the built-in types that are not enumerable. */
  predicate IsScalar(t: TypeDesc) {
    t.TString? || t.TChar? || t.TBool? || t.TIntegral? || t.TFloating? || t.TBuiltIn? || t.TEnum?
  }

  /** The key a type is looked up under in the parser registry: `IsGenericType ? GetGenericTypeDefinition() : type`. */
  function LookupKey(t: TypeDesc): (k: TypeDesc)
    ensures !k.TList? && !k.TDict?
  {
    match t
    case TList(_) => TGenericDefinition(Lit("System.Collections.Generic.List`1"))
    case TDict(_, _) => TGenericDefinition(Lit("System.Collections.Generic.Dictionary`2"))
    case _ => t
  }

  /** `Type.FullName`, without the assembly qualification of generic arguments. */
  function TypeName(t: TypeDesc): Str {
    match t
    case TString => Lit("System.String")
    case TChar => Lit("System.Char")
    case TBool => Lit("System.Boolean")
    case TIntegral(n) => n
    case TFloating(n) => n
    case TBuiltIn(n) => n
    case TEnum(n) => n
    case TObject => Lit("System.Object")
    case TDynamic => Lit("G9JSONHandler.DataType.G9CDynamicObject")
    case TExpando => Lit("System.Dynamic.ExpandoObject")
    case TArray(e) => TypeName(e) + Lit("[]")
    case TList(e) => Lit("System.Collections.Generic.List`1[[") + TypeName(e) + Lit("]]")
    case TDict(k, v) => Lit("System.Collections.Generic.Dictionary`2[[") + TypeName(k) + Lit("],[") + TypeName(v) + Lit("]]")
    case TEnumerable(n) => n
    case TGenericDefinition(n) => n
    case TRecord(n) => n
  }

  /** The interface type of the second parameter of every parser method. */
  const MemberGetterType: TypeDesc := TRecord(Lit("G9AssemblyManagement.Interfaces.G9IMemberGetter"))

  /** A public method as reflection reports it: name, parameter types and return type. */
  datatype MethodSig = MethodSig(name: Str, parameters: seq<TypeDesc>, returnType: TypeDesc)

  /** `G9ECustomParserType`. */
  datatype CustomParserType = StringToObject | ObjectToJson | BothOfThem

  /** A member's custom parser attribute once constructed: its kind and the methods it resolved. */
  datatype ParserAttribute = ParserAttribute(
    parserType: CustomParserType,
    stringToObjectMethod: Option<MethodSig>,
    objectToStringMethod: Option<MethodSig>)

  /** A field or property with the attributes the library reads from it. */
  datatype MemberDesc = MemberDesc(
    name: Str,                         // declared name
    customName: Option<Str>,           // G9AttrCustomName
    order: Option<nat>,                // G9AttrOrder
    ignored: bool,                     // G9AttrIgnore
    isPublic: bool,
    canRead: bool,                     // always true for fields
    canWrite: bool,                    // always true for fields
    memberType: TypeDesc,
    comments: seq<Str>,                // G9AttrComment notes, in declaration order
    enumAsString: bool,                // G9AttrStoreEnumAsString
    parser: Option<ParserAttribute>,   // the member custom parser attribute
    encrypted: bool,                   // G9AttrEncryption
    legacy: LegacyTags)                // what the legacy reader and writer read instead

  /**
    The attributes of a member that the root-level `G9JsonParser` and `G9JsonWriter` read: the
    writer's `G9JsonIgnoreMember`, `G9JsonCustomMemberName`, `G9JsonStoreEnumAsString` and
    `G9JsonComment` notes, and the reader's `IgnoreDataMember` and `DataMember(Name = ...)`.
   */
  datatype LegacyTags = LegacyTags(
    ignored: bool,
    customName: Option<Str>,
    enumAsString: bool,
    notes: seq<Str>,
    ignoreDataMember: bool,
    dataMemberName: Option<Str>)

  /** The key a member is written under and looked up by: its custom name, else its declared name. */
  function JsonName(m: MemberDesc): Str {
    match m.customName
    case Some(n) => n
    case None => m.name
  }

  /** A user class or struct: the notes on the type, its fields and its properties, in declaration order, and whether it is a struct. */
  datatype RecordDesc = RecordDesc(comments: seq<Str>, fields: seq<MemberDesc>, properties: seq<MemberDesc>, isStruct: bool)

  type Schema = map<Str, RecordDesc>

  /** The description of a user type; any other type has no notes and no members. */
  function RecordOf(schema: Schema, t: TypeDesc): RecordDesc {
    if t.TRecord? && t.name in schema then schema[t.name] else RecordDesc([], [], [], false)
  }

  /**
    `Type.IsValueType`: the built-in types the library converts other than `string` (primitives,
    `decimal`, `DateTime`, `TimeSpan`, `Guid`, ... are all structs), enums, and the user types
    the schema declares as structs.
   */
  predicate IsValueType(schema: Schema, t: TypeDesc) {
    (IsScalar(t) && !t.TString?) || (t.TRecord? && RecordOf(schema, t).isStruct)
  }

  /** The `BindingFlags` of a configuration, as far as they select instance members. */
  datatype Accessibility = Accessibility(publicMembers: bool, nonPublicMembers: bool)

  predicate Accessible(a: Accessibility, m: MemberDesc) {
    if m.isPublic then a.publicMembers else a.nonPublicMembers
  }

  /** The fields reflection hands the reader and the writer: accessible, without the ignore attribute. */
  function ListedFields(a: Accessibility, ms: seq<MemberDesc>): (r: seq<MemberDesc>)
    ensures forall k :: 0 <= k < |r| ==> r[k] in ms && Accessible(a, r[k]) && !r[k].ignored
  {
    if ms == [] then []
    else (if Accessible(a, ms[0]) && !ms[0].ignored then [ms[0]] else []) + ListedFields(a, ms[1..])
  }

  /** `G9DtJsonParserConfig`. */
  datatype ParserConfig = ParserConfig(accessible: Accessibility, ignoreMismatching: bool)

  /** `G9ECommentMode`. */
  datatype CommentMode = StandardMode | NonstandardMode

  /** `G9DtJsonWriterConfig`. */
  datatype WriterConfig = WriterConfig(accessible: Accessibility, isFormatted: bool, commentMode: CommentMode)

  /** `Instance | Public`, not formatted, standard comments: the defaults of both configurations. */
  const DefaultAccessibility := Accessibility(true, false)

  /** A string-keyed table in insertion order, as a .NET `Dictionary<string, …>` enumerates it. */
  type Table = seq<(Str, Value)>

  /**
    A runtime object. Each constructor carries the runtime type where the library dispatches on it;
    numbers other than integers and the values of other built-in types are kept as their text.
   */
  datatype Value =
    | Null
    | Text(s: Str)
    | Character(c: Char16)
    | Boolean(b: bool)
    | Integral(t: TypeDesc, n: int)
    | Floating(t: TypeDesc, token: Str)
    | Other(t: TypeDesc, token: Str)
    | EnumValue(t: TypeDesc, name: Str, n: int)
    | Items(t: TypeDesc, elems: seq<Value>)       // an array, a List<T>, or another enumerable
    | Entries(t: TypeDesc, entries: Table)        // a Dictionary<K, V>
    | Dynamic(entries: Table)                     // the contents of a G9CDynamicObject
    | Expando(entries: Table)                     // the contents of an ExpandoObject
    | Record(t: TypeDesc, slots: Table)           // an instance of a user type: the members set so far

  /**
    `default(T)` of a value type, the all-zero instance: `false`, U+0000, zero, or a struct with
    no member set. The model gives an enum's zero no name, and another built-in type's zero no text.
   */
  function ZeroValue(t: TypeDesc): (r: Value)
    ensures r != Null
  {
    match t
    case TBool => Boolean(false)
    case TChar => Character(0)
    case TIntegral(_) => Integral(t, 0)
    case TFloating(_) => Floating(t, Lit("0"))
    case TEnum(_) => EnumValue(t, [], 0)
    case TBuiltIn(_) => Other(t, [])
    case _ => Record(t, [])
  }

  // ---------------------------------------------------------------------------------------------
  // Tables

  function Keys(t: Table): (r: seq<Str>)
    ensures |r| == |t| && forall i :: 0 <= i < |t| ==> r[i] == t[i].0
  {
    if t == [] then [] else [t[0].0] + Keys(t[1..])
  }

  predicate DistinctKeys(t: Table) {
    forall i, j :: 0 <= i < j < |t| ==> t[i].0 != t[j].0
  }

  /** `dictionary[key]` for a key that is present, `None` for one that is not. */
  function Lookup(t: Table, key: Str): (r: Option<Value>)
    ensures r.None? <==> key !in Keys(t)
  {
    if t == [] then None else if t[0].0 == key then Some(t[0].1) else Lookup(t[1..], key)
  }

  /** `dictionary[key] = value`: overwrites in place when the key is present, appends otherwise. */
  function Put(t: Table, key: Str, value: Value): (r: Table)
    ensures key in Keys(t) ==> |r| == |t|
    ensures key !in Keys(t) ==> r == t + [(key, value)]
  {
    if t == [] then [(key, value)]
    else if t[0].0 == key then [(key, value)] + t[1..]
    else [t[0]] + Put(t[1..], key, value)
  }

  /** After `Put`, the key maps to the new value and every other key to what it mapped to before. */
  lemma {:induction false} PutLookup(t: Table, key: Str, value: Value, other: Str)
    ensures Lookup(Put(t, key, value), key) == Some(value)
    ensures other != key ==> Lookup(Put(t, key, value), other) == Lookup(t, other)
  {
    if t != [] && t[0].0 != key {
      PutLookup(t[1..], key, value, other);
    }
  }

  /** `Put` adds the key to the key set and nothing else, and keeps the keys distinct. */
  lemma {:induction false} PutKeys(t: Table, key: Str, value: Value)
    ensures forall k :: k in Keys(Put(t, key, value)) <==> k == key || k in Keys(t)
    ensures DistinctKeys(t) ==> DistinctKeys(Put(t, key, value))
  {
    if t == [] {
    } else if t[0].0 == key {
      assert Keys(Put(t, key, value)) == [key] + Keys(t[1..]);
      if DistinctKeys(t) {
        NotInTail(t);
        DistinctKeysCons((key, value), t[1..]);
      }
    } else {
      PutKeys(t[1..], key, value);
      assert Keys(Put(t, key, value)) == [t[0].0] + Keys(Put(t[1..], key, value));
      if DistinctKeys(t) {
        NotInTail(t);
        DistinctKeysCons(t[0], Put(t[1..], key, value));
      }
    }
  }
  /** A table in which no key maps to null. */
  predicate NullFree(t: Table) {
    forall i :: 0 <= i < |t| ==> t[i].1 != Null
  }

  /** Storing a value other than null keeps a table free of null. */
  lemma {:induction false} PutNullFree(t: Table, key: Str, value: Value)
    requires NullFree(t) && value != Null
    ensures NullFree(Put(t, key, value))
  {
    PutValues(t, key, value);
  }

  /** Every value `Put` leaves in the table is the one stored or one the table held. */
  lemma {:induction false} PutValues(t: Table, key: Str, value: Value)
    ensures forall i :: 0 <= i < |Put(t, key, value)| ==> Put(t, key, value)[i].1 == value || Put(t, key, value)[i] in t
  {
    if t != [] && t[0].0 != key {
      PutValues(t[1..], key, value);
      var r := Put(t, key, value);
      forall i | 1 <= i < |r|
        ensures r[i].1 == value || r[i] in t
      {
        assert r[i] == Put(t[1..], key, value)[i - 1];
      }
    }
  }


  lemma {:induction false} DistinctKeysCons(e: (Str, Value), t: Table)
    requires DistinctKeys(t) && e.0 !in Keys(t)
    ensures DistinctKeys([e] + t)
  {
    forall i, j | 0 <= i < j < |[e] + t|
      ensures ([e] + t)[i].0 != ([e] + t)[j].0
    {
      if i == 0 {
        assert Keys(t)[j - 1] == t[j - 1].0;
      }
    }
  }

  lemma {:induction false} NotInTail(t: Table)
    requires t != [] && DistinctKeys(t)
    ensures DistinctKeys(t[1..]) && t[0].0 !in Keys(t[1..])
  {
  }

  // ---------------------------------------------------------------------------------------------
  // The host

  /**
    The operations the library calls in other code for, as functions of their inputs. An `Err`
    carries the message of the exception the call throws.
   */
  datatype Host = Host(
    changeType: (Str, TypeDesc) -> Result<Value, Str>,                  // SmartChangeType(text, type)
    toText: Value -> Str,                                                // SmartChangeType<string>(value)
    display: Value -> Str,                                               // value.ToString()
    parseDouble: Str -> Value,                                           // double.TryParse, 0 on failure
    decrypt: (Str, MemberDesc) -> Result<Str, Str>,                      // AES with the member's key
    encrypt: (Str, MemberDesc) -> Str,
    registryToObject: (TypeDesc, Str, Option<MemberDesc>) -> Result<Value, Str>,   // a registered parser's Item1
    registryToJson: (TypeDesc, Value, Option<MemberDesc>) -> (seq<Str>, Option<Str>),  // its Item2: the notes it writes, then the string ObjectToString returns (None for null)
    memberToObject: (MethodSig, Str, MemberDesc) -> Result<Value, Str>,  // a member parser's StringToObject method
    memberToJson: (MethodSig, Value, MemberDesc) -> Str)                // its ObjectToString method

  /** A host whose every call fails or returns nothing: a witness that hosts exist. */
  const InertHost: Host := Host(
    (s: Str, t: TypeDesc) => Err([]), (v: Value) => [], (v: Value) => [], (s: Str) => Null,
    (s: Str, m: MemberDesc) => Err([]), (s: Str, m: MemberDesc) => [],
    (t: TypeDesc, s: Str, m: Option<MemberDesc>) => Err([]), (t: TypeDesc, v: Value, m: Option<MemberDesc>) => ([], None),
    (f: MethodSig, s: Str, m: MemberDesc) => Err([]), (f: MethodSig, v: Value, m: MemberDesc) => [])

  /**
    `value.ToString()`: a string is itself, a char the one code unit, an integer its decimal
    digits and an enum value its name; other values are formatted by the host.
   */
  function Display(h: Host, v: Value): Str {
    match v
    case Text(s) => s
    case Character(c) => [c]
    case Integral(_, n) => DecimalString(n)
    case EnumValue(_, name, _) => name
    case _ => h.display(v)
  }
}

/**
  `G9CJsonCommon`: the registry of custom type parsers, built once from the parser types found
  in the loaded assemblies. `CustomParserCollection` maps a target type to the pair of calls
  (`Item1` text to object, `Item2` object to text) and `CustomParserInstanceCollection` maps it to
  the parser instance, or, for a parser that wants a fresh instance per call, to the parser type.
 */
module JsonCommon {
  import opened Wrappers
  import opened Text
  import opened Values

  /** A parser type found by reflection: its name, target type, whether it derives from the Unique base, and its public methods. */
  datatype ParserDecl = ParserDecl(fullName: Str, target: TypeDesc, unique: bool, methods: seq<MethodSig>)

  /** What `CustomParserInstanceCollection` holds: a parser instance (numbered in creation order), or a parser type. */
  datatype Instance = ParserInstance(parserType: Str, serial: nat) | ParserTypeObject(parserType: Str)

  /** `instance.GetType().FullName`: a stored `Type` object reports the runtime's own type name. */
  function InstanceTypeName(i: Instance): Str {
    match i
    case ParserInstance(n, _) => n
    case ParserTypeObject(_) => Lit("System.RuntimeType")
  }

  /**
    What the pair of calls does: a per-call parser looks its method up on a fresh instance at
    every call; a shared parser calls the methods validated at build time, in descending name order.
   */
  datatype Access =
    | PerCall(target: TypeDesc, methods: seq<MethodSig>)
    | Shared(serial: nat, ordered: seq<MethodSig>)

  /** The static constructor's exception: a second parser for a target type, with both parser type names. */
  datatype RegistryFault = DuplicateParser(typeName: Str, firstParser: Str, secondParser: Str)

  /** An exception thrown by `Item1` or `Item2`. */
  datatype CallFault = KeyNotFound | IndexOutOfRange

  const StringToObjectName: Str := Lit("StringToObject")
  const ObjectToStringName: Str := Lit("ObjectToString")

  /**
    `MethodValidation(method, target)`: `StringToObject(string, G9IMemberGetter)` returning the
    target type, or `ObjectToString(target, G9IMemberGetter)` returning string; any other name fails.
   */
  predicate MethodValidation(m: MethodSig, target: TypeDesc) {
    if m.name == StringToObjectName then
      |m.parameters| == 2 && m.returnType == target && m.parameters[0] == TString && m.parameters[1] == MemberGetterType
    else if m.name == ObjectToStringName then
      |m.parameters| == 2 && m.returnType == TString && m.parameters[0] == target && m.parameters[1] == MemberGetterType
    else false
  }

  /** The methods that pass validation, in reflection order. */
  function Validated(ms: seq<MethodSig>, target: TypeDesc): (r: seq<MethodSig>)
    ensures forall k :: 0 <= k < |r| ==> MethodValidation(r[k], target)
    ensures |r| <= |ms|
  {
    if ms == [] then []
    else (if MethodValidation(ms[0], target) then [ms[0]] else []) + Validated(ms[1..], target)
  }

  /** The methods named `name` that pass validation, in reflection order. */
  function ValidatedNamed(ms: seq<MethodSig>, target: TypeDesc, name: Str): (r: seq<MethodSig>)
    ensures forall k :: 0 <= k < |r| ==> r[k].name == name && MethodValidation(r[k], target)
  {
    if ms == [] then []
    else (if ms[0].name == name && MethodValidation(ms[0], target) then [ms[0]] else []) + ValidatedNamed(ms[1..], target, name)
  }

  // ---------------------------------------------------------------------------------------------
  // Descending order by name (`OrderByDescending(s => s.MethodName)`, a stable sort)

  /** Ordinal comparison of code-unit sequences. */
  predicate LexLess(a: Str, b: Str)
    decreases |a|
  {
    if a == [] then b != []
    else b != [] && (a[0] < b[0] || (a[0] == b[0] && LexLess(a[1..], b[1..])))
  }

  /** Inserts `m` before the first element whose name is not greater than its own. */
  function InsertDescending(m: MethodSig, s: seq<MethodSig>): (r: seq<MethodSig>)
    ensures |r| == |s| + 1
  {
    if s == [] || !LexLess(m.name, s[0].name) then [m] + s else [s[0]] + InsertDescending(m, s[1..])
  }

  function SortDescending(ms: seq<MethodSig>): (r: seq<MethodSig>)
    ensures |r| == |ms|
  {
    if ms == [] then [] else InsertDescending(ms[0], SortDescending(ms[1..]))
  }

  lemma {:induction false} LexLessIrreflexive(a: Str)
    ensures !LexLess(a, a)
    decreases |a|
  {
    if a != [] {
      LexLessIrreflexive(a[1..]);
    }
  }

  lemma {:induction false} LexLessAsymmetric(a: Str, b: Str)
    requires LexLess(a, b)
    ensures !LexLess(b, a)
    decreases |a|
  {
    if a != [] && a[0] == b[0] {
      LexLessAsymmetric(a[1..], b[1..]);
    }
  }

  lemma {:induction false} ObjectToStringBeforeStringToObject()
    ensures LexLess(ObjectToStringName, StringToObjectName)
  {
    assert ObjectToStringName[0] < StringToObjectName[0];
  }

  /** Methods each named `hi` or `lo`. */
  predicate NamedEither(ms: seq<MethodSig>, hi: Str, lo: Str) {
    forall k :: 0 <= k < |ms| ==> ms[k].name == hi || ms[k].name == lo
  }

  function Named(ms: seq<MethodSig>, name: Str): (r: seq<MethodSig>)
    ensures forall k :: 0 <= k < |r| ==> r[k].name == name
  {
    if ms == [] then [] else (if ms[0].name == name then [ms[0]] else []) + Named(ms[1..], name)
  }

  lemma {:induction false} InsertLow(m: MethodSig, a: seq<MethodSig>, b: seq<MethodSig>, hi: Str, lo: Str)
    requires LexLess(lo, hi) && m.name == lo
    requires forall k :: 0 <= k < |a| ==> a[k].name == hi
    requires forall k :: 0 <= k < |b| ==> b[k].name == lo
    ensures InsertDescending(m, a + b) == a + ([m] + b)
    decreases |a|
  {
    if a == [] {
      assert a + b == b;
      LexLessIrreflexive(lo);
    } else {
      assert (a + b)[0] == a[0] && (a + b)[1..] == a[1..] + b;
      InsertLow(m, a[1..], b, hi, lo);
    }
  }

  lemma {:induction false} InsertHigh(m: MethodSig, s: seq<MethodSig>, hi: Str, lo: Str)
    requires LexLess(lo, hi) && m.name == hi && NamedEither(s, hi, lo)
    ensures InsertDescending(m, s) == [m] + s
  {
    if s != [] {
      if s[0].name == hi {
        LexLessIrreflexive(hi);
      } else {
        LexLessAsymmetric(lo, hi);
      }
    }
  }

  /** A method of the higher name goes in front of a run of higher names followed by a run of lower names. */
  lemma {:induction false} InsertHighBefore(m: MethodSig, a: seq<MethodSig>, b: seq<MethodSig>, hi: Str, lo: Str)
    requires LexLess(lo, hi) && m.name == hi
    requires forall k :: 0 <= k < |a| ==> a[k].name == hi
    requires forall k :: 0 <= k < |b| ==> b[k].name == lo
    ensures InsertDescending(m, a + b) == ([m] + a) + b
  {
    RunsNamedEither(a, b, hi, lo);
    InsertHigh(m, a + b, hi, lo);
    assert [m] + (a + b) == ([m] + a) + b;
  }

  lemma {:induction false} RunsNamedEither(a: seq<MethodSig>, b: seq<MethodSig>, hi: Str, lo: Str)
    requires forall k :: 0 <= k < |a| ==> a[k].name == hi
    requires forall k :: 0 <= k < |b| ==> b[k].name == lo
    ensures NamedEither(a + b, hi, lo)
  {
    forall k | 0 <= k < |a + b|
      ensures (a + b)[k].name == hi || (a + b)[k].name == lo
    {
      if k >= |a| { assert (a + b)[k] == b[k - |a|]; }
    }
  }

  lemma {:induction false} NamedOfCons(ms: seq<MethodSig>, hi: Str, lo: Str)
    requires ms != [] && hi != lo
    ensures ms[0].name == hi ==> Named(ms, hi) == [ms[0]] + Named(ms[1..], hi) && Named(ms, lo) == Named(ms[1..], lo)
    ensures ms[0].name == lo ==> Named(ms, hi) == Named(ms[1..], hi) && Named(ms, lo) == [ms[0]] + Named(ms[1..], lo)
  {
  }

  lemma {:induction false} SortTwoNames(ms: seq<MethodSig>, hi: Str, lo: Str)
    requires LexLess(lo, hi) && NamedEither(ms, hi, lo)
    ensures SortDescending(ms) == Named(ms, hi) + Named(ms, lo)
  {
    if ms != [] {
      LexLessIrreflexive(lo);
      assert NamedEither(ms[1..], hi, lo);
      SortTwoNames(ms[1..], hi, lo);
      var a := Named(ms[1..], hi);
      var b := Named(ms[1..], lo);
      NamedOfCons(ms, hi, lo);
      if ms[0].name == hi {
        InsertHighBefore(ms[0], a, b, hi, lo);
      } else {
        InsertLow(ms[0], a, b, hi, lo);
      }
    }
  }

  lemma {:induction false} ValidatedAreParserMethods(ms: seq<MethodSig>, target: TypeDesc)
    ensures NamedEither(Validated(ms, target), StringToObjectName, ObjectToStringName)
  {
    var v := Validated(ms, target);
    forall k | 0 <= k < |v|
      ensures v[k].name == StringToObjectName || v[k].name == ObjectToStringName
    {
      assert MethodValidation(v[k], target);
    }
  }

  /**
    Descending name order puts every validated StringToObject method before every validated
    ObjectToString method, each group in reflection order.
   */
  lemma {:induction false} SharedOrder(ms: seq<MethodSig>, target: TypeDesc)
    ensures SortDescending(Validated(ms, target))
         == Named(Validated(ms, target), StringToObjectName) + Named(Validated(ms, target), ObjectToStringName)
  {
    ValidatedAreParserMethods(ms, target);
    ObjectToStringBeforeStringToObject();
    SortTwoNames(Validated(ms, target), StringToObjectName, ObjectToStringName);
  }

  /**
    The shared variant's `Item1` calls `methods[0]` and its `Item2` calls `methods[1]`: with one
    valid StringToObject method and at least one valid ObjectToString method, these are the
    StringToObject and the ObjectToString method.
   */
  lemma {:induction false} SharedItemsPickTheirMethods(ms: seq<MethodSig>, target: TypeDesc)
    requires |Named(Validated(ms, target), StringToObjectName)| == 1
    requires |Named(Validated(ms, target), ObjectToStringName)| >= 1
    ensures |SortDescending(Validated(ms, target))| >= 2
    ensures SortDescending(Validated(ms, target))[0].name == StringToObjectName
    ensures SortDescending(Validated(ms, target))[1].name == ObjectToStringName
  {
    SharedOrder(ms, target);
    var a := Named(Validated(ms, target), StringToObjectName);
    var b := Named(Validated(ms, target), ObjectToStringName);
    assert (a + b)[0] == a[0] && (a + b)[1] == b[0];
  }

  // ---------------------------------------------------------------------------------------------
  // Building the registry

  /** The two collections, and the number of parser instances created so far. */
  datatype Collections = Collections(parsers: map<TypeDesc, Access>, instances: map<TypeDesc, Instance>, created: nat)

  /** One turn of the static constructor's loop, for a parser whose target is not yet registered. */
  function AddParser(c: Collections, d: ParserDecl): Collections {
    if d.unique then
      Collections(c.parsers[d.target := PerCall(d.target, d.methods)],
                  c.instances[d.target := ParserTypeObject(d.fullName)], c.created)
    else
      Collections(c.parsers[d.target := Shared(c.created, SortDescending(Validated(d.methods, d.target)))],
                  c.instances[d.target := ParserInstance(d.fullName, c.created)], c.created + 1)
  }

  /** The loop from the `i`th discovered parser on. */
  function BuildFrom(ds: seq<ParserDecl>, i: nat, c: Collections): Result<Collections, RegistryFault>
    requires i <= |ds|
    decreases |ds| - i
  {
    if i == |ds| then Ok(c)
    else if ds[i].target in c.instances then
      Err(DuplicateParser(TypeName(ds[i].target), InstanceTypeName(c.instances[ds[i].target]), ds[i].fullName))
    else BuildFrom(ds, i + 1, AddParser(c, ds[i]))
  }

  const NoCollections := Collections(map[], map[], 0)

  /** The static constructor: no collections at all when no parser type exists. */
  function Build(ds: seq<ParserDecl>): Result<Option<Collections>, RegistryFault> {
    if ds == [] then Ok(None)
    else
      match BuildFrom(ds, 0, NoCollections)
      case Ok(c) => Ok(Some(c))
      case Err(e) => Err(e)
  }

  function Targets(ds: seq<ParserDecl>): set<TypeDesc> {
    set k | 0 <= k < |ds| :: ds[k].target
  }

  predicate DistinctTargets(ds: seq<ParserDecl>) {
    forall i, j :: 0 <= i < j < |ds| ==> ds[i].target != ds[j].target
  }

  lemma {:induction false} TargetsSnoc(ds: seq<ParserDecl>, i: nat)
    requires i < |ds|
    ensures Targets(ds[..i + 1]) == Targets(ds[..i]) + {ds[i].target}
  {
    var p, q := ds[..i + 1], ds[..i];
    forall x | x in Targets(p)
      ensures x in Targets(q) + {ds[i].target}
    {
      var k :| 0 <= k < |p| && p[k].target == x;
      if k < i {
        assert q[k] == p[k];
      }
    }
    forall x | x in Targets(q)
      ensures x in Targets(p)
    {
      var k :| 0 <= k < |q| && q[k].target == x;
      assert p[k] == q[k];
    }
    assert p[i] == ds[i];
  }

  lemma {:induction false} DistinctTargetsSnoc(ds: seq<ParserDecl>, i: nat)
    requires i < |ds| && DistinctTargets(ds[..i]) && ds[i].target !in Targets(ds[..i])
    ensures DistinctTargets(ds[..i + 1])
  {
    var p, q := ds[..i + 1], ds[..i];
    forall a, b | 0 <= a < b < |p|
      ensures p[a].target != p[b].target
    {
      assert p[a] == q[a];
      if b < i {
        assert p[b] == q[b];
      }
    }
  }

  /** The loop succeeds exactly when no target repeats, and then both collections are keyed by the targets. */
  lemma {:induction false} BuildFromKeys(ds: seq<ParserDecl>, i: nat, c: Collections)
    requires i <= |ds|
    requires c.parsers.Keys == c.instances.Keys == Targets(ds[..i])
    requires DistinctTargets(ds[..i])
    ensures BuildFrom(ds, i, c).Ok? <==> DistinctTargets(ds)
    ensures BuildFrom(ds, i, c).Ok? ==> BuildFrom(ds, i, c).value.parsers.Keys == Targets(ds)
    ensures BuildFrom(ds, i, c).Ok? ==> BuildFrom(ds, i, c).value.instances.Keys == Targets(ds)
    decreases |ds| - i
  {
    if i == |ds| {
      assert ds[..i] == ds;
    } else if ds[i].target in c.instances {
      var k :| 0 <= k < i && ds[..i][k].target == ds[i].target;
      assert ds[..i][k] == ds[k];
      assert !DistinctTargets(ds);
    } else {
      TargetsSnoc(ds, i);
      DistinctTargetsSnoc(ds, i);
      BuildFromKeys(ds, i + 1, AddParser(c, ds[i]));
    }
  }

  lemma {:induction false} DistinctTargetsCount(ds: seq<ParserDecl>)
    requires DistinctTargets(ds)
    ensures |Targets(ds)| == |ds|
  {
    if ds != [] {
      var last := |ds| - 1;
      var init := ds[..last];
      assert DistinctTargets(init) by {
        forall a, b | 0 <= a < b < |init|
          ensures init[a].target != init[b].target
        {
          assert init[a] == ds[a] && init[b] == ds[b];
        }
      }
      DistinctTargetsCount(init);
      TargetsSnoc(ds, last);
      assert ds[..last + 1] == ds;
      forall k | 0 <= k < |init|
        ensures init[k].target != ds[last].target
      {
        assert init[k] == ds[k];
      }
    }
  }

  /**
    The static constructor throws exactly when two parsers share a target; with no parser it
    leaves both collections null; otherwise both collections hold one key per discovered parser,
    its target.
   */
  lemma {:induction false} BuildKeys(ds: seq<ParserDecl>)
    ensures ds == [] ==> Build(ds) == Ok(None)
    ensures Build(ds).Err? <==> !DistinctTargets(ds)
    ensures ds != [] && Build(ds).Ok? ==> Build(ds).value.Some?
    ensures Build(ds).Ok? && Build(ds).value.Some? ==>
              var c := Build(ds).value.value;
              c.parsers.Keys == c.instances.Keys == Targets(ds) && |c.parsers.Keys| == |ds|
  {
    if ds != [] {
      assert ds[..0] == [];
      BuildFromKeys(ds, 0, NoCollections);
      if DistinctTargets(ds) {
        DistinctTargetsCount(ds);
      }
    }
  }

  /** What the instance collection records for a registered parser. */
  predicate Recorded(inst: Instance, d: ParserDecl) {
    inst.parserType == d.fullName && (inst.ParserTypeObject? <==> d.unique)
  }

  /** The name the exception gives for the parser registered first: its own, or the runtime type's. */
  function FirstParserName(d: ParserDecl): Str {
    InstanceTypeName(if d.unique then ParserTypeObject(d.fullName) else ParserInstance(d.fullName, 0))
  }

  lemma {:induction false} BuildFromDuplicate(ds: seq<ParserDecl>, i: nat, c: Collections, j: nat, k: nat)
    requires k < j < |ds| && i <= j
    requires DistinctTargets(ds[..j]) && ds[k].target == ds[j].target
    requires c.instances.Keys == Targets(ds[..i])
    requires forall n :: 0 <= n < i ==> ds[n].target in c.instances && Recorded(c.instances[ds[n].target], ds[n])
    ensures BuildFrom(ds, i, c) == Err(DuplicateParser(TypeName(ds[j].target), FirstParserName(ds[k]), ds[j].fullName))
    decreases |ds| - i
  {
    if i == j {
      assert Recorded(c.instances[ds[k].target], ds[k]);
    } else {
      forall n | 0 <= n < i
        ensures ds[n].target != ds[i].target
      {
        assert ds[n] == ds[..j][n] && ds[i] == ds[..j][i];
      }
      AddParserRecords(ds, i, c);
      BuildFromDuplicate(ds, i + 1, AddParser(c, ds[i]), j, k);
    }
  }

  /** Registering a parser whose target is new records it beside those already recorded. */
  lemma {:induction false} AddParserRecords(ds: seq<ParserDecl>, i: nat, c: Collections)
    requires i < |ds|
    requires forall n :: 0 <= n < i ==> ds[n].target != ds[i].target
    requires c.instances.Keys == Targets(ds[..i])
    requires forall n :: 0 <= n < i ==> ds[n].target in c.instances && Recorded(c.instances[ds[n].target], ds[n])
    ensures ds[i].target !in c.instances
    ensures AddParser(c, ds[i]).instances.Keys == Targets(ds[..i + 1])
    ensures forall n :: 0 <= n <= i ==>
      ds[n].target in AddParser(c, ds[i]).instances && Recorded(AddParser(c, ds[i]).instances[ds[n].target], ds[n])
  {
    var q := ds[..i];
    forall m | 0 <= m < |q|
      ensures q[m].target != ds[i].target
    {
      assert q[m] == ds[m];
    }
    TargetsSnoc(ds, i);
  }

  /**
    When the `j`th discovered parser is the first to repeat a target, first registered by the
    `k`th, the static constructor throws naming that target, the `k`th parser and the `j`th.
   */
  lemma {:induction false} BuildDuplicate(ds: seq<ParserDecl>, j: nat, k: nat)
    requires k < j < |ds| && DistinctTargets(ds[..j]) && ds[k].target == ds[j].target
    ensures Build(ds) == Err(DuplicateParser(TypeName(ds[j].target), FirstParserName(ds[k]), ds[j].fullName))
  {
    assert ds[..0] == [];
    BuildFromDuplicate(ds, 0, NoCollections, j, k);
  }

  // ---------------------------------------------------------------------------------------------
  // Calling a registered parser

  /** The parser method a call runs, and the parser instance it runs on (numbered in creation order). */
  datatype Call = Call(instance: nat, callee: MethodSig)

  /**
    `Item1`: a per-call parser creates an instance and calls its first valid StringToObject
    method; a shared parser calls the first of its ordered methods on the shared instance.
    Either throws an index exception when there is no such method.
   */
  function Item1Call(a: Access, created: nat): (r: Result<Call, CallFault>)
    ensures a.PerCall? && r.Ok? ==> r.value.instance == created
    ensures a.Shared? && r.Ok? ==> r.value.instance == a.serial
    ensures a.Shared? ==> (r.Ok? <==> a.ordered != [])
  {
    match a
    case PerCall(target, methods) =>
      var v := ValidatedNamed(methods, target, StringToObjectName);
      if v == [] then Err(IndexOutOfRange) else Ok(Call(created, v[0]))
    case Shared(serial, ordered) =>
      if ordered == [] then Err(IndexOutOfRange) else Ok(Call(serial, ordered[0]))
  }

  /** `Item2`: as `Item1`, with ObjectToString for a per-call parser and the second ordered method for a shared one. */
  function Item2Call(a: Access, created: nat): (r: Result<Call, CallFault>)
    ensures a.PerCall? && r.Ok? ==> r.value.instance == created
    ensures a.Shared? && r.Ok? ==> r.value.instance == a.serial
    ensures a.Shared? ==> (r.Ok? <==> |a.ordered| >= 2)
  {
    match a
    case PerCall(target, methods) =>
      var v := ValidatedNamed(methods, target, ObjectToStringName);
      if v == [] then Err(IndexOutOfRange) else Ok(Call(created, v[0]))
    case Shared(serial, ordered) =>
      if |ordered| < 2 then Err(IndexOutOfRange) else Ok(Call(serial, ordered[1]))
  }

  lemma {:induction false} ValidatedNamedEmpty(ms: seq<MethodSig>, target: TypeDesc, name: Str)
    ensures ValidatedNamed(ms, target, name) == [] <==>
            forall k :: 0 <= k < |ms| ==> !(ms[k].name == name && MethodValidation(ms[k], target))
  {
    if ms != [] {
      ValidatedNamedEmpty(ms[1..], target, name);
      assert forall k :: 1 <= k < |ms| ==> ms[k] == ms[1..][k - 1];
    }
  }

  lemma {:induction false} NamesDiffer()
    ensures StringToObjectName != ObjectToStringName
  {
    ObjectToStringBeforeStringToObject();
    LexLessIrreflexive(ObjectToStringName);
  }

  /** A per-call parser's `Item1` runs a valid StringToObject method, and fails exactly when the parser type has none. */
  lemma {:induction false} PerCallItem1(target: TypeDesc, ms: seq<MethodSig>, created: nat)
    ensures Item1Call(PerCall(target, ms), created).Ok? <==>
            exists k :: 0 <= k < |ms| && ms[k].name == StringToObjectName && MethodValidation(ms[k], target)
    ensures Item1Call(PerCall(target, ms), created).Ok? ==>
            var m := Item1Call(PerCall(target, ms), created).value.callee;
            m.name == StringToObjectName && m.returnType == target && m.parameters == [TString, MemberGetterType]
  {
    ValidatedNamedEmpty(ms, target, StringToObjectName);
    var v := ValidatedNamed(ms, target, StringToObjectName);
    if v != [] {
      assert v[0].name == StringToObjectName && MethodValidation(v[0], target);
      assert v[0].parameters == [v[0].parameters[0], v[0].parameters[1]];
    }
  }

  /** A per-call parser's `Item2` runs a valid ObjectToString method, and fails exactly when the parser type has none. */
  lemma {:induction false} PerCallItem2(target: TypeDesc, ms: seq<MethodSig>, created: nat)
    ensures Item2Call(PerCall(target, ms), created).Ok? <==>
            exists k :: 0 <= k < |ms| && ms[k].name == ObjectToStringName && MethodValidation(ms[k], target)
    ensures Item2Call(PerCall(target, ms), created).Ok? ==>
            var m := Item2Call(PerCall(target, ms), created).value.callee;
            m.name == ObjectToStringName && m.returnType == TString && m.parameters == [target, MemberGetterType]
  {
    ValidatedNamedEmpty(ms, target, ObjectToStringName);
    var v := ValidatedNamed(ms, target, ObjectToStringName);
    if v != [] {
      NamesDiffer();
      assert v[0].name == ObjectToStringName && MethodValidation(v[0], target);
      assert v[0].parameters == [v[0].parameters[0], v[0].parameters[1]];
    }
  }

  /** `G9CJsonCommon`'s two static collections, and the count of parser instances created so far. */
  class ParserRegistry {
    var parsers: Option<map<TypeDesc, Access>>
    var instances: Option<map<TypeDesc, Instance>>
    var created: nat
    /** The exception of the static constructor, which every later use of the class rethrows. */
    var initFailure: Option<RegistryFault>

    ghost predicate Valid()
      reads this
    {
      parsers.Some? == instances.Some?
      && (parsers.Some? ==> parsers.value.Keys == instances.value.Keys)
      && (initFailure.Some? ==> parsers.None?)
    }

    /** The static constructor, over the parser types discovered in the loaded assemblies. */
    constructor(discovered: seq<ParserDecl>)
      ensures Valid()
      ensures Build(discovered).Err? ==> initFailure == Some(Build(discovered).error) && parsers.None?
      ensures Build(discovered) == Ok(None) ==> initFailure.None? && parsers.None? && created == 0
      ensures Build(discovered).Ok? && Build(discovered).value.Some? ==>
                var c := Build(discovered).value.value;
                initFailure.None? && parsers == Some(c.parsers) && instances == Some(c.instances) && created == c.created
    {
      BuildKeys(discovered);
      if |discovered| == 0 {
        parsers, instances, created, initFailure := None, None, 0, None;
      } else {
        var ps: map<TypeDesc, Access> := map[];
        var insts: map<TypeDesc, Instance> := map[];
        var n: nat := 0;
        var failed: Option<RegistryFault> := None;
        var i := 0;
        while i < |discovered| && failed.None?
          invariant 0 <= i <= |discovered|
          invariant failed.None? ==> BuildFrom(discovered, 0, NoCollections) == BuildFrom(discovered, i, Collections(ps, insts, n))
          invariant failed.Some? ==> BuildFrom(discovered, 0, NoCollections) == Err(failed.value)
          decreases |discovered| - i, if failed.None? then 1 else 0
        {
          var d := discovered[i];
          if d.target in insts {
            failed := Some(DuplicateParser(TypeName(d.target), InstanceTypeName(insts[d.target]), d.fullName));
          } else {
            if d.unique {
              ps := ps[d.target := PerCall(d.target, d.methods)];
              insts := insts[d.target := ParserTypeObject(d.fullName)];
            } else {
              var methods := SortDescending(Validated(d.methods, d.target));
              ps := ps[d.target := Shared(n, methods)];
              insts := insts[d.target := ParserInstance(d.fullName, n)];
              n := n + 1;
            }
            i := i + 1;
          }
        }
        if failed.Some? {
          parsers, instances, created, initFailure := None, None, n, failed;
        } else {
          parsers, instances, created, initFailure := Some(ps), Some(insts), n, None;
        }
      }
    }

    /** `CustomParserCollection != null && CustomParserCollection.ContainsKey(key)`. */
    predicate Registered(key: TypeDesc)
      reads this
    {
      parsers.Some? && key in parsers.value
    }

    /** The runtime type name of each registered parser, as the reader's messages give it. */
    function ParserNames(): (r: Option<map<TypeDesc, Str>>)
      reads this
      requires Valid()
      ensures r.Some? <==> parsers.Some?
      ensures r.Some? ==> forall key :: key in r.value <==> Registered(key)
    {
      match instances
      case None => None
      case Some(m) => Some(map key | key in m :: InstanceTypeName(m[key]))
    }

    /** Runs `Item1` of a registered type: a per-call parser creates one more instance. */
    method Item1(target: TypeDesc) returns (r: Result<Call, CallFault>)
      requires Registered(target)
      modifies this
      ensures parsers == old(parsers) && instances == old(instances) && initFailure == old(initFailure)
      ensures r == Item1Call(parsers.value[target], old(created))
      ensures created == if parsers.value[target].PerCall? then old(created) + 1 else old(created)
    {
      var access := parsers.value[target];
      match access
      case PerCall(t, methods) =>
        var instance := created;
        created := created + 1;
        var v := ValidatedNamed(methods, t, StringToObjectName);
        if v == [] {
          r := Err(IndexOutOfRange);
        } else {
          r := Ok(Call(instance, v[0]));
        }
      case Shared(serial, ordered) =>
        if ordered == [] {
          r := Err(IndexOutOfRange);
        } else {
          r := Ok(Call(serial, ordered[0]));
        }
    }

    /** Runs `Item2` of a registered type: a per-call parser creates one more instance. */
    method Item2(target: TypeDesc) returns (r: Result<Call, CallFault>)
      requires Registered(target)
      modifies this
      ensures parsers == old(parsers) && instances == old(instances) && initFailure == old(initFailure)
      ensures r == Item2Call(parsers.value[target], old(created))
      ensures created == if parsers.value[target].PerCall? then old(created) + 1 else old(created)
    {
      var access := parsers.value[target];
      match access
      case PerCall(t, methods) =>
        var instance := created;
        created := created + 1;
        var v := ValidatedNamed(methods, t, ObjectToStringName);
        if v == [] {
          r := Err(IndexOutOfRange);
        } else {
          r := Ok(Call(instance, v[0]));
        }
      case Shared(serial, ordered) =>
        if |ordered| < 2 {
          r := Err(IndexOutOfRange);
        } else {
          r := Ok(Call(serial, ordered[1]));
        }
    }
  }
}

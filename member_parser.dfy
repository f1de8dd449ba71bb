/**
  `G9AttrJsonMemberCustomParserAttribute` (which the reader and the writer also know as
  `G9AttrCustomParserAttribute`): a member attribute naming the methods that convert the member's
  text to a value and back. Its three constructors check their arguments, resolve each method by
  name and signature on the target type, and fix `ParserType`; the attribute is immutable after
  construction, so each constructor is a function from its arguments to the attribute or to the
  exception it throws.
 */
module MemberParserAttribute {
  import opened Wrappers
  import opened Text
  import opened Values

  /** A type handed to the attribute: its name, whether it is a static class, and its public methods. */
  datatype TargetType = TargetType(fullName: Str, isStatic: bool, declared: seq<MethodSig>, inherited: seq<MethodSig>)

  /**
    The exceptions the constructors throw. `ArgumentNull` is the `ArgumentNullException` for the
    named parameter ("… argument can't be null."); the other two are the `ArgumentException`s of
    `PrepareParserMethod`, each naming the target type and the method: "… the specified parser
    method with the name '…' is not found." and "The specified method (…) was found, but its
    parameters (or return type) are incorrect. …".
   */
  datatype ArgumentFault =
    | ArgumentNull(paramName: string)
    | NotFound(typeName: Str, methodName: Str)
    | BadSignature(typeName: Str, methodName: Str)

  /** The methods searched: the declared ones for a static class, inherited ones as well otherwise. */
  function Candidates(t: TargetType): seq<MethodSig> {
    if t.isStatic then t.declared else t.declared + t.inherited
  }

  /**
    `MethodValidation`: exactly two parameters; `(string, G9IMemberGetter) -> object` for the
    StringToObject method, `(object, G9IMemberGetter) -> string` for the ObjectToString method.
   */
  predicate MethodValidation(isStringToObjectMethod: bool, m: MethodSig) {
    |m.parameters| == 2 && m.parameters[1] == MemberGetterType &&
    if isStringToObjectMethod then m.parameters[0] == TString && m.returnType == TObject
    else m.parameters[0] == TObject && m.returnType == TString
  }

  /** Whether some method carries the name (the source's `findButNotMatch` once the search is over). */
  predicate SomeNamed(ms: seq<MethodSig>, name: Str) {
    exists i :: 0 <= i < |ms| && ms[i].name == name
  }

  /** `FirstOrDefault` over the methods that have the name and pass validation. */
  function FirstMatching(ms: seq<MethodSig>, isStringToObjectMethod: bool, name: Str): (r: Option<MethodSig>)
    ensures r.Some? ==> r.value in ms && r.value.name == name && MethodValidation(isStringToObjectMethod, r.value)
    ensures r.None? <==> forall i :: 0 <= i < |ms| ==> !(ms[i].name == name && MethodValidation(isStringToObjectMethod, ms[i]))
  {
    if ms == [] then None
    else if ms[0].name == name && MethodValidation(isStringToObjectMethod, ms[0]) then Some(ms[0])
    else
      var r := FirstMatching(ms[1..], isStringToObjectMethod, name);
      assert forall i :: 1 <= i < |ms| ==> ms[i] == ms[1..][i - 1];
      r
  }

  /**
    `PrepareParserMethod` as written: when nothing matches, the "not found" message is chosen when
    a method of that name exists and the "wrong signature" message when none does.
   */
  function PrepareParserMethodAsWritten(isStringToObjectMethod: bool, t: TargetType, methodName: Str): (r: Result<MethodSig, ArgumentFault>)
  {
    var ms := Candidates(t);
    match FirstMatching(ms, isStringToObjectMethod, methodName)
    case Some(m) => Ok(m)
    case None =>
      if SomeNamed(ms, methodName) then Err(NotFound(t.fullName, methodName))
      else Err(BadSignature(t.fullName, methodName))
  }

  /**
    `PrepareParserMethod` with the two messages the right way round: the first method with the
    name that passes validation, else "wrong signature" exactly when a method of that name exists.
   */
  function PrepareParserMethod(isStringToObjectMethod: bool, t: TargetType, methodName: Str): (r: Result<MethodSig, ArgumentFault>)
    ensures r.Ok? ==> r.value in Candidates(t) && r.value.name == methodName && MethodValidation(isStringToObjectMethod, r.value)
    ensures r.Err? <==> forall i :: 0 <= i < |Candidates(t)| ==>
                          !(Candidates(t)[i].name == methodName && MethodValidation(isStringToObjectMethod, Candidates(t)[i]))
    ensures r.Err? ==> r.error == if SomeNamed(Candidates(t), methodName) then BadSignature(t.fullName, methodName)
                                 else NotFound(t.fullName, methodName)
  {
    var ms := Candidates(t);
    match FirstMatching(ms, isStringToObjectMethod, methodName)
    case Some(m) => Ok(m)
    case None =>
      if SomeNamed(ms, methodName) then Err(BadSignature(t.fullName, methodName))
      else Err(NotFound(t.fullName, methodName))
  }

  /** A method of the right name whose parameters are wrong is reported as missing by the code as written. */
  lemma {:induction false} PrepareParserMethodAsWrittenSwapsMessages()
    ensures var t := TargetType(Lit("P"), true, [MethodSig(Lit("Parse"), [TString], TObject)], []);
      PrepareParserMethodAsWritten(true, t, Lit("Parse")) == Err(NotFound(Lit("P"), Lit("Parse")))
      && PrepareParserMethod(true, t, Lit("Parse")) == Err(BadSignature(Lit("P"), Lit("Parse")))
  {
    var t := TargetType(Lit("P"), true, [MethodSig(Lit("Parse"), [TString], TObject)], []);
    assert Candidates(t)[0].name == Lit("Parse");
  }

  predicate NullOrEmpty(s: Option<Str>) {
    s.None? || s.value == []
  }

  /** The attribute's kind agrees with the methods it holds: a method is present exactly where its direction is enabled. */
  predicate WellFormed(a: ParserAttribute) {
    (a.parserType != ObjectToJson <==> a.stringToObjectMethod.Some?)
    && (a.parserType != StringToObject <==> a.objectToStringMethod.Some?)
  }

  /** The one-method constructor `(isStringToObjectMethod, targetObjectType, methodName)`. */
  function OneMethod(isStringToObjectMethod: bool, target: Option<TargetType>, methodName: Option<Str>): (r: Result<ParserAttribute, ArgumentFault>)
    ensures target.None? ==> r == Err(ArgumentNull("targetObjectType"))
    ensures target.Some? && NullOrEmpty(methodName) ==> r == Err(ArgumentNull("methodName"))
    ensures r.Ok? ==> WellFormed(r.value)
    ensures r.Ok? ==> (r.value.parserType == StringToObject <==> isStringToObjectMethod)
    ensures r.Ok? && isStringToObjectMethod ==>
              r.value.stringToObjectMethod.value.name == methodName.value && MethodValidation(true, r.value.stringToObjectMethod.value)
    ensures r.Ok? && !isStringToObjectMethod ==>
              r.value.objectToStringMethod.value.name == methodName.value && MethodValidation(false, r.value.objectToStringMethod.value)
    ensures target.Some? && !NullOrEmpty(methodName) ==>
              (r.Ok? <==> PrepareParserMethod(isStringToObjectMethod, target.value, methodName.value).Ok?)
  {
    if target.None? then Err(ArgumentNull("targetObjectType"))
    else if NullOrEmpty(methodName) then Err(ArgumentNull("methodName"))
    else
      match PrepareParserMethod(isStringToObjectMethod, target.value, methodName.value)
      case Err(e) => Err(e)
      case Ok(m) =>
        if isStringToObjectMethod then Ok(ParserAttribute(StringToObject, Some(m), None))
        else Ok(ParserAttribute(ObjectToJson, None, Some(m)))
  }

  /** Both methods resolved on their targets, in the order the two-method constructors resolve them. */
  function BothMethods(target1: TargetType, stringToObjectMethodName: Str, target2: TargetType, objectToStringMethodName: Str)
    : (r: Result<ParserAttribute, ArgumentFault>)
    ensures r.Ok? ==> WellFormed(r.value) && r.value.parserType == BothOfThem
    ensures r.Ok? <==> PrepareParserMethod(true, target1, stringToObjectMethodName).Ok?
                       && PrepareParserMethod(false, target2, objectToStringMethodName).Ok?
    ensures r.Ok? ==> r.value.stringToObjectMethod == Some(PrepareParserMethod(true, target1, stringToObjectMethodName).value)
    ensures r.Ok? ==> r.value.objectToStringMethod == Some(PrepareParserMethod(false, target2, objectToStringMethodName).value)
  {
    match PrepareParserMethod(true, target1, stringToObjectMethodName)
    case Err(e) => Err(e)
    case Ok(m1) =>
      match PrepareParserMethod(false, target2, objectToStringMethodName)
      case Err(e) => Err(e)
      case Ok(m2) => Ok(ParserAttribute(BothOfThem, Some(m1), Some(m2)))
  }

  /** The two-method constructor `(targetObjectType, stringToObjectMethodName, objectToStringMethodName)`. */
  function TwoMethods(target: Option<TargetType>, stringToObjectMethodName: Option<Str>, objectToStringMethodName: Option<Str>)
    : (r: Result<ParserAttribute, ArgumentFault>)
    ensures target.None? ==> r == Err(ArgumentNull("targetObjectType"))
    ensures target.Some? && NullOrEmpty(stringToObjectMethodName) ==>
              r == Err(ArgumentNull("stringToObjectMethodName"))
    ensures target.Some? && !NullOrEmpty(stringToObjectMethodName) && NullOrEmpty(objectToStringMethodName) ==>
              r == Err(ArgumentNull("objectToStringMethodName"))
    ensures r.Ok? ==> WellFormed(r.value) && r.value.parserType == BothOfThem
  {
    if target.None? then Err(ArgumentNull("targetObjectType"))
    else if NullOrEmpty(stringToObjectMethodName) then
      Err(ArgumentNull("stringToObjectMethodName"))
    else if NullOrEmpty(objectToStringMethodName) then
      Err(ArgumentNull("objectToStringMethodName"))
    else BothMethods(target.value, stringToObjectMethodName.value, target.value, objectToStringMethodName.value)
  }

  /** The four-argument constructor, with a target type for each method. */
  function TwoTargets(
    targetForStringToObject: Option<TargetType>, stringToObjectMethodName: Option<Str>,
    targetForObjectToString: Option<TargetType>, objectToStringMethodName: Option<Str>)
    : (r: Result<ParserAttribute, ArgumentFault>)
    ensures targetForStringToObject.None? ==>
              r == Err(ArgumentNull("targetObjectTypeForStringToObjectMethod"))
    ensures targetForStringToObject.Some? && NullOrEmpty(stringToObjectMethodName) ==>
              r == Err(ArgumentNull("stringToObjectMethodName"))
    ensures targetForStringToObject.Some? && !NullOrEmpty(stringToObjectMethodName) && targetForObjectToString.None? ==>
              r == Err(ArgumentNull("targetObjectTypeForObjectToStringMethod"))
    ensures targetForStringToObject.Some? && !NullOrEmpty(stringToObjectMethodName) && targetForObjectToString.Some?
            && NullOrEmpty(objectToStringMethodName) ==>
              r == Err(ArgumentNull("objectToStringMethodName"))
    ensures r.Ok? ==> WellFormed(r.value) && r.value.parserType == BothOfThem
  {
    if targetForStringToObject.None? then
      Err(ArgumentNull("targetObjectTypeForStringToObjectMethod"))
    else if NullOrEmpty(stringToObjectMethodName) then
      Err(ArgumentNull("stringToObjectMethodName"))
    else if targetForObjectToString.None? then
      Err(ArgumentNull("targetObjectTypeForObjectToStringMethod"))
    else if NullOrEmpty(objectToStringMethodName) then
      Err(ArgumentNull("objectToStringMethodName"))
    else BothMethods(targetForStringToObject.value, stringToObjectMethodName.value,
                     targetForObjectToString.value, objectToStringMethodName.value)
  }

  /** The reader uses the StringToObject method exactly when the kind is not ObjectToJson. */
  predicate ReaderUsesParser(a: ParserAttribute) { a.parserType != ObjectToJson }

  /** The writer uses the ObjectToString method exactly when the kind is not StringToObject. */
  predicate WriterUsesParser(a: ParserAttribute) { a.parserType != StringToObject }

  /**
    Whichever constructor built it, an attribute holds the method each side calls: the reader's
    method when the reader calls it, the writer's when the writer does, and a one-method
    attribute is used by exactly one side.
   */
  lemma {:induction false} ConstructedAttributesServeTheirSide(a: ParserAttribute)
    requires WellFormed(a)
    ensures ReaderUsesParser(a) ==> a.stringToObjectMethod.Some?
    ensures WriterUsesParser(a) ==> a.objectToStringMethod.Some?
    ensures a.parserType != BothOfThem ==> (ReaderUsesParser(a) != WriterUsesParser(a))
  {
  }
}

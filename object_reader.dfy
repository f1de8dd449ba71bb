/**
  The imperative side of the Core reader: `ParseObject` filling a fresh instance member by member,
  `CreateDictionaryOfMembers` building its case-insensitive member index, and `G9JsonToObject`
  running the comment pre-pass and the normalisation loop before the value reader. Each method
  is proved to compute the function of `Reader` that specifies it.
 */
module ObjectReader {
  import opened Wrappers
  import opened Text
  import opened Values
  import opened JsonScanner
  import opened Escaping
  import opened CommentFilter
  import opened Reader

  /** The instance `CreateUninitializedInstanceFromType` makes: no member set, then one `SetValue` at a time. */
  class ObjectInstance {
    const t: TypeDesc
    var slots: Table

    constructor(t: TypeDesc)
      ensures this.t == t && slots == []
    {
      this.t := t;
      slots := [];
    }

    /** `memberInfo.SetValue(value)`: the member now holds the value, every other member is unchanged. */
    method SetValue(name: Str, v: Value)
      modifies this
      ensures slots == Put(old(slots), name, v)
      ensures Lookup(slots, name) == Some(v)
      ensures forall k :: k != name ==> Lookup(slots, k) == Lookup(old(slots), k)
    {
      forall k | true
        ensures Lookup(Put(slots, name, v), name) == Some(v)
        ensures k != name ==> Lookup(Put(slots, name, v), k) == Lookup(slots, k)
      {
        PutLookup(slots, name, v, k);
      }
      slots := Put(slots, name, v);
    }
  }

  /**
    `CreateDictionaryOfMembers` over the fields and then over the properties: each member is added
    under its key, and `Add` throws on a key already present, ignoring case.
   */
  method CreateDictionaryOfMembers(ms: seq<MemberDesc>) returns (r: Result<seq<MemberDesc>, Fault>)
    ensures r == MemberIndex(ms)
  {
    var i := 0;
    while i < |ms|
      invariant i <= |ms|
      invariant IndexFrom(ms, i) == MemberIndex(ms)
    {
      var taken := Find(ms[..i], JsonName(ms[i]));
      assert taken.Some? <==> NameTaken(ms[..i], ms[i]);
      if taken.Some? {
        return Err(DuplicateKey(JsonName(ms[i])));
      }
      i := i + 1;
    }
    return Ok(ms);
  }

  /**
    `ParseObject`: split the span; a registered type goes to its parser; otherwise a fresh instance,
    returned blank when the pieces do not pair up, gets each known member set from its pair.
   */
  method ParseObject(scratch: ParserScratch, ctx: Context, t: TypeDesc, json: Str) returns (r: Result<Value, Fault>)
    requires |json| >= 1
    modifies scratch
    ensures r == ReadObject(ctx, t, json)
  {
    ReadObjectCases(ctx, t, json);
    var split := scratch.Splitter(json, true);
    if split.None? {
      return Err(IndexOutOfRange);
    }
    var elems := split.value;
    SplitPiecesShorter(json, true);
    if Registered(ctx, t) {
      return RegistryObject(ctx, t, json, elems);
    }
    var instance := new ObjectInstance(t);
    if |elems| % 2 != 0 {
      return Ok(Record(t, instance.slots));
    }
    var index := CreateDictionaryOfMembers(IndexedMembers(ctx, t));
    if index.Err? {
      return Err(index.error);
    }
    var members := index.value;
    var i := 0;
    while i < |elems|
      invariant i % 2 == 0 && i <= |elems|
      invariant Slots(ctx, t, json, elems, members, i, instance.slots) == Slots(ctx, t, json, elems, members, 0, [])
    {
      var fault := ReadPair(instance, ctx, json, elems, members, i);
      if fault.Some? {
        return Err(fault.value);
      }
      i := i + 2;
    }
    return Ok(Record(t, instance.slots));
  }

  /**
    One pass of the member loop of `ParseObject`, on the pair at `i`: the member the key names is
    set from the value piece, or the pair is skipped, or the fault that escapes is returned.
   */
  method ReadPair(instance: ObjectInstance, ctx: Context, json: Str, elems: seq<Str>, members: seq<MemberDesc>, i: nat)
    returns (fault: Option<Fault>)
    requires |elems| % 2 == 0 && i % 2 == 0 && i < |elems|
    requires forall k :: 0 <= k < |elems| ==> |elems[k]| < |json|
    modifies instance
    ensures var step := SlotStep(ctx, instance.t, json, elems, members, i);
      match step
      case Err(e) => fault == Some(e)
      case Ok(None) => fault.None? && instance.slots == old(instance.slots)
      case Ok(Some((name, v))) => fault.None? && instance.slots == Put(old(instance.slots), name, v)
  {
    if |elems[i]| <= 2 {
      return None;
    }
    var key := Interior(elems[i]);
    var trimmed := TrimStringSign(elems[i + 1]);
    if trimmed.None? {
      return Some(TrimFault(elems[i + 1]));
    }
    var found := Find(members, key);
    if found.None? {
      return None;
    }
    var m := found.value;
    var value := trimmed.value;
    if m.encrypted {
      var plain := ctx.host.decrypt(value, m);
      if plain.Err? {
        return Some(HostFault(plain.error));
      }
      value := plain.value;
    }
    var outcome := Caught(ctx, instance.t, m, value, MemberConversion(ctx, m, elems[i + 1], value, false));
    if outcome.Err? {
      return Some(outcome.error);
    }
    if outcome.value.Some? {
      instance.SetValue(m.name, outcome.value.value);
    }
    return None;
  }

  /**
    `G9JsonToObject`: the comment pre-pass (with string literals left alone), the normalisation
    loop, whose unguarded reads are an index fault, and the value reader on what remains.
   */
  function ToObject(ctx: Context, t: TypeDesc, json: Str): Result<Value, Fault> {
    match Normalise(StripCommentsOutsideStrings(json))
    case None => Err(IndexOutOfRange)
    case Some(compact) => ParsePure(ctx, t, compact)
  }

  method JsonToObject(scratch: ParserScratch, ctx: Context, t: TypeDesc, json: Str) returns (r: Result<Value, Fault>)
    modifies scratch
    ensures r == ToObject(ctx, t, json)
  {
    var stripped := StripCommentsOutsideStrings(json);
    var compact := scratch.Normalise(stripped);
    if compact.None? {
      return Err(IndexOutOfRange);
    }
    r := ParsePure(ctx, t, compact.value);
  }

  /** A document holding only a written string literal reads back as that string. */
  lemma {:induction false} StringDocumentRoundTrip(ctx: Context, s: Str)
    requires !StartsWithMarker(Escape(s))
    ensures ToObject(ctx, TString, [QUOTE] + Escape(s) + [QUOTE]) == Ok(Text(s))
  {
    var b := Escape(s);
    var w := [QUOTE] + b + [QUOTE];
    WrittenStringSurvives(s, []);
    assert w + [] == w;
    assert StripCommentsOutsideStrings([]) == [];
    EscapedIsStringBody(s);
    assert w[1..|b| + 1] == b;
    ScanStopsAtClosingQuote(w, 1, |b| + 1, true);
    ScanVerbatim(w, 1);
    assert w[1..|w|] == b + [QUOTE];
    assert [QUOTE] + w[1..|w|] == w;
    assert CatchString(w, 0, true) == Scan(|w| - 1, w);
    assert NormFrom(w, |w|, false) == Some([]);
    assert Normalise(w) == Some(w + []);
    TypedStringRoundTrip(ctx, s);
  }

  /** Text without white space, slashes or quotes passes the normalisation loop unchanged. */
  lemma {:induction false} NormalisePlain(s: Str, i: nat)
    requires i <= |s|
    requires forall k :: 0 <= k < |s| ==> !IsWhiteSpace(s[k]) && s[k] != SLASH && s[k] != QUOTE
    ensures NormFrom(s, i, false) == Some(s[i..])
    decreases |s| - i
  {
    if i < |s| {
      NormalisePlain(s, i + 1);
      assert s[i..] == [s[i]] + s[i + 1..];
    }
  }

  /** A document holding only a 32-bit integer, read as `object`, is that `int`. */
  lemma {:induction false} IntegerDocumentRoundTrip(ctx: Context, n: int)
    requires Int32Min <= n <= Int32Max
    ensures ToObject(ctx, TObject, DecimalString(n)) == Ok(Integral(Int32Type, n))
  {
    var w := DecimalString(n);
    var d := if n < 0 then Digits(-n) else Digits(n);
    assert forall k :: 0 <= k < |w| ==> w[k] == MINUS || IsAsciiDigit(w[k]) by {
      forall k | 0 <= k < |w| ensures w[k] == MINUS || IsAsciiDigit(w[k]) {
        if n < 0 && k > 0 { assert w[k] == d[k - 1]; }
      }
    }
    assert CommentFree(w);
    StripFromCommentFreeOutside(w, 0);
    NormalisePlain(w, 0);
    assert w[0..] == w;
    assert Normalise(StripCommentsOutsideStrings(w)) == Some(w);
    assert w != NullToken by {
      assert NullToken[0] == 0x6E;
    }
    assert !Braced(w) && !Bracketed(w);
    AnonymousIntegerRoundTrip(ctx.host, n);
    assert ParseUntyped(ctx, TObject, w) == AnonymousValue(ctx.host, w);
  }

  /** Comment-free text passes the corrected pre-pass unchanged when it holds no quote either. */
  lemma {:induction false} StripFromCommentFreeOutside(s: Str, i: nat)
    requires i <= |s| && CommentFree(s)
    requires forall k :: 0 <= k < |s| ==> s[k] != QUOTE
    ensures StripOutsideStrings(s, i) == s[i..]
    decreases |s| - i
  {
    if i < |s| {
      assert CommentMatch(s, i).None?;
      StripFromCommentFreeOutside(s, i + 1);
      assert s[i..] == s[i..i + 1] + s[i + 1..];
    }
  }
}

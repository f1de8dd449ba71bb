# G9JSONHandler, modelled in Dafny

G9JSONHandler is a C# library that converts .NET objects to JSON text and back without a
tokenizer. It works directly on the text: it compacts the document, cuts `{...}` and `[...]`
spans into top-level pieces by counting depth, and converts each piece according to the target
type.

This project models that text-level engine, in two versions:

- **The current engine** (`Core/G9JSONParser.cs`, `Core/G9JSONWriter.cs`), with the pieces it
  depends on:
  - the custom-parser registry (`Common/G9CJsonCommon.cs`);
  - the per-member custom-parser attribute
    (`Attributes/G9AttrJsonMemberCustomParserAttribute.cs`);
  - the dynamic object (`DataType/G9CDynamicObject.cs`).
- **The older standalone engine** (the root-level `G9JSONParser.cs` and `G9JSONWriter.cs`).

## How the model is built

- **Text.** A C# `char` is a UTF-16 code unit, so text is `seq<Char16>` with
  `newtype Char16 = 0..0xFFFF` (module `Text`). Dafny `char` would exclude surrogates.
- **Values.** .NET objects become values of one datatype (module `Values`): null, text,
  character, boolean, integral, floating token, enum, other built-in token, item list, entry
  table, dynamic object, expando, and record.
- **Types.** Types are described by a `TypeDesc` datatype. Record types are looked up by name in
  a schema, so recursive types can be described.
- **Reflection and conversions.** Reflection, `SmartChangeType`, `Enum.Parse`, AES and the user's
  parser methods are total functions in a `Host` value, passed as a parameter.
- **Exceptions.** Every exception the source can throw is an explicit `Err` value. This includes
  unguarded indexing (`IndexOutOfRange`), `Substring` out of range (`ArgumentOutOfRange`) and
  duplicate `Add` (`DuplicateKey`).
- **Imperative code.** Code that appends to a `StringBuilder` or fills an instance in a loop is
  a class with methods. Each method is proved equal to a specification function; the
  properties are then proved about those functions:
  - `JsonScanner.ParserScratch` for the shared builder of the parser;
  - `ObjectWriter.JsonWriter`, `DynamicWriter.DynamicJsonWriter` and
    `LegacyWriter.LegacyJsonWriter` for the writers' builder and tab counter;
  - `LegacyReader.LegacyParser` for the legacy reader's per-type caches;
  - `ObjectReader.ObjectInstance` for the instance being filled;
  - `DynamicObjects.DynamicObject` for the dynamic object's dictionary.
- **Legacy scanning.** The legacy `AppendUntilStringEnd` and `Split`
  (`G9JSONHandler/G9JSONHandler/G9JSONParser.cs:50-116`) are the same algorithm as the current
  `CatchStringBetweenSigns` and `Splitter` with the flag set. The legacy reader therefore uses
  `JsonScanner.ScanFrom` and `JsonScanner.Split` with `keep = true`, and the splitter lemmas
  cover both.

All source paths below are relative to the repository root.

## Model

| member | source | states |
|---|---|---|
| Text.ParseHex4OfHex4 | G9JSONHandler/G9JSONHandler/Core/G9JSONParser.cs:443-450 | Four uppercase hex digits written for a code unit are read back as that unit, the `\uXXXX` round trip of the escape pair |
| Text.ParseInt32OfDecimal | G9JSONHandler/G9JSONHandler/Core/G9JSONParser.cs:507-511 | `int.TryParse` of the decimal text of a 32-bit integer gives back that integer |
| Values.PutLookup | G9JSONHandler/G9JSONHandler/DataType/G9CDynamicObject.cs:14 | After storing a value under a key, that key looks up the new value and every other key looks up what it did before |
| Values.PutKeys | G9JSONHandler/G9JSONHandler/DataType/G9CDynamicObject.cs:14 | Storing under a key adds exactly that key to the key set and keeps keys distinct |
| Escaping.PrepareCharactersForStoring | G9JSONHandler/G9JSONHandler/Core/G9JSONWriter.cs:86-106 | The builder loop produces `Escape(stringData)`: `"`, `\` and controls get a backslash, with the short forms `" \ n r t b f` and otherwise `u` plus four uppercase hex digits |
| Escaping.EscapeString | G9JSONHandler/G9JSONHandler/Core/G9JSONWriter.cs:526-547 | The dynamic writer's loop produces `EscapeDynamic(str)`, which has short forms only for `\ " n r t` |
| Escaping.EscapedHasNoControl | G9JSONHandler/G9JSONHandler/Core/G9JSONWriter.cs:86-106 | Escaped text holds no unit below space and never starts with a raw quote |
| Escaping.EscapersAgreeWithoutBackspaceOrFormFeed | G9JSONHandler/G9JSONHandler/Core/G9JSONWriter.cs:526-547 | The two escapers agree on every string without backspace or form feed |
| Escaping.EscapedIsStringBody | G9JSONHandler/G9JSONHandler/Core/G9JSONParser.cs:106-131 | Escaped text is a well-formed string body: every quote in it is preceded by an escaping backslash, so the string scanner stops only at the closing quote |
| Escaping.PrepareStringType | G9JSONHandler/G9JSONHandler/Core/G9JSONParser.cs:427-457 | The unescape loop, with the source's `i + 5 < json.Length - 1` guard on `\uXXXX`, produces `UnescapeAsWritten(json)` |
| Escaping.UnescapeWith | G9JSONHandler/G9JSONHandler/Core/G9JSONParser.cs:427-457 | Unescaping never lengthens its input |
| Escaping.UnescapeOfEscape | G9JSONHandler/G9JSONHandler/Core/G9JSONParser.cs:427-457 | With the corrected `\uXXXX` guard, unescaping inverts the writer's escaping on every string |
| Escaping.UnescapeOfEscapeDynamic | G9JSONHandler/G9JSONHandler/Core/G9JSONWriter.cs:526-547 | With the corrected guard, unescaping also inverts the dynamic writer's escaping on every string |
| Escaping.UnescapeAsWrittenMissesFinalCodeEscape | G9JSONHandler/G9JSONHandler/Core/G9JSONParser.cs:443 | With the guard as written, a `\uXXXX` escape that ends the text is left undecoded: the escaped U+0001 reads back as six units |
| Escaping.UnescapeAsWrittenOfEscape | G9JSONHandler/G9JSONHandler/Core/G9JSONParser.cs:427-457 | With the guard as written, reading back what the writer escaped gives the string exactly when its last unit is not written as `\uXXXX`; otherwise that last escape comes back as its six units |
| Escaping.UnescapeAsWrittenOfEscapeDynamic | G9JSONHandler/G9JSONHandler/Core/G9JSONParser.cs:427-457 | With the guard as written, the dynamic writer's escaping is read back whenever the string does not end in a unit written as `\uXXXX` |
| Escaping.TrimStringSign | G9JSONHandler/G9JSONHandler/Core/G9JSONParser.cs:668-675 | Fails exactly on the empty value and a lone quote; strips one quote at each end when both are present; otherwise returns the value unchanged |
| Escaping.TrimWrittenString | G9JSONHandler/G9JSONHandler/Core/G9JSONParser.cs:233-235 | Trimming a written string gives its escaped body; a second trim of that body changes nothing, and fails only when the string was empty |
| Escaping.AnonymousStringAsWrittenBreaksEscapedBackslash | G9JSONHandler/G9JSONHandler/Core/G9JSONParser.cs:490-498 | The replace chain as written turns the escaped two-unit string backslash-n into backslash-line-feed, while unescaping gives it back |
| Escaping.AnonymousStringAsWrittenReadsBack | G9JSONHandler/G9JSONHandler/Core/G9JSONParser.cs:490-498 | The `Replace` chain as written reads back, from either writer, every string without a backslash whose only control units are CR, LF and TAB |
| Escaping.RemoveBackslashes | G9JSONHandler/G9JSONHandler/G9JSONParser.cs:289-293 | The legacy anonymous string keeps no backslash and is never longer than its input |
| Escaping.RemoveBackslashesLosesLineFeed | G9JSONHandler/G9JSONHandler/G9JSONParser.cs:289-293 | A written line feed reads back as the letter `n` in the legacy untyped reader |
| CommentFilter.StripFrom | G9JSONHandler/G9JSONHandler/Core/G9JSONParser.cs:46-49 | The comment pre-pass as written never lengthens what it is given |
| CommentFilter.StripCommentFree | G9JSONHandler/G9JSONHandler/Core/G9JSONParser.cs:46-49 | The pre-pass leaves a document with no comment or note entry unchanged |
| CommentFilter.BlockCommentRemoved | G9JSONHandler/G9JSONHandler/Core/G9JSONParser.cs:46-49 | A `/*...*/` block whose text holds no `*` or `/` is removed whole, and the pass goes on after it |
| CommentFilter.NoteEntryRemoved | G9JSONHandler/G9JSONHandler/Core/G9JSONParser.cs:46-49 | A standard-mode note entry `"#__CommentN__#":"...",` whose text holds no comma is removed through its comma |
| CommentFilter.StripCommentsAltersStringValue | G9JSONHandler/G9JSONHandler/Core/G9JSONParser.cs:46-49 | As written, the pass also deletes a comment-like run inside a string value |
| CommentFilter.WrittenStringSurvives | G9JSONHandler/G9JSONHandler/Core/G9JSONParser.cs:46-49 | The corrected pass, which copies string literals whole, leaves every written string unchanged unless its escaped text begins with the note marker |
| CommentFilter.StripOutsideStrings | G9JSONHandler/G9JSONHandler/Core/G9JSONParser.cs:46-49 | The corrected pass never lengthens the document |
| JsonScanner.ScanFrom | G9JSONHandler/G9JSONHandler/Core/G9JSONParser.cs:106-131 | A scan that completes ends at an index inside the text and no earlier than one before the start |
| JsonScanner.CatchString | G9JSONHandler/G9JSONHandler/Core/G9JSONParser.cs:106-131 | The returned index is at least `startIndex` and inside the text |
| JsonScanner.ScanVerbatim | G9JSONHandler/G9JSONHandler/Core/G9JSONParser.cs:106-131 | When escapes are kept, the scanner appends exactly the text from the start through the returned index |
| JsonScanner.ScanStopsAtClosingQuote | G9JSONHandler/G9JSONHandler/Core/G9JSONParser.cs:106-131 | The scan stops at the first quote that is not escaped by a backslash |
| JsonScanner.ScanEndsAtQuoteOrEnd | G9JSONHandler/G9JSONHandler/Core/G9JSONParser.cs:106-131 | A completed scan ends on a quote or on the last unit of an unterminated string; it reads past the end only when the text ends in a backslash |
| JsonScanner.ScanEndIndependentOfKeep | G9JSONHandler/G9JSONHandler/Core/G9JSONParser.cs:106-131 | Whether escapes are kept changes neither the returned index nor whether the scan reads past the end |
| JsonScanner.ParserScratch.CatchStringBetweenSigns | G9JSONHandler/G9JSONHandler/Core/G9JSONParser.cs:106-131 | The loop returns the scan's end (none on an overrun) and appends the scanned text to the shared builder |
| JsonScanner.NormalisedIsCompact | G9JSONHandler/G9JSONHandler/Core/G9JSONParser.cs:57-93 | Normalised text holds no whitespace outside string literals |
| JsonScanner.CommentDropped | G9JSONHandler/G9JSONHandler/Core/G9JSONParser.cs:57-93 | Everything from `/*` through the next `*/` is dropped and normalisation resumes after it |
| JsonScanner.UnclosedCommentDropsRest | G9JSONHandler/G9JSONHandler/Core/G9JSONParser.cs:57-93 | Inside a comment with no closing `*/`, the rest of the document is dropped |
| JsonScanner.NormaliseFailure | G9JSONHandler/G9JSONHandler/Core/G9JSONParser.cs:57-93 | The unguarded `json[i-1]`/`json[i+1]` reads fail only on a leading `/`, a final `/`, or a string that runs out on a backslash, and a leading `/` always fails |
| JsonScanner.ParserScratch.Normalise | G9JSONHandler/G9JSONHandler/Core/G9JSONParser.cs:57-93 | The normalisation loop over the shared builder produces `NormFrom(json, 0, false)` |
| JsonScanner.Split | G9JSONHandler/G9JSONHandler/Core/G9JSONParser.cs:137-178 | A successful split is empty exactly when the span is two units long |
| JsonScanner.SplitPiecesShorter | G9JSONHandler/G9JSONHandler/Core/G9JSONParser.cs:137-178 | Every piece is shorter than the span it was cut from |
| JsonScanner.SplitRebuildsInterior | G9JSONHandler/G9JSONHandler/Core/G9JSONParser.cs:137-178 | With escapes kept and strings closed, the pieces interleaved with the recorded separators rebuild the span's interior, and every separator is a depth-0 `,` or `:` |
| JsonScanner.SplitShapeIndependentOfKeep | G9JSONHandler/G9JSONHandler/Core/G9JSONParser.cs:137-178 | The dictionary branch's `false` flag changes neither success, nor the piece count, nor the separators |
| JsonScanner.ParserScratch.Splitter | G9JSONHandler/G9JSONHandler/Core/G9JSONParser.cs:137-178 | The splitter loop returns `Split(json, keep)` |
| JsonCommon.Validated | G9JSONHandler/G9JSONHandler/Common/G9CJsonCommon.cs:124-161 | Every validated method is a StringToObject `(string, G9IMemberGetter) -> target` or an ObjectToString `(target, G9IMemberGetter) -> string` method, and none is added |
| JsonCommon.SharedOrder | G9JSONHandler/G9JSONHandler/Common/G9CJsonCommon.cs:103-108 | Sorting the validated methods by name, descending, puts every StringToObject method before every ObjectToString method |
| JsonCommon.SharedItemsPickTheirMethods | G9JSONHandler/G9JSONHandler/Common/G9CJsonCommon.cs:103-110 | In the shared variant, `methods[0]` is StringToObject and `methods[1]` is ObjectToString |
| JsonCommon.BuildKeys | G9JSONHandler/G9JSONHandler/Common/G9CJsonCommon.cs:29-116 | With no parser types both collections stay null; the build fails exactly when two parsers share a target; otherwise both collections have the same key set, one key per parser |
| JsonCommon.BuildDuplicate | G9JSONHandler/G9JSONHandler/Common/G9CJsonCommon.cs:51-55 | The first repeated target throws an error naming the target type, the first parser and the second |
| JsonCommon.PerCallItem1 | G9JSONHandler/G9JSONHandler/Common/G9CJsonCommon.cs:60-96 | The unique variant's `Item1` succeeds exactly when the parser type has a valid StringToObject method, and calls one with the `(string, G9IMemberGetter) -> target` signature |
| JsonCommon.PerCallItem2 | G9JSONHandler/G9JSONHandler/Common/G9CJsonCommon.cs:60-96 | The unique variant's `Item2` succeeds exactly when the parser type has a valid ObjectToString method, and calls one with the `(target, G9IMemberGetter) -> string` signature |
| JsonCommon.Item1Call | G9JSONHandler/G9JSONHandler/Common/G9CJsonCommon.cs:60-111 | A unique parser's call runs on the newly created instance, a shared parser's on its one instance; a shared call succeeds exactly when it has a method |
| JsonCommon.Item2Call | G9JSONHandler/G9JSONHandler/Common/G9CJsonCommon.cs:60-111 | As for `Item1Call`; a shared call needs its second method |
| JsonCommon.ParserRegistry.constructor | G9JSONHandler/G9JSONHandler/Common/G9CJsonCommon.cs:29-116 | The static-constructor loop reaches the state `Build` describes: the recorded fault on a duplicate, null collections with no parsers, both maps otherwise |
| JsonCommon.ParserRegistry.Item1 | G9JSONHandler/G9JSONHandler/Common/G9CJsonCommon.cs:60-111 | The call is `Item1Call` on the stored entry; a unique parser creates a fresh instance (the count grows by one), a shared parser reuses its instance; the collections are unchanged |
| JsonCommon.ParserRegistry.Item2 | G9JSONHandler/G9JSONHandler/Common/G9CJsonCommon.cs:60-111 | As for `Item1`, for the ObjectToString side |
| JsonCommon.ParserRegistry.ParserNames | G9JSONHandler/G9JSONHandler/Common/G9CJsonCommon.cs:18-24 | Null exactly when the collections are null, and otherwise defined for exactly the registered targets |
| MemberParserAttribute.FirstMatching | G9JSONHandler/G9JSONHandler/Attributes/G9AttrJsonMemberCustomParserAttribute.cs:209-250 | Finds a method with the given name and a valid signature for its side, and finds none exactly when no such method exists |
| MemberParserAttribute.PrepareParserMethod | G9JSONHandler/G9JSONHandler/Attributes/G9AttrJsonMemberCustomParserAttribute.cs:209-250 | Succeeds exactly when a same-named method passes validation; otherwise reports a bad signature if a same-named method exists, not-found if none does |
| MemberParserAttribute.PrepareParserMethodAsWrittenSwapsMessages | G9JSONHandler/G9JSONHandler/Attributes/G9AttrJsonMemberCustomParserAttribute.cs:230-240 | As written, a method found with the wrong signature is reported as not found |
| MemberParserAttribute.OneMethod | G9JSONHandler/G9JSONHandler/Attributes/G9AttrJsonMemberCustomParserAttribute.cs:52-68 | Null type or null/empty name throws before any lookup; on success `ParserType` is StringToObject iff `isStringToObjectMethod` and only that side's method is set |
| MemberParserAttribute.TwoMethods | G9JSONHandler/G9JSONHandler/Attributes/G9AttrJsonMemberCustomParserAttribute.cs:92-113 | Argument checks in source order; on success `ParserType` is BothOfThem with both methods set |
| MemberParserAttribute.TwoTargets | G9JSONHandler/G9JSONHandler/Attributes/G9AttrJsonMemberCustomParserAttribute.cs:142-170 | The same for the four-argument constructor, each method looked up on its own type |
| MemberParserAttribute.ConstructedAttributesServeTheirSide | G9JSONHandler/G9JSONHandler/Core/G9JSONParser.cs:629 | The reader's side always has a StringToObject method and the writer's side an ObjectToString method; a one-method attribute serves exactly one side |
| DynamicObjects.DynamicObject.constructor | G9JSONHandler/G9JSONHandler/DataType/G9CDynamicObject.cs:9 | A new dynamic object holds no members |
| DynamicObjects.DynamicObject.Get | G9JSONHandler/G9JSONHandler/DataType/G9CDynamicObject.cs:13 | The indexer returns null for a missing key and the stored value otherwise |
| DynamicObjects.DynamicObject.Set | G9JSONHandler/G9JSONHandler/DataType/G9CDynamicObject.cs:14 | The indexer inserts or overwrites that one key; other keys keep their values |
| DynamicObjects.DynamicObject.TryGetMember | G9JSONHandler/G9JSONHandler/DataType/G9CDynamicObject.cs:17-20 | Returns true exactly when the key is present, with the stored value as result |
| DynamicObjects.DynamicObject.TrySetMember | G9JSONHandler/G9JSONHandler/DataType/G9CDynamicObject.cs:22-26 | Always returns true, with the indexer setter's effect |
| DynamicObjects.DynamicObject.GetDynamicMemberNames | G9JSONHandler/G9JSONHandler/DataType/G9CDynamicObject.cs:28-31 | Yields exactly the current key set, without repeats |
| DynamicObjects.DynamicObject.Enumerate | G9JSONHandler/G9JSONHandler/DataType/G9CDynamicObject.cs:33-41 | Yields exactly the current entries, leaving the object unchanged |
| Reader.SplitPieces | G9JSONHandler/G9JSONHandler/Core/G9JSONParser.cs:137-178 | The reader's split fails only as an `IndexOutOfRange` and gives pieces shorter than the span |
| Reader.Find | G9JSONHandler/G9JSONHandler/Core/G9JSONParser.cs:584-604 | The member index matches a key case-insensitively against the custom name, else the declared name, and finds nothing exactly when no member matches (case folded by `Text.FoldCase`) |
| Reader.MemberIndexDistinct | G9JSONHandler/G9JSONHandler/Core/G9JSONParser.cs:533-542 | The index builds exactly when member names are distinct ignoring case (by `Text.FoldCase`); a repeated name throws at `Add` |
| Reader.RegistryObject | G9JSONHandler/G9JSONHandler/Core/G9JSONParser.cs:555-575 | A registered type uses its parser's result; on a failure it returns the blank instance when mismatches are ignored, and otherwise rethrows naming the parser, the value and the type |
| Reader.OddPieceCountBlank | G9JSONHandler/G9JSONHandler/Core/G9JSONParser.cs:550-581 | For a type without a registered parser, a span that does not split throws, and a span whose pieces do not pair up reads as the uninitialized instance with no member set |
| Reader.NullReadsAsNull | G9JSONHandler/G9JSONHandler/Core/G9JSONParser.cs:186-188 | The token `null` reads as null whatever the target type |
| Reader.ReadObjectSetsMembers | G9JSONHandler/G9JSONHandler/Core/G9JSONParser.cs:596-658 | A successful read of an unregistered type is a record of that type whose slots have distinct names, each the name of a listed member |
| Reader.SlotStep | G9JSONHandler/G9JSONHandler/Core/G9JSONParser.cs:596-658 | A pair sets a member only when its key is longer than two units and names a member, and the slot is named after that member |
| Reader.Caught | G9JSONHandler/G9JSONHandler/Core/G9JSONParser.cs:636-657 | A conversion failure leaves the member at its default when mismatches are ignored, and otherwise is rethrown wrapping the original fault |
| Reader.IgnoredObjectNeverRethrows | G9JSONHandler/G9JSONHandler/Core/G9JSONParser.cs:565-575 | With `IgnoreMismatching`, no failure of the object reader is a rethrown mismatch |
| Reader.IgnoredMemberLoopNeverRethrows | G9JSONHandler/G9JSONHandler/Core/G9JSONParser.cs:636-657 | With `IgnoreMismatching`, the member loop never rethrows |
| Reader.IgnoredRegisteredObjectReads | G9JSONHandler/G9JSONHandler/Core/G9JSONParser.cs:565-569 | With `IgnoreMismatching`, a registered type always reads once its span splits |
| Reader.MismatchRethrown | G9JSONHandler/G9JSONHandler/Core/G9JSONParser.cs:636-657 | Without `IgnoreMismatching`, a failed conversion throws naming the value, the member and the declaring type |
| Reader.ElementsSucceed | G9JSONHandler/G9JSONHandler/Core/G9JSONParser.cs:237-268 | An array or list reads exactly when every piece reads and is accepted by the collection (`IList.Add` refuses null for a value type) |
| Reader.ElementsValues | G9JSONHandler/G9JSONHandler/Core/G9JSONParser.cs:237-268 | A list read has one element per piece, the element read from that piece and stored (`default(T)` for null in an array of a value type) |
| Reader.ElementsFailure | G9JSONHandler/G9JSONHandler/Core/G9JSONParser.cs:237-268 | A failing list read fails with the fault of some piece: its read fails, or the list refuses its null |
| Reader.Store | G9JSONHandler/G9JSONHandler/Core/G9JSONParser.cs:248 | `Array.SetValue` stores `default(T)` for null in an array of a value type; `IList.Add` and the `IDictionary` indexer (:264, :297) throw ArgumentNullException for it; anything else is kept; a value-type collection never holds null |
| Reader.ElementOfPiece | G9JSONHandler/G9JSONHandler/Core/G9JSONParser.cs:246-264 | An element is the piece's value, or its fault, unless the piece reads as null; then `default(T)` in a value-type array, a throw in a value-type list or dictionary, and null otherwise |
| Reader.NullElement | G9JSONHandler/G9JSONHandler/Core/G9JSONParser.cs:188 | The `null` piece: `default(T)` in an array of a value type (`[null]` as `int[]` gives `{0}`), a throw in a list or dictionary of one (`[null]` as `List<int>`), null otherwise |
| Reader.SequenceOfPieces | G9JSONHandler/G9JSONHandler/Core/G9JSONParser.cs:237-268 | A bracketed array or list span gives one element per piece, each the element stored from its piece, failing exactly when one of them does; an array or list of a value type holds no null |
| Reader.DictionaryGuards | G9JSONHandler/G9JSONHandler/Core/G9JSONParser.cs:269-301 | A dictionary with a non-string key or a span that is not braced reads as null; a read dictionary has distinct non-empty keys, and no null value when its value type is a value type |
| Reader.DictionaryKeysNonEmpty | G9JSONHandler/G9JSONHandler/Core/G9JSONParser.cs:269-301 | Empty keys are skipped, so every key of a read dictionary is non-empty and keys stay distinct |
| Reader.AnonymousStringRoundTrip | G9JSONHandler/G9JSONHandler/Core/G9JSONParser.cs:464-498 | With the corrected unescape, an untyped string written by the dynamic writer reads back as itself |
| Reader.AnonymousIntegerRoundTrip | G9JSONHandler/G9JSONHandler/Core/G9JSONParser.cs:500-512 | The decimal text of a 32-bit integer reads back as that `int` |
| Reader.AnonymousWord | G9JSONHandler/G9JSONHandler/Core/G9JSONParser.cs:514-523 | A word token is `true` or `false`, and any other word, `null` included, reads as null |
| Reader.AnonymousLiterals | G9JSONHandler/G9JSONHandler/Core/G9JSONParser.cs:514-523 | `true`, `false` and `null` read as the two booleans and null |
| Reader.TypedStringRoundTrip | G9JSONHandler/G9JSONHandler/Core/G9JSONParser.cs:233-235 | A written string read as a string target gives back the string |
| Reader.TrimmedStringMemberAsWritten | G9JSONHandler/G9JSONHandler/Core/G9JSONParser.cs:601 | With the member value trimmed before dispatch, as written, `""` throws and `"null"` reads as null |
| Reader.TrimmedStringMember | G9JSONHandler/G9JSONHandler/Core/G9JSONParser.cs:596-634 | With the member value trimmed before dispatch as written, and the typed string read with the corrected `\uXXXX` guard, a written string member reads back as the string for every string except two: the empty string throws out of range and the string "null" reads as null |
| Reader.StringMemberRoundTrip | G9JSONHandler/G9JSONHandler/Core/G9JSONParser.cs:596-634 | With the value left untrimmed, a written string member reads back as the string |
| ObjectReader.ObjectInstance.constructor | G9JSONHandler/G9JSONHandler/Core/G9JSONParser.cs:577-578 | The uninitialized instance of a type has no member set |
| ObjectReader.ObjectInstance.SetValue | G9JSONHandler/G9JSONHandler/Core/G9JSONParser.cs:618-634 | Setting a member stores that value under its name and leaves every other member unchanged |
| ObjectReader.CreateDictionaryOfMembers | G9JSONHandler/G9JSONHandler/Core/G9JSONParser.cs:533-542 | The loop builds the member index, or throws at the first repeated name |
| ObjectReader.ParseObject | G9JSONHandler/G9JSONHandler/Core/G9JSONParser.cs:550-661 | The loop filling a fresh instance produces `ReadObject(ctx, t, json)` |
| ObjectReader.ReadPair | G9JSONHandler/G9JSONHandler/Core/G9JSONParser.cs:596-658 | One loop iteration sets the slot `SlotStep` chooses, and only that slot |
| ObjectReader.JsonToObject | G9JSONHandler/G9JSONHandler/Core/G9JSONParser.cs:43-97 | Comment pass, normalisation loop, then the typed read: the result is `ToObject(ctx, t, json)` |
| ObjectReader.StringDocumentRoundTrip | G9JSONHandler/G9JSONHandler/Core/G9JSONParser.cs:43-97 | A document holding one written string reads back as that string |
| ObjectReader.IntegerDocumentRoundTrip | G9JSONHandler/G9JSONHandler/Core/G9JSONParser.cs:43-97 | A document holding the decimal text of a 32-bit integer reads back as that integer |
| Writer.ListedMembers | G9JSONHandler/G9JSONHandler/Core/G9JSONWriter.cs:279-288 | Every member listed for writing carries a well-formed parser attribute, so the writer's parser branch always has its ObjectToString method |
| Writer.WrittenMembers | G9JSONHandler/G9JSONHandler/Core/G9JSONWriter.cs:279-288 | The written member list is sorted by order key |
| Writer.OrderedPermutes | G9JSONHandler/G9JSONHandler/Core/G9JSONWriter.cs:373-376 | Ordering is a permutation of the listed members |
| Writer.OrderedIsSorted | G9JSONHandler/G9JSONHandler/Core/G9JSONWriter.cs:373-376 | Ordering sorts by order key, with unannotated members at `uint.MaxValue/2` |
| Writer.OrderedIsStable | G9JSONHandler/G9JSONHandler/Core/G9JSONWriter.cs:373-376 | Members with the same order key keep their declaration order |
| Writer.ItemsJoined | G9JSONHandler/G9JSONHandler/Core/G9JSONWriter.cs:158-176 | An unformatted list body is its items' texts joined by `,` |
| Writer.EntriesJoined | G9JSONHandler/G9JSONHandler/Core/G9JSONWriter.cs:177-212 | An unformatted dictionary body is its entries' texts joined by `,` |
| Writer.MembersEmptyIff | G9JSONHandler/G9JSONHandler/Core/G9JSONWriter.cs:291-298 | The member loop writes nothing exactly when every member holds null |
| Writer.PieceEmptyIff | G9JSONHandler/G9JSONHandler/Core/G9JSONWriter.cs:291-298 | A member contributes nothing exactly when it holds null |
| Writer.MemberJsonNonEmpty | G9JSONHandler/G9JSONHandler/Core/G9JSONWriter.cs:300-362 | A written member's text is never empty, so commas separate written members only |
| Writer.SlotOf | G9JSONHandler/G9JSONHandler/Core/G9JSONWriter.cs:344-362 | Finds the slot holding a member's value, or reports that the member has none |
| Writer.NotesNumbered | G9JSONHandler/G9JSONHandler/Core/G9JSONWriter.cs:385-396 | The k-th note written from counter n carries the number n+k |
| Writer.NotesAppend | G9JSONHandler/G9JSONHandler/Core/G9JSONWriter.cs:225-235 | The type's notes and its parser's notes number on as one run |
| Writer.NotesIgnoreTabs | G9JSONHandler/G9JSONHandler/Core/G9JSONWriter.cs:385-396 | Unformatted notes do not depend on the tab count |
| ObjectWriter.JsonWriter.WriteString | G9JSONHandler/G9JSONHandler/Core/G9JSONWriter.cs:118-123 | Appends the escaped string between quotes |
| ObjectWriter.JsonWriter.WriteNote | G9JSONHandler/G9JSONHandler/Core/G9JSONWriter.cs:385-396 | Appends one note in the configured comment mode, leaving the tab count unchanged |
| ObjectWriter.JsonWriter.WriteNotes | G9JSONHandler/G9JSONHandler/Core/G9JSONWriter.cs:225-235 | Appends the notes numbered from n |
| ObjectWriter.JsonWriter.WriteTwoNoteRuns | G9JSONHandler/G9JSONHandler/Core/G9JSONWriter.cs:225-235 | The type's and its parser's notes, numbered as one run |
| ObjectWriter.JsonWriter.WriteValue | G9JSONHandler/G9JSONHandler/Core/G9JSONWriter.cs:59-80 | The tab count returns to its entry value; unformatted output is exactly `Json(w, v, base)` |
| ObjectWriter.JsonWriter.WriteBuiltIn | G9JSONHandler/G9JSONHandler/Core/G9JSONWriter.cs:114-146 | Strings and chars quoted and escaped, enums as their number, numbers and booleans bare, other built-ins quoted |
| ObjectWriter.JsonWriter.WriteList | G9JSONHandler/G9JSONHandler/Core/G9JSONWriter.cs:158-176 | Tab balance; unformatted output is `[`, the items, `]` |
| ObjectWriter.JsonWriter.WriteItem | G9JSONHandler/G9JSONHandler/Core/G9JSONWriter.cs:158-176 | One loop iteration appends the i-th item with its comma |
| ObjectWriter.JsonWriter.WriteDictionary | G9JSONHandler/G9JSONHandler/Core/G9JSONWriter.cs:177-212 | Tab balance; unformatted output is `{}` for non-string keys, else the entries between braces |
| ObjectWriter.JsonWriter.WriteEntries | G9JSONHandler/G9JSONHandler/Core/G9JSONWriter.cs:177-212 | The entry loop appends every entry, raw key then value, comma-separated |
| ObjectWriter.JsonWriter.WriteEntry | G9JSONHandler/G9JSONHandler/Core/G9JSONWriter.cs:177-212 | One loop iteration appends the i-th entry with its comma |
| ObjectWriter.JsonWriter.WriteExpando | G9JSONHandler/G9JSONHandler/Core/G9JSONWriter.cs:555-581 | Tab balance; unformatted output is the expando's entries between braces |
| ObjectWriter.JsonWriter.WriteCustomObject | G9JSONHandler/G9JSONHandler/Core/G9JSONWriter.cs:222-368 | Tab balance; unformatted output is the type's notes, then the parser's string or the members between braces |
| ObjectWriter.JsonWriter.WriteObjectBody | G9JSONHandler/G9JSONHandler/Core/G9JSONWriter.cs:238-298 | A registered parser's string, in braces only at the top level, or the members between braces |
| ObjectWriter.JsonWriter.WriteMembers | G9JSONHandler/G9JSONHandler/Core/G9JSONWriter.cs:291-298 | The member loop appends every non-null member, commas only between written members |
| ObjectWriter.JsonWriter.WriteMember | G9JSONHandler/G9JSONHandler/Core/G9JSONWriter.cs:291-298 | One iteration skips a null member without touching `isFirst` or the note counter, and otherwise writes it |
| ObjectWriter.JsonWriter.WriteMemberText | G9JSONHandler/G9JSONHandler/Core/G9JSONWriter.cs:300-330 | A member's notes, then its key (the custom name when present), then its value |
| ObjectWriter.JsonWriter.WriteMemberBody | G9JSONHandler/G9JSONHandler/Core/G9JSONWriter.cs:344-362 | The value from the first source that applies: type parser, member parser serving the writer, enum name, encrypted text, recursion |
| ObjectWriter.MemberSkipped | G9JSONHandler/G9JSONHandler/Core/G9JSONWriter.cs:291-298 | A null member writes nothing and leaves `isFirst` and the note counter unchanged |
| ObjectWriter.MemberPresent | G9JSONHandler/G9JSONHandler/Core/G9JSONWriter.cs:291-305 | A written member clears `isFirst` and advances the counter by its own notes and its parser's |
| ObjectWriter.ObjectToJson | G9JSONHandler/G9JSONHandler/Core/G9JSONWriter.cs:43-51 | Unformatted output is exactly `Json(w, v, true)` |
| DynamicWriter.ObjectText | G9JSONHandler/G9JSONHandler/Core/G9JSONWriter.cs:421-454 | A dynamic object is written between braces |
| DynamicWriter.ListText | G9JSONHandler/G9JSONHandler/Core/G9JSONWriter.cs:463-494 | A list is written between brackets |
| DynamicWriter.DynamicJsonWriter.SerializeValue | G9JSONHandler/G9JSONHandler/Core/G9JSONWriter.cs:501-519 | null as `null`, booleans lowercase, strings quoted through `EscapeString`, other scalars via the host |
| DynamicWriter.DynamicJsonWriter.SerializeDynamicObject | G9JSONHandler/G9JSONHandler/Core/G9JSONWriter.cs:421-454 | The entry loop appends exactly `ObjectText` |
| DynamicWriter.DynamicJsonWriter.SerializeEntry | G9JSONHandler/G9JSONHandler/Core/G9JSONWriter.cs:421-454 | One entry: comma when not first, key, then its value |
| DynamicWriter.DynamicJsonWriter.SerializeEntryValue | G9JSONHandler/G9JSONHandler/Core/G9JSONWriter.cs:436-450 | Nested objects and lists recursively, scalars through `SerializeValue` |
| DynamicWriter.DynamicJsonWriter.SerializeList | G9JSONHandler/G9JSONHandler/Core/G9JSONWriter.cs:463-494 | The item loop appends exactly `ListText` |
| DynamicWriter.DynamicJsonWriter.SerializeItem | G9JSONHandler/G9JSONHandler/Core/G9JSONWriter.cs:463-494 | One item: comma when not first, indent, then its value |
| DynamicWriter.G9DynamicObjectToJson | G9JSONHandler/G9JSONHandler/Core/G9JSONWriter.cs:404-412 | A null object is written as `null`, otherwise as its `ObjectText` |
| DynamicWriter.ScalarRoundTrip | G9JSONHandler/G9JSONHandler/Core/G9JSONWriter.cs:501-519 | null, booleans, strings and 32-bit integers written by the dynamic writer read back as themselves through the untyped reader |
| DynamicWriter.ObjectSpread | G9JSONHandler/G9JSONHandler/Core/G9JSONWriter.cs:421-454 | Formatted output is the unformatted output with only layout units (newlines, tabs, spaces) inserted |
| DynamicWriter.ListSpread | G9JSONHandler/G9JSONHandler/Core/G9JSONWriter.cs:463-494 | The same for lists |
| DynamicWriter.PiecesSpread | G9JSONHandler/G9JSONHandler/Core/G9JSONWriter.cs:421-494 | Every formatted delimiter piece is its unformatted piece plus layout only |
| LegacyWriter.LegacyJsonWriter.WriteNote | G9JSONHandler/G9JSONHandler/G9JSONWriter.cs:305-311 | Appends the note as `/* note */` in every mode, with a line break and tabs when formatted |
| LegacyWriter.LegacyJsonWriter.WriteNotes | G9JSONHandler/G9JSONHandler/G9JSONWriter.cs:251-255 | Appends each note in turn |
| LegacyWriter.LegacyJsonWriter.ParseValues | G9JSONHandler/G9JSONHandler/G9JSONWriter.cs:41-60 | Tab balance; unformatted output is exactly the legacy `Json` of the value |
| LegacyWriter.LegacyJsonWriter.ParseEnumTypes | G9JSONHandler/G9JSONHandler/G9JSONWriter.cs:67-70 | An enum is written as its numeric value |
| LegacyWriter.LegacyJsonWriter.PrepareCharacterForStoring | G9JSONHandler/G9JSONHandler/G9JSONWriter.cs:77-93 | Appends the same escape of one unit as the current writer's `PrepareCharactersForStoring` |
| LegacyWriter.LegacyJsonWriter.WriteString | G9JSONHandler/G9JSONHandler/G9JSONWriter.cs:110-115 | Appends the string quoted and escaped with the current writer's mapping |
| LegacyWriter.LegacyJsonWriter.ParseDotNetBuiltInTypes | G9JSONHandler/G9JSONHandler/G9JSONWriter.cs:101-145 | Strings and chars quoted and escaped, integers and booleans bare, unknown built-ins quoted |
| LegacyWriter.LegacyJsonWriter.ParseCollectionTypes | G9JSONHandler/G9JSONHandler/G9JSONWriter.cs:155-212 | Tab balance; unformatted lists in brackets, `{}` for non-string keys, entries with `":`, nothing for other enumerables |
| LegacyWriter.LegacyJsonWriter.WriteItems | G9JSONHandler/G9JSONHandler/G9JSONWriter.cs:155-180 | The list loop appends every item, comma-separated |
| LegacyWriter.LegacyJsonWriter.WriteEntries | G9JSONHandler/G9JSONHandler/G9JSONWriter.cs:181-212 | The dictionary loop appends every entry, comma-separated |
| LegacyWriter.LegacyJsonWriter.WriteEntry | G9JSONHandler/G9JSONHandler/G9JSONWriter.cs:181-212 | One entry: quoted key, `":` separator, value |
| LegacyWriter.LegacyJsonWriter.ParseCustomObjectTypes | G9JSONHandler/G9JSONHandler/G9JSONWriter.cs:222-296 | Tab balance; unformatted output is public fields, then readable public properties, between braces |
| LegacyWriter.LegacyJsonWriter.WriteMembers | G9JSONHandler/G9JSONHandler/G9JSONWriter.cs:239-293 | The member loops append every non-null member and report whether anything has been written yet |
| LegacyWriter.LegacyJsonWriter.WriteMember | G9JSONHandler/G9JSONHandler/G9JSONWriter.cs:239-265 | One iteration skips a null member and otherwise writes comma (when not first), notes, key and value |
| LegacyWriter.LegacyJsonWriter.WriteMemberText | G9JSONHandler/G9JSONHandler/G9JSONWriter.cs:251-262 | Notes, then the key (the first custom name when present), then the value |
| LegacyWriter.LegacyJsonWriter.WriteMemberValue | G9JSONHandler/G9JSONHandler/G9JSONWriter.cs:258-264 | An enum stored as string is written as its quoted name, any other value recursively |
| LegacyWriter.G9ObjectToJson | G9JSONHandler/G9JSONHandler/G9JSONWriter.cs:26-32 | Unformatted output is exactly the legacy `Json` of the value |
| LegacyWriter.MembersAppend | G9JSONHandler/G9JSONHandler/G9JSONWriter.cs:239-293 | The property loop continues the field loop: `isFirst` carries over |
| LegacyWriter.MembersEmptyIff | G9JSONHandler/G9JSONHandler/G9JSONWriter.cs:239-293 | The member loops write nothing exactly when every member holds null |
| LegacyWriter.PieceEmptyIff | G9JSONHandler/G9JSONHandler/G9JSONWriter.cs:239-265 | A member contributes nothing exactly when it holds null |
| LegacyWriter.AllNullFromIff | G9JSONHandler/G9JSONHandler/G9JSONWriter.cs:239-293 | `isFirst` stays true after the loop exactly when it was true and every member held null |
| LegacyWriter.MembersCommaIff | G9JSONHandler/G9JSONHandler/G9JSONWriter.cs:239-293 | Non-empty member output starts with a comma exactly when a member was written before it |
| LegacyWriter.MemberTextStart | G9JSONHandler/G9JSONHandler/G9JSONWriter.cs:251-262 | A member's text is never empty and never starts with a comma |
| LegacyWriter.NoteCommentsStart | G9JSONHandler/G9JSONHandler/G9JSONWriter.cs:305-311 | Unformatted notes are empty exactly when there are none, and otherwise start with `/` |
| LegacyWriter.NoteLayouts | G9JSONHandler/G9JSONHandler/G9JSONWriter.cs:305-311 | A note is `/* note */`, with a line break and the tabs appended when formatted |
| LegacyWriter.NotesIgnoreTabs | G9JSONHandler/G9JSONHandler/G9JSONWriter.cs:305-311 | Unformatted notes do not depend on the tab count |
| LegacyReader.RemoveQuotes | G9JSONHandler/G9JSONHandler/G9JSONParser.cs:180-192 | The result holds no quote and is never longer than its input |
| LegacyReader.FindName | G9JSONHandler/G9JSONHandler/G9JSONParser.cs:363-374 | Case-insensitive lookup in a member-name table, finding nothing exactly when no entry matches |
| LegacyReader.PairTarget | G9JSONHandler/G9JSONHandler/G9JSONParser.cs:363-374 | A pair targets a member only when its key is longer than two units |
| LegacyReader.PairAdvance | G9JSONHandler/G9JSONHandler/G9JSONParser.cs:363-374 | One pair either stops the member loop with its fault or moves it two pieces on |
| LegacyReader.ParseString | G9JSONHandler/G9JSONHandler/G9JSONParser.cs:120-152 | The unescape loop produces `StringValue(json)` |
| LegacyReader.CreateMemberNameDictionary | G9JSONHandler/G9JSONHandler/G9JSONParser.cs:317-338 | The loop builds `MemberNameTable(ms)` or throws at the first repeated name |
| LegacyReader.MemberNameTableSpec | G9JSONHandler/G9JSONHandler/G9JSONParser.cs:317-338 | The table builds exactly when the non-ignored data names are clash-free, and then holds each with its member |
| LegacyReader.NamedMembers | G9JSONHandler/G9JSONHandler/G9JSONParser.cs:317-338 | The table's entries are the members without `IgnoreDataMember`, keyed by a non-empty `DataMember.Name`, else the declared name |
| LegacyReader.LegacyParser.FromJson | G9JSONHandler/G9JSONHandler/G9JSONParser.cs:20-48 | The whitespace loop over the shared builder, then the typed read: the result is `ReadDocument(ctx, t, json)` |
| LegacyReader.LegacyParser.ParseValue | G9JSONHandler/G9JSONHandler/G9JSONParser.cs:118-263 | The result is `ReadValue(ctx, t, json)` |
| LegacyReader.LegacyParser.ParseList | G9JSONHandler/G9JSONHandler/G9JSONParser.cs:194-223 | The element loop produces `ReadList` |
| LegacyReader.LegacyParser.ParseDictionary | G9JSONHandler/G9JSONHandler/G9JSONParser.cs:225-257 | The pair loop produces `ReadDictionary` |
| LegacyReader.LegacyParser.DictionaryPair | G9JSONHandler/G9JSONHandler/G9JSONParser.cs:225-257 | A pair with a key of at most two units is skipped; otherwise its value is read and stored under the key's interior |
| LegacyReader.LegacyParser.FieldTable | G9JSONHandler/G9JSONHandler/G9JSONParser.cs:349-355 | Returns the field-name table and caches it for the type; the property cache is unchanged |
| LegacyReader.LegacyParser.PropertyTable | G9JSONHandler/G9JSONHandler/G9JSONParser.cs:356-361 | The same for properties; the field cache is unchanged |
| LegacyReader.LegacyParser.ParseObject | G9JSONHandler/G9JSONHandler/G9JSONParser.cs:340-377 | The result is `ReadObject(ctx, t, json)` |
| LegacyReader.LegacyParser.ObjectMembersOf | G9JSONHandler/G9JSONHandler/G9JSONParser.cs:363-374 | The member loop produces `ObjectMembers` |
| LegacyReader.LegacyParser.ObjectPair | G9JSONHandler/G9JSONHandler/G9JSONParser.cs:363-374 | One pair sets the field, else the writable property, that its key names |
| LegacyReader.LegacyParser.ParseAnonymousValue | G9JSONHandler/G9JSONHandler/G9JSONParser.cs:265-315 | The result is `UntypedValue(host, json)` |
| LegacyReader.LegacyParser.AnonymousDictionary | G9JSONHandler/G9JSONHandler/G9JSONParser.cs:265-288 | The untyped object loop produces `UntypedValue` |
| LegacyReader.LegacyParser.AnonymousPair | G9JSONHandler/G9JSONHandler/G9JSONParser.cs:265-288 | A key shorter than two units throws `ArgumentOutOfRange`; otherwise the value is stored under the key's interior |
| LegacyReader.LegacyParser.AnonymousList | G9JSONHandler/G9JSONHandler/G9JSONParser.cs:265-288 | The untyped list loop produces `UntypedValue` |
| LegacyReader.StringRoundTrip | G9JSONHandler/G9JSONHandler/G9JSONParser.cs:120-152 | A string written by the legacy writer reads back as itself |
| LegacyReader.DocumentStringRoundTrip | G9JSONHandler/G9JSONHandler/G9JSONParser.cs:20-48 | The same through `FromJson`'s whitespace loop |
| LegacyReader.NullTokenReads | G9JSONHandler/G9JSONHandler/G9JSONParser.cs:120-179 | The token `null` read as a string gives `"ul"`; for non-string, non-scalar targets it gives null |
| LegacyReader.WrittenNullStringReadsAsUl | G9JSONHandler/G9JSONHandler/G9JSONParser.cs:120-152 | A written null read back as a string target gives `"ul"` |
| LegacyReader.CompactPlain | G9JSONHandler/G9JSONHandler/G9JSONParser.cs:30-44 | Text without whitespace or quotes passes the whitespace loop unchanged |
| LegacyReader.CompactAgreesWithCore | G9JSONHandler/G9JSONHandler/G9JSONParser.cs:30-44 | On text without `/`, the legacy whitespace loop and the current normaliser agree |
| LegacyReader.NoteKept | G9JSONHandler/G9JSONHandler/G9JSONParser.cs:30-44 | A `/* note */` written by the legacy writer survives compaction as `/*note*/` |
| LegacyReader.ItemsFromOk | G9JSONHandler/G9JSONHandler/G9JSONParser.cs:194-223 | A legacy list reads exactly when every piece reads and is accepted by the collection (`IList.Add` refuses null for a value type) |
| LegacyReader.ElementOfPiece | G9JSONHandler/G9JSONHandler/G9JSONParser.cs:203-219 | A legacy element is the piece's value, or its fault, unless the piece reads as null; then `default(T)` in a value-type array, a throw in a value-type list or dictionary, and null otherwise |
| LegacyReader.NullElement | G9JSONHandler/G9JSONHandler/G9JSONParser.cs:194-253 | The `null` piece for an enum or user type reads as null before the enum branch, so it is `default(T)` in an array of a value type and throws in a list or dictionary of one |
| LegacyReader.ListReadsEachPiece | G9JSONHandler/G9JSONHandler/G9JSONParser.cs:194-223 | A failing split throws; otherwise the list has one element per piece, each stored from its piece, failing exactly when one of them does; an array or list of a value type holds no null |
| LegacyReader.EntriesFromKeys | G9JSONHandler/G9JSONHandler/G9JSONParser.cs:225-257 | The dictionary's keys are exactly the interiors of its keys longer than two units |
| LegacyReader.DictionaryKeys | G9JSONHandler/G9JSONHandler/G9JSONParser.cs:225-257 | A failing split throws; an odd piece count gives null; otherwise the read table's keys are distinct and are exactly the interiors of the keys longer than two units |
| LegacyReader.ObjectSlotsKeys | G9JSONHandler/G9JSONHandler/G9JSONParser.cs:363-374 | The members set are exactly those the pairs' keys name |
| LegacyReader.PairTargetSettable | G9JSONHandler/G9JSONHandler/G9JSONParser.cs:363-374 | A pair's target is a public field, or a public property that can be written |
| LegacyReader.TargetNamesSettable | G9JSONHandler/G9JSONHandler/G9JSONParser.cs:363-374 | Every member the loop sets is settable |
| LegacyReader.ReadObjectSetsMembers | G9JSONHandler/G9JSONHandler/G9JSONParser.cs:340-377 | An odd piece count gives the blank instance, a name clash throws, and otherwise the set members are distinct and settable |
| LegacyReader.UntypedStringReads | G9JSONHandler/G9JSONHandler/G9JSONParser.cs:289-293 | A string that needs no escaping reads back untyped as itself |
| LegacyReader.UntypedLineFeedReads | G9JSONHandler/G9JSONHandler/G9JSONParser.cs:289-293 | A written line feed reads back untyped as the letter `n` |
| LegacyReader.UntypedIntegerRoundTrip | G9JSONHandler/G9JSONHandler/G9JSONParser.cs:294-310 | A written 32-bit integer reads back untyped as that `int` |
| LegacyReader.EnumQuotesIgnored | G9JSONHandler/G9JSONHandler/G9JSONParser.cs:180-192 | An enum token reads the same with or without its quotes |
| LegacyReader.BuiltInQuotesDropped | G9JSONHandler/G9JSONHandler/G9JSONParser.cs:166-177 | A written `DateTime` or `TimeSpan` token is parsed with its quotes removed |

## Left out

- File reading and writing, encodings and path checks in `G9JSON.cs` are I/O. `G9JSON.cs` is not part of this model.
- AES encryption and decryption are foreign library calls. They are the host's `encrypt` and `decrypt` functions. The reader assumes one property of `decrypt` (`Reader.DecryptShrinks`): text it decrypts is strictly shorter than the text it was given. AES ciphertext is at least one block longer than its plaintext, and base64 lengthens it by a third, so this holds for the source's scheme; the reader's recursion into decrypted values relies on it.
- Reflection and conversion calls are foreign library calls. This covers listing fields and properties, creating uninitialized instances, `SmartChangeType`, `Convert`, `Enum.Parse`/`TryParse` and the custom parsers' `Invoke`. They are host functions and schema tables. An uninitialized instance is a record with no slots set.
- `float`, `double`, `decimal`, `DateTime`, `TimeSpan` and similar values are kept as opaque tokens. `double.TryParse` on anonymous numbers is a host function.
- `[ThreadStatic]` state and concurrency are not modelled. The shared builder is a field of one scratch object. The split-list pool only recycles storage, so it is not modelled.
- The generic cast `(T)` at the end of the readers is not modelled: values stay untyped.
- The regular-expression comment pass is modelled by a hand-written matcher with the same two alternatives as the expression. Other regular-expression features are not modelled.
- The registry stores two-argument callbacks, while the engine calls `Item1`/`Item2` with four arguments. The engine's calls therefore go through the host's registry functions; the registry's own maps are modelled separately.
- Generic-type parsers are never discovered by the registry's type search, so they are not modelled.
- ObjectWriter.JsonWriter.WriteValue and the other current-writer methods state their exact output only for unformatted writing. For formatted writing they state only that the tab count returns to its entry value. The tab and newline heuristics are layout.
- LegacyWriter.LegacyJsonWriter.ParseValues and the other legacy-writer methods: the same restriction as the current writer.
- The dynamic writer is the exception: its formatted output is proved to be the unformatted output plus layout units (`DynamicWriter.ObjectSpread`).
- The expando writer's layout: only its unformatted output is stated (`ObjectWriter.JsonWriter.WriteExpando`).
- The current reader uses the corrected definitions of the Findings below, not the source as written. The as-written definitions are modelled beside them, with lemmas stating where the two differ. Each affected member has a line below.
- Escaping.UnescapeOfEscapeDynamic: holds for the corrected `\uXXXX` guard. With the guard as written, a string ending in a unit written as `\uXXXX` comes back with that escape undecoded (`Escaping.UnescapeAsWrittenOfEscape`).
- Reader.TypedStringRoundTrip: the typed string read (`Reader.ParseScalar`) uses the corrected guard, so a string ending in a unit written as `\uXXXX`, such as U+0001, reads back here but not in the source.
- Reader.AnonymousStringRoundTrip: the untyped string read (`Reader.AnonymousValue`) uses the one-pass unescape, not the source's `Replace` chain. The chain reads back only strings without a backslash whose control units are CR, LF and TAB (`Escaping.AnonymousStringAsWrittenReadsBack`).
- ObjectReader.ParseObject: its specification `Reader.ReadObject` hands the default reader the value piece as written, quotes included, where the source passes the trimmed value. As a result the model reads a string member `""` as the empty string (the source throws), `"null"` as the string "null" (the source gives null), and an `object`-typed member `"abc"` as the string "abc" (the source gives null).
- ObjectReader.ReadPair: the same corrected dispatch as `ObjectReader.ParseObject`.
- ObjectReader.JsonToObject: its specification `ObjectReader.ToObject` removes comments only outside string literals and reads through the corrected unescape and member dispatch. The source's comment expression also deletes `/*...*/` inside string values.
- ObjectReader.StringDocumentRoundTrip: holds for the corrected reader. In the source, a string holding `/*...*/`, or ending in a unit written as `\uXXXX`, does not come back.
- DynamicWriter.ScalarRoundTrip: strings come back through the corrected untyped read. The source's chain reads back only the strings `Escaping.AnonymousStringAsWrittenReadsBack` describes.
- MemberParserAttribute.OneMethod: uses the corrected `PrepareParserMethod`, so its two failure messages are the intended ones, not the source's swapped ones (`MemberParserAttribute.PrepareParserMethodAsWrittenSwapsMessages`).
- MemberParserAttribute.TwoMethods: the same corrected messages as `MemberParserAttribute.OneMethod`.
- MemberParserAttribute.TwoTargets: the same corrected messages as `MemberParserAttribute.OneMethod`.
- Reader.Find: `OrdinalIgnoreCase` is modelled by `Text.FoldCase`. This is the simple upper-case mapping of Basic Latin, Latin-1, Latin Extended-A, basic Greek and Cyrillic, and the fullwidth Latin letters. Letters of other blocks, the dotless i, the long s and the micro sign match only themselves.
- Reader.MemberIndexDistinct: judges clashes with the same partial fold as `Reader.Find`, so two names that differ only in the case of a letter outside those blocks build an index here, where the source throws at `Add`.
- LegacyReader.FindName: the same partial fold as `Reader.Find`.
- LegacyReader.MemberNameTableSpec: the same partial fold as `Reader.MemberIndexDistinct`.
- Reader.TrimmedStringMember: the trim before dispatch is as written, but the typed string read after it uses the corrected `\uXXXX` guard. In the source a string ending in a unit written as `\uXXXX`, such as U+0001, also fails to come back, as `Escaping.UnescapeAsWrittenOfEscape` states.
- Values.IsValueType: every built-in type the library converts other than `string` is taken to be a struct, and `Nullable<T>` is not modelled; which types `IsTypeBuiltInDotNetType` admits is decided in a library that is not part of this model.
- Values.ZeroValue: the default of an enum carries no member name, and the default of another built-in type no text, since the model keeps such values as the host's tokens.
- A member of a value type whose piece reads as null is recorded in the instance as null. Reflection's `SetValue` would leave the member at its default; the slot tables do not model member defaults.
- The current reader's `ParsePureJsonData`, `ParsingAnonymousValue` and `ParseObject` are specification functions (`Reader.ParsePure`, `Reader.AnonymousValue`, `Reader.ReadObject`). The lemmas in the table state their properties; they carry no contract of their own.

## Findings

| source | as written | input that shows it | evidently intended | confidence | as-written member | corrected member |
|---|---|---|---|---|---|---|
| G9JSONHandler/G9JSONHandler/Core/G9JSONParser.cs:443 | The `\uXXXX` branch needs `i + 5 < json.Length - 1`, so an escape whose last digit is the final unit is copied undecoded | the string U+0001, written as `\u0001` | decode whenever the four digits are present (`i + 5 <= json.Length - 1`), so that reading inverts writing | high, not executed | Escaping.UnescapeAsWrittenMissesFinalCodeEscape | Escaping.UnescapeOfEscape |
| G9JSONHandler/G9JSONHandler/Core/G9JSONParser.cs:490-498 | The untyped string is unescaped by a chain of `Replace` calls, so an escaped backslash followed by `n` becomes a backslash and a line feed | the two-unit string backslash, `n` | unescape in one left-to-right pass, as `PrepareStringType` does | high, not executed | Escaping.AnonymousStringAsWrittenBreaksEscapedBackslash | Reader.AnonymousStringRoundTrip |
| G9JSONHandler/G9JSONHandler/Core/G9JSONParser.cs:601 | A member's value is trimmed of its quotes before typed dispatch, which trims again | `""` for a string member (throws out of range); `"null"` (reads as null) | leave the value quoted for dispatch, which removes the quotes itself | medium, not executed | Reader.TrimmedStringMemberAsWritten | Reader.StringMemberRoundTrip |
| G9JSONHandler/G9JSONHandler/Attributes/G9AttrJsonMemberCustomParserAttribute.cs:230-240 | The two exception messages are chosen the wrong way round relative to `findButNotMatch` | a type whose only method `Parse` has the wrong signature | "found, but its signature is wrong" when a same-named method exists, "not found" otherwise | high, not executed | MemberParserAttribute.PrepareParserMethodAsWrittenSwapsMessages | MemberParserAttribute.PrepareParserMethod |
| G9JSONHandler/G9JSONHandler/Core/G9JSONParser.cs:46-49 | The comment expression is applied to the whole document, string values included | the string value `x/**/y` | remove comments only outside string literals, as the normalisation loop does | medium, not executed | CommentFilter.StripCommentsAltersStringValue | CommentFilter.WrittenStringSurvives |

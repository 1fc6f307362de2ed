# SharpGenTools C++ model builder — a Dafny model

SharpGenTools generates C# interop code from C++ headers. Its front end runs
CastXML over the headers. It then reads the XML back into a C++ declaration
model: includes, enums, structs and unions, COM interfaces, functions,
constants and GUIDs. The mapping stage turns that model into managed records
(`CsMethod`, `CsProperty`, `CsEnum`) and places them in C# namespaces.

This project models that core as pure functions over immutable datatypes:

- **CastXML index** (`CastXml`): the id map, the file buckets, typedef renaming
  of `tag…`/`_…` aggregates, and the re-parenting of nodes under their
  `context`.
- **Configuration** (`Config`): include rules, attached types and bound
  types.
- **Fundamental types** (`FundamentalTypes`): how a word list such as
  `long long unsigned int` becomes a canonical name.
- **Type chains** (`TypeResolver`): pointer, reference, array, cv and typedef
  links followed to a terminal type.
- **SAL annotations** (`Annotations`): the token state machine that derives
  `In`/`Out`/`InOut`/`Buffer`/`Optional`, calling conventions and uuids.
- **Callables** (`Callables`): signatures and their parameters.
- **Structs and unions** (`Structs`): field offsets, bitfields and inlined
  anonymous members.
- **COM interfaces** (`Interfaces`): slot numbering. `Vtable` holds the
  Visual C++ overload reordering.
- **Enums, constants and GUIDs** (`Enums`, `Variables`, `Guids`).
- **The include walk** (`Parser`).
- **The preprocessor scanner** (`Macros`).
- **The extension-header writer** (`ExtensionHeader`).
- **The managed records** (`CsModel`).
- **Property pairing** (`Properties`).
- **Namespace resolution** (`Namespaces`).
- **The runtime vtable buffer** (`TypeData`).

Conventions:

- **Exceptions.** Every exception the C# code can throw on its inputs is a
  `Failure` of a `Result`: a missing dictionary key, a null attribute, a
  duplicate `Dictionary.Add`, a bad `int.Parse`, an unexpected tag.
- **State.** State the C# objects keep in fields is threaded explicitly. This
  covers memo maps keyed by node id (in place of XElement annotations),
  anonymous-enum counters, the module being filled, and the macro-dedup map.
- **Case-insensitive dictionaries** are keyed by an ASCII-folded key.
- **Integer width.** C# `int`/`uint` wrap-around is written out where it
  matters: method offsets, the vtable size counter and GUID fields.

## Model

| member | source | states |
|---|---|---|
| Text.FileNameFacts | SharpGen/Parser/MacroManager.cs:91 | the file name is a separator-free end of the path, following a separator or the drive root when shorter; a path with neither is its own file name |
| Text.FileNameExamples | SharpGen/Parser/MacroManager.cs:91 | `C:foo.h`, `C:\inc\a.h` and `inc/sub\b.h` give `foo.h`, `a.h` and `b.h` |
| FundamentalTypes.Step | SharpGen.Platform/CppParser.cs:1138-1164 | one word sets the unsigned flag, counts a `long` or `short`, makes `signed` read as `int`, records a base word, and leaves everything else unchanged |
| FundamentalTypes.ScanCounts | SharpGen.Platform/CppParser.cs:1136-1165 | after the whole word list: the long and short counts are the numbers of those words, unsigned holds iff the word occurs, and the output is the last base word |
| FundamentalTypes.FinishAsWritten | SharpGen.Platform/CppParser.cs:1167-1177 | the post-scan rules as the code runs them: one `short` wins, then two `long`s, then one `long` gives `long` whatever the base word, then the base word; without `unsigned` no prefix |
| FundamentalTypes.ConvertAsWrittenMeaning | SharpGen.Platform/CppParser.cs:1127-1178 | for every type name, as the code runs: the canonical name in terms of word counts and the last base word, one `long` always giving `long`, prefixed by `unsigned ` exactly when that word occurs |
| FundamentalTypes.Finish | SharpGen.Platform/CppParser.cs:1167-1177 | the post-scan rules with the `long double` branch reachable: as above, except that one `long` with the base word `double` gives `long double` |
| FundamentalTypes.ConvertMeaning | SharpGen.Platform/CppParser.cs:1127-1178 | the same characterisation for the corrected conversion, `long double` included |
| FundamentalTypes.ConvertDiffersOnlyOnLongDouble | SharpGen.Platform/CppParser.cs:1167-1170 | the code as written and the corrected conversion differ only on names with one `long` whose last base word is `double` |
| FundamentalTypes.FinishDiffersOnlyOnLongDouble | SharpGen.Platform/CppParser.cs:1167-1170 | the same, stated on the scan result |
| FundamentalTypes.LongDoubleAsWritten | SharpGen.Platform/CppParser.cs:1167-1170 | as written, `long double` converts to `long` |
| FundamentalTypes.LongDoubleCorrected | SharpGen.Platform/CppParser.cs:1169-1170 | the corrected conversion gives `long double` |
| FundamentalTypes.ShortUnsignedInt | SharpGen.Platform/CppParser.cs:1127-1178 | `short unsigned int` is `unsigned short` |
| FundamentalTypes.LongLongUnsignedInt | SharpGen.Platform/CppParser.cs:1127-1178 | `long long unsigned int` is `unsigned long long` |
| FundamentalTypes.LongInt | SharpGen.Platform/CppParser.cs:1167-1168 | `long int` is `long` |
| FundamentalTypes.LongUnsignedInt | SharpGen.Platform/CppParser.cs:1167-1176 | `long unsigned int` is `unsigned long`; the code, not the doc comment, decides |
| FundamentalTypes.SignedChar | SharpGen.Platform/CppParser.cs:1143-1159 | `signed char` is `char`, because the later base word replaces the `int` that `signed` set |
| TypeResolver.Next | SharpGen.Platform/CppParser.cs:1033 | following a link succeeds exactly when the `type` attribute names an indexed node |
| TypeResolver.FundamentalName | SharpGen.Platform/CppParser.cs:1016-1018 | a fundamental type resolves to the canonical name of its `name` under the conversion as the code runs it; a missing name fails |
| TypeResolver.Extent | SharpGen.Platform/CppParser.cs:1041 | one more than the bound, wrapping at 2^31 as unchecked 32-bit arithmetic does |
| TypeResolver.ArrayExtent | SharpGen.Platform/CppParser.cs:1040-1041 | fails iff `max` is missing or does not parse as a 32-bit integer once trailing `u`s are trimmed; otherwise the dimension is that integer plus one in 32-bit arithmetic |
| TypeResolver.TerminalName | SharpGen.Platform/CppParser.cs:1014-1062 | a function type ends as `__function__stdcall`, an aggregate with its own name, a bound typedef with its name, and a fundamental type with its canonical name under the conversion as the code runs it |
| TypeResolver.TerminalLookupAgrees | SharpGen.Platform/CppParser.cs:1067-1104 | the terminal step of `ResolveType` and of `ResolveAndFillType` agree |
| TypeResolver.Unwrap | SharpGen.Platform/CppParser.cs:1035-1055 | a pointer adds `*`, a reference adds `&`, cv sets `Const` and an array adds the dimension `max+1`; each succeeds exactly when its link (and its `max`) resolves |
| TypeResolver.ResolveAgreesWithFill | SharpGen.Platform/CppParser.cs:1004-1104 | along any chain, the name `ResolveType` returns is the `TypeName` the filling walk stores |
| TypeResolver.ResolveTypeAgreesWithResolveAndFillType | SharpGen.Platform/CppParser.cs:1067-1104 | `ResolveType(id)` equals the `TypeName` that `ResolveAndFillType(id)` fills in, whenever the latter succeeds |
| TypeResolver.FillIsCombine | SharpGen.Platform/CppParser.cs:1035-1055 | filling a descriptor that already has marks appends the chain's marks after the existing ones |
| TypeResolver.EmptyFillShape | SharpGen.Platform/CppParser.cs:1035-1055 | from an empty descriptor, the pointer string holds only `*` and `&` and every dimension is a 32-bit value |
| TypeResolver.FillExtends | SharpGen.Platform/CppParser.cs:1035-1055 | the walk only appends to the pointer string and the dimensions and never clears `Const` |
| TypeResolver.PointerToConstInt | SharpGen.Platform/CppParser.cs:1035-1055 | pointer → const → `int` gives type `int`, pointer `*` and const set |
| TypeResolver.SelfLoopIsCyclic | SharpGen.Platform/CppParser.cs:1010-1037 | a pointer whose link points back at itself never resolves (the source loops forever) |
| Annotations.StripSpacesLoop | SharpGen.Platform/CppParser.cs:328-349 | the character loop computes the recursive definition of the stripped text |
| Annotations.StripFromIdempotent | SharpGen.Platform/CppParser.cs:328-349 | stripping twice is stripping once |
| Annotations.StripSpacesIdempotent | SharpGen.Platform/CppParser.cs:328-349 | the same for the whole attribute text |
| Annotations.StripFromKeepsUnparenthesized | SharpGen.Platform/CppParser.cs:334-347 | text outside parentheses without a `(` is kept unchanged |
| Annotations.StripFromConcat | SharpGen.Platform/CppParser.cs:334-347 | the character loop is a left-to-right scan: text stripped in two pieces is the text stripped whole, the second piece starting at the depth the first leaves |
| Annotations.StripFromInside | SharpGen.Platform/CppParser.cs:336-341 | inside parentheses, text without parentheses loses exactly its whitespace and `"` |
| Annotations.StripSpacesGroup | SharpGen.Platform/CppParser.cs:328-349 | for text `a(b)c` with no parentheses in `a` or `b`: `a` is kept, `b` loses its whitespace and `"`, and `c` is stripped on its own |
| Annotations.StripFromKeepsParentheses | SharpGen.Platform/CppParser.cs:334-347 | only whitespace and `"` are ever removed: both texts are equal once those are dropped |
| Annotations.RemoveDroppable | SharpGen.Platform/CppParser.cs:342 | the result holds no whitespace and no `"` |
| Annotations.DropAnnotate | SharpGen.Platform/CppParser.cs:369-371 | a token starting with `annotate(` loses exactly that prefix; any other token is kept |
| Annotations.Decode | SharpGen.Platform/CppParser.cs:323-325 | there is nothing to decode exactly when the attributes are null or white space |
| Annotations.ParamFlags | SharpGen.Platform/CppParser.cs:445-450 | a parameter's flags never hold both `In` and `Out` |
| Annotations.AnnotateParameter | SharpGen.Platform/CppParser.cs:441-452 | name and type are kept; without attributes the parameter is unchanged; otherwise its flags are the decoded parameter flags |
| Annotations.AnnotateCallable | SharpGen.Platform/CppParser.cs:454-457 | a callable gets the decoded calling convention when there is one, and is otherwise unchanged |
| Annotations.AnnotateInterface | SharpGen.Platform/CppParser.cs:458-461 | an interface gets the decoded uuid when there is one, and is otherwise unchanged |
| Annotations.StepFlags | SharpGen.Platform/CppParser.cs:373-426 | one token only adds flags, and `hasWritable` is set exactly by a `SAL_writableTo` token |
| Annotations.AddedFacts | SharpGen.Platform/CppParser.cs:392-410 | no token adds `In` or `InOut`; `Buffer` is added exactly by a range token without a single-element count |
| Annotations.ScanRanges | SharpGen.Platform/CppParser.cs:400-410 | over a token list: writable iff some token is `SAL_writableTo`; `Buffer` iff some range token is not single-element |
| Annotations.ScanWritable | SharpGen.Platform/CppParser.cs:400-406 | the writable half of the above, by induction |
| Annotations.ScanBuffer | SharpGen.Platform/CppParser.cs:408-409 | the buffer half of the above, by induction |
| Annotations.ScanFlagsGrow | SharpGen.Platform/CppParser.cs:367-427 | flags are never removed: a prefix's flags are a subset of the whole list's |
| Annotations.WritableInPreSetsOut | SharpGen.Platform/CppParser.cs:402-404 | a `SAL_writableTo` token in pre context puts `Out` in the result |
| Annotations.ParamFlagsMeaning | SharpGen.Platform/CppParser.cs:432-450 | `In` iff nothing is writable and there is no `Out`; `InOut` iff nothing is writable and there is an `Out`; `Out` iff something is writable and there is an `Out`; `Buffer` and `Optional` as scanned |
| Annotations.ScanNeverInOut | SharpGen.Platform/CppParser.cs:367-427 | the token scan itself never sets `In` or `InOut` |
| Annotations.ScanConvention | SharpGen.Platform/CppParser.cs:411-422 | the calling convention is the last convention token's |
| Annotations.OutParameter | SharpGen.Platform/CppParser.cs:382-450 | `SAL_pre SAL_writableTo(elementCount(1))` gives exactly `{Out}` |
| Annotations.PreOnly | SharpGen.Platform/CppParser.cs:382-386 | `SAL_pre` alone only enters pre context |
| Annotations.PlainInParameter | SharpGen.Platform/CppParser.cs:432-434 | `SAL_pre` alone gives exactly `{In}` |
| Callables.ParameterName | SharpGen.Platform/CppParser.cs:297-299 | a parameter name is never empty |
| Callables.ParseParameterFacts | SharpGen.Platform/CppParser.cs:297-308 | an argument parses exactly when its type resolves; it gets the resolved type, its name (or `argK`) and the decoded flags, or none without attributes |
| Callables.ParseArguments | SharpGen.Platform/CppParser.cs:289-313 | one parameter per `Argument` |
| Callables.ParseArgumentsAt | SharpGen.Platform/CppParser.cs:289-313 | the i-th parameter is the i-th argument parsed with index i |
| Callables.ParseArgumentsFails | SharpGen.Platform/CppParser.cs:289-313 | the list fails iff some argument fails |
| Callables.ParseCallable | SharpGen.Platform/CppParser.cs:469-483 | success iff the parameters and the return type resolve; the result has the given name, those parameters, that return type and the decoded calling convention |
| Callables.UnnamedArgument | SharpGen.Platform/CppParser.cs:297-299 | an unnamed second argument is called `arg1` |
| CastXml.Lookup | SharpGen.Platform/CppParser.cs:1006 | an id lookup succeeds exactly for a present, indexed id, and returns that node |
| CastXml.AddToFiles | SharpGen.Platform/CppParser.cs:219-228 | the node joins its file's bucket, found ignoring case, and nothing else is added |
| CastXml.IndexElements | SharpGen.Platform/CppParser.cs:214-229 | on success every node is indexed under its own id, in document order, and nothing else |
| CastXml.AddElement | SharpGen.Platform/CppParser.cs:215-226 | one node is added exactly when it has an id not yet taken; it is then appended to the order and mapped under that id, and every id stays resolvable |
| CastXml.DuplicateIdFails | SharpGen.Platform/CppParser.cs:216-217 | two nodes with the same id make indexing fail |
| CastXml.RenameFromTypedef | SharpGen.Platform/CppParser.cs:251-268 | only the `name` of the typedef's target changes, and only for a struct, union or enum named `tag…`, `_…` or empty |
| CastXml.NormalizeTypedefNames | SharpGen.Platform/CppParser.cs:249-269 | the renaming pass keeps every id, tag, child list and non-name attribute |
| CastXml.Append | SharpGen.Platform/CppParser.cs:242 | a node is appended to its context's child list, and other lists are unchanged |
| CastXml.Reparent | SharpGen.Platform/CppParser.cs:236-244 | every node with a context becomes a child of that context; it succeeds whenever every context is indexed |
| CastXml.Parse | SharpGen.Platform/CppParser.cs:207-247 | one index entry per document node |
| CastXml.ParseIsFaithful | SharpGen.Platform/CppParser.cs:207-244 | the index is valid, keyed by the document's ids, keeps every node apart from its name, and lists every node under its context |
| CastXml.ParseSucceedsWhenContextsResolve | SharpGen.Platform/CppParser.cs:236-244 | with unique ids and every context present, parsing succeeds |
| CastXml.TypedefRenamesTagStruct | SharpGen.Platform/CppParser.cs:259-265 | `typedef struct tagFOO FOO_T` renames the struct to `FOO_T` |
| CastXml.FirstTypedefNameWins | SharpGen.Platform/CppParser.cs:251-268 | of two typedefs of `_FOO`, the first renames it and the second no longer applies |
| Config.FileEvents | SharpGen.Platform/CppParser.cs:81-125 | one event per include rule, plus one when the file generates an extension header |
| Config.BoundTypes | SharpGen.Platform/CppParser.cs:78-79 | the bound types are exactly the `From` of every binding |
| Config.Initialize | SharpGen.Platform/CppParser.cs:76-127 | the bound types are collected from all files |
| Config.ApplyKeepsInvariants | SharpGen.Platform/CppParser.cs:88-115 | one rule keeps two facts: every partially attached include has an attached-type set, and every attached include is processed |
| Config.ApplyAllKeepsInvariants | SharpGen.Platform/CppParser.cs:81-126 | the same over any rule sequence |
| Config.InitializeInvariants | SharpGen.Platform/CppParser.cs:76-127 | after initialisation both facts hold |
| Config.ApplyAllGrows | SharpGen.Platform/CppParser.cs:81-126 | processed includes, attached includes and attached types only grow, and full attachment is never withdrawn |
| Config.ApplyRuleEffect | SharpGen.Platform/CppParser.cs:85-115 | an include rule marks its id processed, attaches it fully when `attach` is true, records its attach types, and otherwise leaves attachment alone |
| Config.ApplyExtensionEffect | SharpGen.Platform/CppParser.cs:120-125 | an extension header id is processed, and attached fully unless it was already attached |
| Config.FullWinsInEitherOrder | SharpGen.Platform/CppParser.cs:96-99 | full and partial rules for one include make it fully attached in either order |
| ParserContext.IncludeIdOfFile | SharpGen.Platform/CppParser.cs:1186-1199 | the lookup succeeds exactly when the file id is present and names a node; a missing or unknown id fails |
| ParserContext.IncludeIdOfFileValue | SharpGen.Platform/CppParser.cs:1186-1199 | a known file id maps to the file name without directory and extension when the file exists on disk, and to `""` otherwise |
| ParserContext.FromIncludeToProcess | SharpGen.Platform/CppParser.cs:979-985 | a type without `file` is not from a processed include; otherwise it is iff its include id is processed |
| ParserContext.IsTypeBound | SharpGen.Platform/CppParser.cs:994-995 | a type is bound iff it comes from a processed include or its name is a bound type |
| CppModel.FullName | SharpGen/CppModel/CppModule.cs:32 | a module's full name is empty |
| CppModel.FindIncludeIndex | SharpGen/CppModel/CppModule.cs:35-36 | the position of the first include named as asked, ignoring case; none exactly when no include matches |
| CppModel.FindInclude | SharpGen/CppModel/CppModule.cs:35-36 | the first matching include ignoring case, or null exactly when there is none |
| CppModel.FindOrAddInclude | SharpGen.Platform/CppParser.cs:902-907 | an existing include is reused and the module is unchanged; otherwise a new empty include is appended |
| CppModel.AddElements | SharpGen.Platform/CppParser.cs:942-943 | elements are appended to one include and the other includes are untouched |
| CsModel.NewMethod | SharpGen/Model/CsMethod.cs:35-55 | without a C++ method: default flags and offsets 0. With one: each flag follows the rule when the rule sets it. Each offset is the C++ method's offset plus the rule's `LayoutOffsetTranslate`, wrapped to 32 bits, and equals the plain sum when that fits; the two offsets keep their difference modulo 2^32, and exactly when neither addition overflows |
| CsModel.ShiftedDifference | SharpGen/Model/CsMethod.cs:50-54 | adding one translation to both offsets preserves their difference modulo 2^32 |
| CsModel.EmptyRuleKeepsDefaults | SharpGen/Model/CsMethod.cs:42-54 | a rule that sets nothing gives the defaults and the C++ offsets |
| CsModel.AnyForced | SharpGen/Model/CsMethod.cs:107-108 | forced for a list of interfaces iff forced for one of them |
| CsModel.ForcedByRuleOrCallback | SharpGen/Model/CsMethod.cs:99-105 | a null interface never forces; keep-implement-public forces for any interface; otherwise only a callback interface forces, and only when the method is not hidden |
| CsModel.SuffixName | SharpGen/Model/CsMethod.cs:110-113 | the name gains the suffix and nothing else changes |
| CsModel.SuffixNameTwice | SharpGen/Model/CsMethod.cs:110-113 | suffixing twice is suffixing with the concatenation |
| CsModel.NewProperty | SharpGen/Model/CsProperty.cs:32-39 | the accessors and the parameter flag are kept; persistent iff there is a getter and it is persistent |
| CsModel.DisposeBlockOfNewProperty | SharpGen/Model/CsProperty.cs:65 | a dispose block is needed iff the getter exists, is persistent, and the type is not primitive |
| CsModel.Verb | SharpGen/Model/CsProperty.cs:30 | a verb match starts with `G` or `R` and is the text at that position |
| CsModel.MatchGet | SharpGen/Model/CsProperty.cs:30 | a match starts, after blanks, with `<`, `G` or `R` |
| CsModel.RewriteGet | SharpGen/Model/CsProperty.cs:58 | without a match the text is unchanged; with one, the matched prefix gains ` or sets` and the rest is kept |
| CsModel.Description | SharpGen/Model/CsProperty.cs:49-63 | rewritten only when both accessors exist and the description is non-empty; otherwise the base description |
| CsModel.RewriteGetWithoutVerb | SharpGen/Model/CsProperty.cs:30 | text whose first non-blank is not `<`, `G` or `R` is unchanged |
| CsModel.RewriteLeadingGets | SharpGen/Model/CsProperty.cs:58 | `Gets…` becomes `Gets or sets…` |
| CsModel.RewriteGetExamples | SharpGen/Model/CsProperty.cs:58 | `Gets x` is rewritten and `Sets x` is not |
| CsModel.FormatDocUnmanagedName | SharpGen/Model/CsProperty.cs:75-84 | `g / s` with both names, the one present name alone, `Unknown` with neither; never empty |
| CsModel.DocUnmanagedName | SharpGen/Model/CsProperty.cs:69-73 | no accessor gives `Unknown`; a getter alone gives its documentation name |
| CsModel.FormatDocPairSplits | SharpGen/Model/CsProperty.cs:77-78 | the pair text splits back into getter, ` / ` and setter |
| CsModel.NewEnum | SharpGen/Model/CsEnum.cs:30-55 | fails iff the underlying type is null. Size, alignment and blittability are the underlying type's. Without a C++ enum it is not a flag; a rule's flag value wins; otherwise a flag iff the C++ name ends in `FLAG` or `FLAGS` |
| CsModel.FlagRuleWins | SharpGen/Model/CsEnum.cs:49-54 | the rule decides in either direction, and the name rule ignores the underlying type |
| CsModel.FlagNameExamples | SharpGen/Model/CsEnum.cs:49-50 | `DXGI_FLAGS` and `D_FLAG` are flag names, `D_FLAGGED` is not |
| Enums.StripSuffix | SharpGen.Platform/CppParser.cs:791-792 | a name ending in the suffix loses exactly it; any other is kept |
| Enums.StripAppendedSuffix | SharpGen.Platform/CppParser.cs:791-792 | stripping an appended suffix gives the name back |
| Enums.EnumItems | SharpGen.Platform/CppParser.cs:788-795 | one item per child, named with the generator's suffix removed and carrying its `init`; a nameless child fails |
| Enums.UnderlyingType | SharpGen.Platform/CppParser.cs:797-804 | an underlying type exists iff the size parses as an unsigned 64-bit number, and it is one of byte, short, int or long |
| Enums.UnderlyingTypeBySize | SharpGen.Platform/CppParser.cs:797-804 | 8 → byte, 16 → short, 64 → long, any other size → int |
| Enums.ParseEnum | SharpGen.Platform/CppParser.cs:769-807 | items and underlying type as above; a named enum keeps its name and leaves the counters alone |
| Enums.AnonymousEnumName | SharpGen.Platform/CppParser.cs:774-784 | an anonymous enum is named `INCLUDE_ENUM_n`, with n the count so far for its include, and the count goes up by one |
| Enums.AnonymousEnumsDiffer | SharpGen.Platform/CppParser.cs:776-783 | two anonymous enums from one include get different names |
| Enums.GeneratedItemRoundTrip | SharpGen.Platform/CppParser.cs:790-794 | an item the extension header wrote for macro `M` reads back as `M` |
| Variables.MatchAt | SharpGen.Platform/CppParser.cs:830 | a cast match starting at `(` captures a non-empty span inside one line, ending before a `)` |
| Variables.CastSpanFromExists | SharpGen.Platform/CppParser.cs:830-832 | the pattern matches iff some `(` has a `)` at least two further on in the same line |
| Variables.StripCast | SharpGen.Platform/CppParser.cs:830-832 | the captured group of the leftmost match, or the whole value without a match |
| Variables.StripCastWithoutParens | SharpGen.Platform/CppParser.cs:830-832 | a value without `(` is unchanged |
| Variables.StripCastExamples | SharpGen.Platform/CppParser.cs:830-832 | `((float)1.5F)` is `1.5F` and `(5)` is `5` |
| Variables.FixFloatSuffixLeavesNone | SharpGen.Platform/CppParser.cs:836 | afterwards no `.F` or `.f` is left |
| Variables.FixFloatSuffixUnchanged | SharpGen.Platform/CppParser.cs:836 | a value without `.F`/`.f` is unchanged |
| Variables.FixFloatSuffixExamples | SharpGen.Platform/CppParser.cs:836 | `1.F` reads `1.0F` and `2.f` reads `2.0F` |
| Variables.ParseVariable | SharpGen.Platform/CppParser.cs:814-842 | fails iff the name is missing or the type does not resolve; a `GUID` gives a GUID or null; anything else gives a constant with the stripped name, the type and the cleaned value |
| Variables.ConstantValueHasNoDotF | SharpGen.Platform/CppParser.cs:829-838 | a constant's value never holds `.F` |
| Variables.GeneratedVariableRoundTrip | SharpGen.Platform/CppParser.cs:816-818 | a variable the extension header wrote for macro `M` reads back as `M` |
| Guids.CollectAt | SharpGen.Platform/CppParser.cs:868-876 | each collected value is its piece's number truncated to 32 bits |
| Guids.CollectFails | SharpGen.Platform/CppParser.cs:872-873 | collection fails iff some piece is not a number |
| Guids.ParseFieldsAt | SharpGen.Platform/CppParser.cs:868-876 | field i is `long.Parse` of piece i, truncated to `int` |
| Guids.ParseFieldsFails | SharpGen.Platform/CppParser.cs:872-873 | parsing fails iff some piece is not a 64-bit integer |
| Guids.LittleEndian | SharpGen.Platform/CppParser.cs:878-879 | n bytes, each in 0..255 |
| Guids.GuidBytes | SharpGen.Platform/CppParser.cs:878-879 | 16 bytes: field 0 as 4 little-endian bytes, fields 1 and 2 as 2 each after truncation to `short`, then the low byte of fields 3 to 10 |
| Guids.ParseGuid | SharpGen.Platform/CppParser.cs:849-880 | null unless the text starts with `{` or ends with `}}`; past that guard, the text is a GUID iff it cleans to exactly 11 fields that all parse, and the GUID is their byte layout |
| Guids.CleanWrapped | SharpGen.Platform/CppParser.cs:855-861 | cleaning a braced body removes the braces, the suffix letters and the blanks |
| Guids.CleanOpenBraceOptional | SharpGen.Platform/CppParser.cs:852-856 | with or without the opening `{`, a body followed by `}}` cleans to the same text |
| Guids.ParseInitText | SharpGen.Platform/CppParser.cs:849-880 | the CastXML text for any 11 64-bit values parses to the byte layout of those values truncated |
| Guids.ParseInitText32 | SharpGen.Platform/CppParser.cs:851 | for 32-bit values the layout uses the values unchanged |
| Guids.MissingOpenBraceAccepted | SharpGen.Platform/CppParser.cs:852 | the shape guard uses `&&`, so text without the opening `{` but ending in `}}` still parses |
| Guids.SameCleanSameGuid | SharpGen.Platform/CppParser.cs:855-880 | texts that pass the guard and clean to the same text give the same GUID |
| Guids.WrongFieldCount | SharpGen.Platform/CppParser.cs:865-866 | 10 or 12 fields give null |
| Structs.FieldName | SharpGen.Platform/CppParser.cs:606 | a field keeps its name, and an unnamed one is `field{offset}` |
| Structs.Shift | SharpGen.Platform/CppParser.cs:684-689 | inlined fields are the inner fields with offsets shifted by the counter |
| Structs.LayoutFields | SharpGen.Platform/CppParser.cs:660-718 | the field loop computes the functional layout from offset 0 |
| Structs.StructFieldsConsecutive | SharpGen.Platform/CppParser.cs:704-717 | in a struct of plain, whole fields the i-th field sits at offset i and is named from that offset |
| Structs.UnionFieldsShareOffset | SharpGen.Platform/CppParser.cs:705 | every plain field of a union sits at the starting offset |
| Structs.BitFieldSharesOffset | SharpGen.Platform/CppParser.cs:711-713 | a bitfield does not advance the counter, so the next field shares its offset |
| Structs.UnionInsideStruct | SharpGen.Platform/CppParser.cs:677-717 | `{int a; union {int b; float c;}; int d;}` gives a@0, b@1, c@1, d@2 |
| Structs.StructName | SharpGen.Platform/CppParser.cs:746-762 | a top-level aggregate keeps its own name (or `""`) |
| Structs.InnerNamesDiffer | SharpGen.Platform/CppParser.cs:751-754 | anonymous inner aggregates of one parent with different indexes get different names |
| Structs.DirectBaseIsLastRoot | SharpGen.Platform/CppParser.cs:726-744 | the direct base is set iff some base has no base of its own, and it is the last such base |
| Structs.ChainLeavesBaseUnset | SharpGen.Platform/CppParser.cs:739-740 | for `C : B : A`, `C` gets no base name |
| Structs.FieldChildren | SharpGen.Platform/CppParser.cs:662-665 | only `Field` children are laid out |
| Structs.BitField | SharpGen.Platform/CppParser.cs:614-621 | without `bits` there is no bitfield; otherwise the width is `int.Parse(bits)`, failing exactly when that fails |
| Structs.RawField | SharpGen.Platform/CppParser.cs:603-627 | a field succeeds iff its bits parse and its type resolves, and keeps its own name |
| Structs.ParseStruct | SharpGen.Platform/CppParser.cs:638-640 | a node already built is returned from the memo unchanged |
| Structs.ParseEntries | SharpGen.Platform/CppParser.cs:662-718 | one layout entry per field |
| Structs.ParseStructIsMemoised | SharpGen.Platform/CppParser.cs:638-647 | after a build the node is memoised, and building it again, whatever the parent or index, returns the identical result |
| Interfaces.BaseIds | SharpGen.Platform/CppParser.cs:507-508 | no `bases` attribute means no bases |
| Interfaces.SlotMethods | SharpGen.Platform/CppParser.cs:533-537 | only pure-virtual, non-overriding `Method` children get slots |
| Interfaces.ParseMethods | SharpGen.Platform/CppParser.cs:533-543 | one method per slot child |
| Interfaces.ParseInterface | SharpGen.Platform/CppParser.cs:493-495 | an interface already built is returned from the memo unchanged |
| Interfaces.BuildInterface | SharpGen.Platform/CppParser.cs:498-554 | slots start at the bases' total; `TotalMethodCount` is inherited plus own; methods come with Windows offsets from the same start; base name and guid as derived |
| Interfaces.ParseMethodsAt | SharpGen.Platform/CppParser.cs:539-542 | slot i has offset start + i and the callable parsed from its child |
| Interfaces.ConsecutiveSlots | SharpGen.Platform/CppParser.cs:528-554 | the i-th method's offset is the inherited count plus i |
| Interfaces.WindowsSlotsArePermutation | SharpGen.Platform/CppParser.cs:591-595 | the Windows offsets are distinct and fill the range from the start |
| Interfaces.FirstBoundBaseNames | SharpGen.Platform/CppParser.cs:519-520 | the base name is the first bound base's |
| Interfaces.SetBaseNameStays | SharpGen.Platform/CppParser.cs:519-520 | once set, the base name never changes |
| Interfaces.NoBoundBaseNoName | SharpGen.Platform/CppParser.cs:519-520 | with no bound base there is no base name |
| Interfaces.ParseInterfaceIsMemoised | SharpGen.Platform/CppParser.cs:493-499 | after a build the node is memoised, and a repeat call returns the identical interface |
| Vtable.Reorder | SharpGen.Platform/CppParser.cs:568-589 | the in-place remove/insert loop produces the grouping order: each name's overloads in reverse, at its first position |
| Vtable.GatherOverloads | SharpGen.Platform/CppParser.cs:573-588 | the inner loop moves every later overload of the current name in front of its group, keeping the others in order |
| Vtable.GroupStart | SharpGen.Platform/CppParser.cs:582-584 | the backward walk stops just before the current name's group |
| Vtable.VtableOrderIsPermutation | SharpGen.Platform/CppParser.cs:568-589 | the reordering is a permutation |
| Vtable.DistinctNamesKeepOrder | SharpGen.Platform/CppParser.cs:568-589 | without overloads the order is unchanged |
| Vtable.CreateReleaseCreate | SharpGen.Platform/CppParser.cs:565-589 | `[Create, Release, Create]` is laid out as second Create, first Create, Release |
| Vtable.SetMethodsWindowsOffset | SharpGen.Platform/CppParser.cs:562-596 | each method's Windows offset is the start plus its position in the reordered list |
| Vtable.WindowsOffsetsFacts | SharpGen.Platform/CppParser.cs:591-595 | the offsets are distinct, fill the range from the start, and follow the reordered list |
| Parser.ParseAggregate | SharpGen.Platform/CppParser.cs:961-963 | an aggregate adds its named inner aggregates and then itself |
| Parser.ParseElement | SharpGen.Platform/CppParser.cs:947-970 | an enum gives one enum; a non-inline function gives its function and an inline one nothing; an abstract class or struct an interface; other aggregates a struct last; a variable without `init` and any other tag nothing |
| Parser.ParseClass | SharpGen.Platform/CppParser.cs:959-961 | abstract gives an interface, otherwise a struct |
| Parser.Skipped | SharpGen.Platform/CppParser.cs:919-938 | an element is kept iff its context is a namespace, it is complete and named, it is attached (for a partial include), and it is not `__builtin` |
| Parser.ParseElementsInInclude | SharpGen.Platform/CppParser.cs:915-945 | only the current include grows, and only by appending |
| Parser.ParseAllElements | SharpGen.Platform/CppParser.cs:885-913 | existing includes are kept and new ones only appended |
| Parser.VisitedIncludeExists | SharpGen.Platform/CppParser.cs:885-913 | every processed, attached file has an include in the module afterwards |
| Parser.NothingVisitedNothingAdded | SharpGen.Platform/CppParser.cs:887-897 | when no file is processed and attached, the walk changes nothing |
| Parser.SkippedAddsNothing | SharpGen.Platform/CppParser.cs:919-938 | a skipped element contributes nothing |
| Parser.PartialIncludeSkipsUnattached | SharpGen.Platform/CppParser.cs:933-934 | in a partial include an element not among the attached types is skipped |
| Parser.KeptElementAdded | SharpGen.Platform/CppParser.cs:940-943 | a kept element's declarations are appended to the current include |
| Parser.UnionAddsInnerThenItself | SharpGen.Platform/CppParser.cs:962-963 | a union adds its named inner aggregates, then itself |
| Macros.IncludeMarker | SharpGen/Parser/MacroManager.cs:34 | a line marker yields a non-empty quoted path |
| Macros.DefineLine | SharpGen/Parser/MacroManager.cs:35 | a define yields an identifier name that does not start with a digit |
| Macros.Define | SharpGen/Parser/MacroManager.cs:108-109 | a name occurs once per bucket, with the latest value, and other macros are kept |
| Macros.AddIgnoringCase | SharpGen/Parser/MacroManager.cs:90 | the included-files set stays unique ignoring case and contains the new path |
| Macros.SelectBucket | SharpGen/Parser/MacroManager.cs:91-98 | the file's bucket, matched ignoring case, becomes current; without one an empty bucket for the file is appended and becomes current; the bucket list is otherwise unchanged |
| Macros.OnMarker | SharpGen/Parser/MacroManager.cs:84-98 | a line marker keeps the scanner's invariants |
| Macros.OnDefine | SharpGen/Parser/MacroManager.cs:100-111 | a define keeps the scanner's invariants |
| Macros.ParseLine | SharpGen/Parser/MacroManager.cs:78-114 | any line keeps the invariants: unique bucket names and included files ignoring case, unique macro names per bucket, a valid current bucket |
| Macros.ParseLines | SharpGen/Parser/MacroManager.cs:59 | the same over all lines |
| Macros.IncludeIds | SharpGen/Parser/MacroManager.cs:63 | each bucket's include id is its file name without extension |
| Macros.DefineElements | SharpGen/Parser/MacroManager.cs:70-71 | one `CppDefine` per macro, in order |
| Macros.AddBucket | SharpGen/Parser/MacroManager.cs:63-71 | includes are kept, and at most one is added |
| Macros.AddBuckets | SharpGen/Parser/MacroManager.cs:61-72 | includes are kept, and at most one is added per bucket |
| Macros.Parse | SharpGen/Parser/MacroManager.cs:57-73 | invariants kept; the module's includes are kept and at most one is added per bucket |
| Macros.MarkerSelectsBucket | SharpGen/Parser/MacroManager.cs:84-98 | a non-system marker makes its file's bucket current (ignoring case and directory), records the path with `\\` collapsed, and keeps the other buckets |
| Macros.SystemMarkerStops | SharpGen/Parser/MacroManager.cs:86-87 | a `<…>` marker turns collection off and changes nothing else |
| Macros.IgnoredWithoutBucket | SharpGen/Parser/MacroManager.cs:100 | without a current bucket a non-marker line changes nothing |
| Macros.DefineRecorded | SharpGen/Parser/MacroManager.cs:105-110 | a define with a value is recorded once in the current bucket with its trimmed value; other buckets are unchanged |
| Macros.BlankDefineIgnored | SharpGen/Parser/MacroManager.cs:105-106 | a define whose value trims to empty changes nothing |
| Macros.FunctionLikeSkipped | SharpGen/Parser/MacroManager.cs:35 | `#define F(x) x` is not a define line |
| Macros.ValuelessSkipped | SharpGen/Parser/MacroManager.cs:35 | `#define EMPTY` is not a define line |
| Macros.DefineExample | SharpGen/Parser/MacroManager.cs:35 | ` #define  N 42 ` gives name `N` and value `42 ` |
| Macros.MarkerExample | SharpGen/Parser/MacroManager.cs:34 | `# 1 "d/a.h"` gives `d/a.h` |
| Macros.AddBucketHasInclude | SharpGen/Parser/MacroManager.cs:63-69 | after a bucket is added the module has its include |
| Macros.BucketIncludeExists | SharpGen/Parser/MacroManager.cs:61-72 | every bucket's include exists afterwards |
| Macros.ParsedFileHasInclude | SharpGen/Parser/MacroManager.cs:57-73 | every file that was scanned has an include in the module |
| Macros.ExistingIncludeReused | SharpGen/Parser/MacroManager.cs:64-71 | an existing include is reused, not duplicated, and gains the bucket's defines |
| ExtensionHeader.Scan | SharpGen/Parser/CppExtensionHeaderGenerator.cs:92-102 | written macros come from the found ones, and earlier entries of the dedup map are kept |
| ExtensionHeader.ScanRecords | SharpGen/Parser/CppExtensionHeaderGenerator.cs:92-101 | afterwards the dedup map holds exactly the old keys and every found name with the suffix |
| ExtensionHeader.ScanKeepsValues | SharpGen/Parser/CppExtensionHeaderGenerator.cs:97-100 | an existing entry's value is never replaced |
| ExtensionHeader.ScanFresh | SharpGen/Parser/CppExtensionHeaderGenerator.cs:96-101 | every written macro was new, and none is written twice |
| ExtensionHeader.ScanComplete | SharpGen/Parser/CppExtensionHeaderGenerator.cs:92-101 | every found macro not yet in the map is written |
| ExtensionHeader.ScanWritesNew | SharpGen/Parser/CppExtensionHeaderGenerator.cs:92-101 | a found macro is written iff its suffixed name was new |
| ExtensionHeader.ScanOnceOnly | SharpGen/Parser/CppExtensionHeaderGenerator.cs:97-101 | a macro written by one rule is never written again by a later one |
| ExtensionHeader.EnumRulesWriteOnce | SharpGen/Parser/CppExtensionHeaderGenerator.cs:85-106 | two enum rules in a row never write the same macro |
| ExtensionHeader.DuplicateWrittenOnce | SharpGen/Parser/CppExtensionHeaderGenerator.cs:96-101 | a macro found twice is written once |
| ExtensionHeader.ScanOrder | SharpGen/Parser/CppExtensionHeaderGenerator.cs:92-101 | the written macros come in the order the finder returned them, each the first found define of its name (so with that define's value) |
| ExtensionHeader.ScanWritesExactlyNew | SharpGen/Parser/CppExtensionHeaderGenerator.cs:92-101 | the written macros were all found and new, are written once each, include every found macro that was new, and come in the order found, each the first define of its name |
| ExtensionHeader.ScanExtends | SharpGen/Parser/CppExtensionHeaderGenerator.cs:92-101 | the map afterwards keeps its old entries and gains every found name with the suffix |
| ExtensionHeader.CreateEnumFromMacro | SharpGen/Parser/CppExtensionHeaderGenerator.cs:85-106 | the item lines between the frame lines are those of exactly the found macros not written before, each once, in the order found and taken from the first define of each name; the map keeps its entries and gains every found name with the enum-item suffix; the contexts are unchanged |
| ExtensionHeader.EmptyEnum | SharpGen/Parser/CppExtensionHeaderGenerator.cs:85-106 | with no macro found, the enum has no items |
| ExtensionHeader.CreateVariableFromMacro | SharpGen/Parser/CppExtensionHeaderGenerator.cs:114-132 | after the comment line, the `extern "C"` lines are those of exactly the found macros not written before, each once, in the order found and taken from the first define of each name; the map keeps its entries and gains every found name with the variable suffix |
| ExtensionHeader.CreateCppFromMacro | SharpGen/Parser/CppExtensionHeaderGenerator.cs:73-78 | a rule that is neither an enum nor a constant rule writes nothing and changes nothing |
| ExtensionHeader.SetContexts | SharpGen/Parser/CppExtensionHeaderGenerator.cs:56-61 | no id or an unknown context set adds nothing |
| ExtensionHeader.HandleContextRule | SharpGen/Parser/CppExtensionHeaderGenerator.cs:48-66 | a clear rule empties the contexts; a context rule appends the set's contexts and then its own ids; nothing else changes |
| ExtensionHeader.ClearThenContext | SharpGen/Parser/CppExtensionHeaderGenerator.cs:48-64 | clearing and then adding leaves only the new contexts |
| ExtensionHeader.WriteRules | SharpGen/Parser/CppExtensionHeaderGenerator.cs:31-37 | the dedup map only grows across a file's rules |
| ExtensionHeader.GenerateExtensionHeaders | SharpGen/Parser/CppExtensionHeaderGenerator.cs:18-40 | at most one header per file; the map only grows; nothing is written when no file has updated extensions |
| Namespaces.EmptyIsValid | SharpGen/Transform/NamespaceRegistry.cs:12-14 | the empty registry meets the invariant |
| Namespaces.GetOrCreateNamespace | SharpGen/Transform/NamespaceRegistry.cs:28-36 | returns the name, registers it if new, otherwise changes nothing, and keeps the invariant |
| Namespaces.GetOrCreateIdempotent | SharpGen/Transform/NamespaceRegistry.cs:28-36 | a second call changes nothing and at most one entry is added |
| Namespaces.MapIncludeToNamespace | SharpGen/Transform/NamespaceRegistry.cs:43-46 | the namespace is created even when the call fails; it fails iff the include is already mapped ignoring case, and otherwise maps it |
| Namespaces.MapIncludeTwiceFails | SharpGen/Transform/NamespaceRegistry.cs:43-46 | mapping the same include twice, in any case, fails |
| Namespaces.AttachTypeToNamespace | SharpGen/Transform/NamespaceRegistry.cs:53-56 | the pattern is appended and its namespace created |
| Namespaces.NamespaceForInclude | SharpGen/Transform/NamespaceRegistry.cs:58-61 | found exactly for a mapped include, ignoring case |
| Namespaces.FirstPattern | SharpGen/Transform/NamespaceRegistry.cs:63-71 | the first pattern that matches, or none when no pattern matches |
| Namespaces.ResolveNamespace | SharpGen/Transform/NamespaceRegistry.cs:79-105 | the rule's namespace first, then the first matching pattern, then the parent include's mapping, else null; a result is always registered |
| Namespaces.ResolvePrecedence | SharpGen/Transform/NamespaceRegistry.cs:84-89 | a rule namespace, or a matching pattern, decides whatever else the registry holds |
| Namespaces.UnmappedIncludeResolvesToNull | SharpGen/Transform/NamespaceRegistry.cs:91-102 | no rule, no pattern, and a missing or unmapped parent include give null |
| Properties.GetPropertySpec | SharpGen/Transform/PropertyBuilder.cs:101-109 | `Is…` is a getter named by the whole name; `Get…` a getter and `Set…` a setter named by the rest; other names are no accessor; fails on a name shorter than 3 not starting with `Is` |
| Properties.AccessorNames | SharpGen/Transform/PropertyBuilder.cs:101-109 | `GetX`, `SetX`, `IsX` and `SetIsX` classify as getter X, setter X, getter IsX and setter IsX |
| Properties.Classify | SharpGen/Transform/PropertyBuilder.cs:27-28 | fails iff some name fails; keeps exactly the accessors, each with its spec |
| Properties.GroupOf | SharpGen/Transform/PropertyBuilder.cs:29 | a group holds exactly the accessors of that property name |
| Properties.OfKind | SharpGen/Transform/PropertyBuilder.cs:37-38 | exactly the group's getters (or setters) |
| Properties.ValidationRules | SharpGen/Transform/PropertyBuilder.cs:71-99 | getter: no parameters and a return value, or one out non-array parameter and no return or a result return. Setter: one parameter, not out, not array, and no return or a result return |
| Properties.PropertyOfGroup | SharpGen/Transform/PropertyBuilder.cs:35-69 | a group makes a property iff it has some accessor, at most one getter and one setter, both valid, and equal types when both exist; the property holds exactly those accessors; its type is the getter's, else the setter's; it is a parameter property iff its getter has one parameter not used as return |
| Properties.DuplicateAccessorsMakeNone | SharpGen/Transform/PropertyBuilder.cs:43-44 | two getters or two setters give no property |
| Properties.CreateProperties | SharpGen/Transform/PropertyBuilder.cs:25-33 | fails iff a name fails; every property is keyed by its name, is valid, and its accessors are given methods classified under that name |
| Properties.CreatePropertiesKeys | SharpGen/Transform/PropertyBuilder.cs:25-33 | a name has a property iff its group of classified methods makes one, and that property holds the group's getter and setter |
| Properties.GroupCount | SharpGen/Transform/PropertyBuilder.cs:29-38 | a group's getters (setters) are as many as the methods classified so |
| Properties.PropertyHasOneAccessorEach | SharpGen/Transform/PropertyBuilder.cs:25-44 | a created property has at most one getter and one setter among the methods |
| Properties.PairGroup | SharpGen/Transform/PropertyBuilder.cs:35-69 | a valid getter/setter pair of one type makes a property of that type |
| Properties.GetSetPairMakesProperty | SharpGen/Transform/PropertyBuilder.cs:25-69 | `GetX` and `SetX` with matching types make property X from both |
| Properties.ReduceVisibility | SharpGen/Transform/PropertyBuilder.cs:141-150 | fails without a parent interface; otherwise only the visibility changes: it becomes `Internal` unless the interface or its base forces public, in which case it is kept |
| Properties.AttachPropertyToParent | SharpGen/Transform/PropertyBuilder.cs:111-139 | not attached without a parent or when not allowed; fails iff an accessor lacks an interface; otherwise both accessors are kept, the getter gains `_` iff the name starts with `is` in any case, and the setter keeps its name |
| Properties.AttachOneAccessor | SharpGen/Transform/PropertyBuilder.cs:119-129 | a get-only property is attached unless forbidden; a set-only one only when explicitly allowed |
| TypeData.InitializeIfNeeded | SharpGen.Runtime/TypeDataRegistrationHelper.cs:14-21 | never discards pending vtables, and is the identity once initialised |
| TypeData.Add | SharpGen.Runtime/TypeDataRegistrationHelper.cs:25-33 | the vtable is appended and the size stays the total length modulo 2^32 |
| TypeData.AddAllPending | SharpGen.Runtime/TypeDataRegistrationHelper.cs:25-33 | after any adds the pending list is the old list followed by the vtables in order |
| TypeData.AddsFromDefault | SharpGen.Runtime/TypeDataRegistrationHelper.cs:25-33 | from a fresh helper, the size is the sum of the lengths modulo 2^32 |
| TypeData.RegisterImpl | SharpGen.Runtime/TypeDataRegistrationHelper.cs:44-63 | the buffer is the concatenation of the pending vtables; its length is the size when that does not wrap; nothing pending gives an empty buffer; afterwards nothing is pending and the size is 0 |
| TypeData.AddThenRegister | SharpGen.Runtime/TypeDataRegistrationHelper.cs:25-63 | adding then registering yields the vtables concatenated in add order |

## Left out

- Logging (`Logger` calls, warnings on unbalanced SAL blocks, unknown fundamental words): no effect on the model.
- `CppParser.Run`, its catch-all and the CastXML invocation and dump: process I/O.
- `XDocument.Load`: the document is an input sequence of elements.
- The `File.Exists` check in `GetIncludeIdFromFileId`: the set of existing files is a parameter.
- `Environment.NewLine` and the `CppElementFinder` of the extension-header writer: the newline text is a parameter, and the finder is a function from contexts and pattern to defines.
- The extension-header file writes: each header's text is returned instead.
- NamespaceRegistry's type patterns are .NET regular expressions; `Regex.Match(...).Success` is a `Matcher` parameter, and a malformed pattern's exception is not modelled.
- `CsModel.MatchGet` and the cast pattern of `Variables.StripCast` are hand-written matchers for those two patterns only (SharpGen/Model/CsProperty.cs:30 and SharpGen.Platform/CppParser.cs:830), not a general regular-expression engine; the `\s` of the first is .NET's Unicode whitespace class.
- `Macros.DefineLine`: the `#define` pattern (SharpGen/Parser/MacroManager.cs:35) uses .NET's Unicode `\w` and `\s`; the model's `\w` is ASCII letters, digits and `_` (its `\s` is .NET's Unicode class), so a define whose name continues with a non-ASCII letter (`#define Aé 1`) is recorded by the C# code and skipped by the model.
- `Macros.IncludeMarker`: the line-marker pattern (SharpGen/Parser/MacroManager.cs:34) uses .NET's Unicode `\d` and `\s`; the model's `\d` is ASCII digits, and its `\s` is .NET's Unicode class.
- Case folding (InvariantCultureIgnoreCase and `ToUpper`) is ASCII folding.
- `Text.FileName`: `Path.GetFileName` and `Path.GetFileNameWithoutExtension` (SharpGen/Parser/MacroManager.cs:63 and :91, SharpGen.Platform/CppParser.cs:1198) are modelled with the Windows rules: both `\` and `/` separate, and a leading drive root `X:` is cut off. UNC and device roots (`\\server\share`, `\\?\`) are not recognised, and on Unix, where only `/` separates, `a\b.h` would stay whole while the model gives `b.h`.
- `StartsWith` and `EndsWith` with a string argument compare under the current culture in the C# code; the model compares ordinally. This affects the members below, one per line.
- `CsModel.NamedAsFlags`: the `FLAG`/`FLAGS` test of `CsEnum` is ordinal.
- `CastXml.IsAnonymousTagName`: the `tag`/`_` test of the typedef renaming (SharpGen.Platform/CppParser.cs:261) is ordinal.
- `Annotations.Step`: the `annotate(`, `SAL_…`, calling-convention and `uuid(` prefix tests (SharpGen.Platform/CppParser.cs:370-423) are ordinal; so are `Annotations.DropAnnotate` and `Annotations.IsRange`.
- `Enums.IsAnonymous`: the `$` test (SharpGen.Platform/CppParser.cs:774) is ordinal.
- `Enums.StripSuffix`: the suffix tests of enum items and variables (SharpGen.Platform/CppParser.cs:791 and 817) are ordinal.
- `Guids.ParseGuid`: the brace tests (SharpGen.Platform/CppParser.cs:852) are ordinal.
- `Parser.Skipped`: the `__builtin` test (SharpGen.Platform/CppParser.cs:937) is ordinal.
- `Properties.GetPropertySpec`: the `Is`, `Get` and `Set` tests (SharpGen/Transform/PropertyBuilder.cs:103-105) are ordinal.
- `Macros.OnMarker`: the `<` test (SharpGen/Parser/MacroManager.cs:86) is ordinal.
- `Structs.Shift`: inlining an unnamed struct or union field (SharpGen.Platform/CppParser.cs:684-687) adds the offset to the inner struct's own field objects, so that struct, memoised by id, holds the shifted offsets from then on, and a later use of it sees them. The model shifts copies and leaves the memoised struct as parsed.
- `FundamentalTypes.Finish` and `FundamentalTypes.ConvertMeaning` describe the corrected conversion, which the resolver does not use. The conversion as the code runs it is `FinishAsWritten` and `ConvertAsWritten`, characterised by `FundamentalTypes.ConvertAsWrittenMeaning`.
- Dictionary enumeration order is taken as insertion order: macro buckets, file buckets, the namespace list and NamespaceRegistry's type-pattern map (whose first match wins, SharpGen/Transform/NamespaceRegistry.cs:65) are sequences.
- Values that CsMethod, CsProperty and CsEnum take from their base classes are inputs, because those classes are not part of this model: the base description, `IsPrimitive`, the accessors' documentation names, a method's parent interface and its `IBase`.
- `PublicType` identity in property pairing is compared by name, not by object reference.
- Renaming a getter in `AttachPropertyToParent` changes the attached property's copy only; the parent interface's own method list is not modelled.
- Roslyn syntax output is a foreign library and is left out: `CsMethod.VTableOffsetExpression`, `IsFunctionPointerInVtbl`, `CsProperty.PersistentFieldIdentifier`, RoslynGenerator, StatementSyntaxList, InterfaceArrayMarshaller.
- SharpGenTask is MSBuild orchestration, with file and cache I/O, a mutex and cancellation.
- TypeDataStorage and the unmanaged allocation of `RegisterImpl` are left out; the buffer is a sequence.
- `TypeData.RegisterImpl`: the allocation size `PointerSize * _size` is a product of two 32-bit unsigned values, so it wraps once it reaches 2^32 bytes, which is from 2^29 pending pointers with 8-byte pointers and from 2^30 with 4-byte pointers; the allocation is then smaller than the copy, which would overrun it. `_size` itself wraps at 2^32 pointers. The model copies everything into a sequence and states the buffer's length only when the size does not wrap.
- Config records (BindRule, ContextRule, ConfigBaseRule) are XML-serialisable data; only the fields the parser reads are modelled.
- IIncludeDirectoryResolver is an interface only.
- The chain walks of the type resolver, the interface builder and the struct builder carry fuel of one more than the number of indexed nodes. Memoisation happens before recursion, so a well-formed index never exhausts it. Exhausting it on a chain that loops (the source would never return) is reported as a failure.
- `CsModel.MatchGet`: the contract states only where a match starts; the rewrite it drives is stated by `RewriteLeadingGets` and `RewriteGetWithoutVerb`.
- `CsModel.DocUnmanagedName`: the contract states the no-accessor and getter-only cases; the combinations are those of `FormatDocUnmanagedName`.
- `Structs.ParseStruct` and `Interfaces.ParseInterface`: their contracts state memoisation; the layout and slot facts are stated on `Layout` and `BuildInterface`.
- `Macros.OnMarker`, `Macros.OnDefine`, `Macros.ParseLine`: their contracts state the scanner invariants; the behaviour of each line kind is stated by the lemmas after them.
- `ExtensionHeader.Scan`: its own contract is a frame; what it writes is stated by `ScanRecords`, `ScanFresh` and `ScanComplete`.
- The C# code also reads `_mapIdToXElement[file]` for file ids; a missing id there is a failure like any other lookup.

## Findings

| source | as written | input that shows it | evidently intended | confidence | as-written member | corrected member |
|---|---|---|---|---|---|---|
| SharpGen.Platform/CppParser.cs:1167-1170 | `if (longCount == 1) outputType = "long";` runs before `if (longCount == 1 && outputType == "double")`, so that second test can never see `double` | `long double` converts to `long` | `long double` converts to `long double`, as the dedicated branch and its comment say | high; not executed | FundamentalTypes.LongDoubleAsWritten | FundamentalTypes.LongDoubleCorrected |

The type resolver uses the conversion as written (`FundamentalTypes.ConvertAsWritten`), as the code does. The corrected conversion (`FundamentalTypes.Convert`) is defined and characterised beside it.

The typedef renaming follows the code: the first typedef of an anonymous or `tag…` aggregate renames it, and a later typedef renames it again only if the name it now has still starts with `tag` or `_` or is empty.

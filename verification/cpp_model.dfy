/** The C++ declaration model the parser fills (`SharpGen.CppModel`): a module
    owns includes, an include owns declarations. Objects that the C# code
    shares by reference are values here; the parser's memo maps say which
    value a node id stands for. */
module CppModel {
  import opened Wrappers
  import opened Text

  /** What the type resolver fills into a `CppMarshallable`: the terminal type
      name, one '*' or '&' per pointer or reference wrapper, the array extents
      in wrapper order (the C# code keeps them comma-joined in one string), and
      whether a cv-qualifier was crossed. An untouched `Pointer` (null in C#)
      is the empty string. */
  datatype TypeDesc = TypeDesc(typeName: Option<string>, pointer: string, arrayDimensions: seq<int>, isConst: bool)

  const EmptyTypeDesc: TypeDesc := TypeDesc(None, "", [], false)

  /** `ParamAttribute` flags. */
  datatype ParamFlag = In | Out | InOut | Buffer | Optional

  datatype CallingConvention = StdCall | CDecl | ThisCall

  datatype CppParameter = CppParameter(name: string, attribute: set<ParamFlag>, paramType: TypeDesc)

  /** A function or method signature (`CppCallable`). */
  datatype CppCallable = CppCallable(
    name: Option<string>,
    callingConvention: Option<CallingConvention>,
    parameters: seq<CppParameter>,
    returnValue: TypeDesc)

  /** A virtual method: declaration-order slot and Visual C++ slot. */
  datatype CppMethod = CppMethod(callable: CppCallable, offset: int, windowsOffset: int) {
    function Name(): Option<string> { callable.name }
  }

  datatype CppField = CppField(name: string, offset: int, isBitField: bool, bitOffset: int, fieldType: TypeDesc)

  datatype CppStruct = CppStruct(name: string, isUnion: bool, base: Option<string>, fields: seq<CppField>)

  datatype CppInterface = CppInterface(
    name: Option<string>,
    base: Option<string>,
    guid: Option<string>,
    methods: seq<CppMethod>,
    totalMethodCount: int)

  datatype CppEnumItem = CppEnumItem(name: string, value: Option<string>)

  /** `underlyingType` is `None` when the size attribute did not parse and the
      enum keeps its default. */
  datatype CppEnum = CppEnum(name: string, items: seq<CppEnumItem>, underlyingType: Option<string>)

  datatype CppConstant = CppConstant(name: string, typeName: Option<string>, value: string)

  /** A GUID as the 16 bytes `Guid.ToByteArray` gives. */
  datatype CppGuid = CppGuid(name: string, bytes: seq<int>)

  datatype CppDefine = CppDefine(name: string, value: string)

  datatype CppElement =
    | EnumElement(cppEnum: CppEnum)
    | FunctionElement(cppFunction: CppCallable)
    | InterfaceElement(iface: CppInterface)
    | StructElement(cppStruct: CppStruct)
    | ConstantElement(constant: CppConstant)
    | GuidElement(guid: CppGuid)
    | DefineElement(define: CppDefine)

  datatype CppInclude = CppInclude(name: string, elements: seq<CppElement>)

  datatype CppModule = CppModule(name: string, includes: seq<CppInclude>)

  /** `CppModule.FullName`: a module contributes nothing to qualified names. */
  function FullName(m: CppModule): (r: string)
    ensures |r| == 0
  {
    ""
  }

  /** The position `CppModule.FindInclude` answers with: the first include whose
      name equals `name` ignoring case. */
  function FindIncludeIndex(m: CppModule, name: string): (r: Option<nat>)
    ensures r.Some? ==> r.value < |m.includes| && EqualsIgnoreCase(m.includes[r.value].name, name)
    ensures r.Some? ==> forall j :: 0 <= j < r.value ==> !EqualsIgnoreCase(m.includes[j].name, name)
    ensures r.None? <==> forall j :: 0 <= j < |m.includes| ==> !EqualsIgnoreCase(m.includes[j].name, name)
  {
    FirstMatch(m.includes, name, 0)
  }

  function FirstMatch(includes: seq<CppInclude>, name: string, from: nat): (r: Option<nat>)
    requires from <= |includes|
    requires forall j :: 0 <= j < from ==> !EqualsIgnoreCase(includes[j].name, name)
    ensures r.Some? ==> r.value < |includes| && EqualsIgnoreCase(includes[r.value].name, name)
    ensures r.Some? ==> forall j :: 0 <= j < r.value ==> !EqualsIgnoreCase(includes[j].name, name)
    ensures r.None? ==> forall j :: 0 <= j < |includes| ==> !EqualsIgnoreCase(includes[j].name, name)
    decreases |includes| - from
  {
    if from == |includes| then None
    else if EqualsIgnoreCase(includes[from].name, name) then Some(from)
    else FirstMatch(includes, name, from + 1)
  }

  /** `CppModule.FindInclude`: null when no include matches. */
  function FindInclude(m: CppModule, name: string): (r: Option<CppInclude>)
    ensures r.Some? ==> r.value in m.includes && EqualsIgnoreCase(r.value.name, name)
    ensures r.None? <==> forall inc :: inc in m.includes ==> !EqualsIgnoreCase(inc.name, name)
    ensures r.Some? ==>
              exists i :: (0 <= i < |m.includes| && m.includes[i] == r.value
                           && forall j :: 0 <= j < i ==> !EqualsIgnoreCase(m.includes[j].name, name))
  {
    match FindIncludeIndex(m, name)
    case Some(i) => Some(m.includes[i])
    case None => None
  }

  /** `FindInclude(id) ?? Add(new CppInclude(id))`, the idiom the parser and the
      macro manager share: an existing include is reused, otherwise an empty
      one is appended. */
  function FindOrAddInclude(m: CppModule, name: string): (r: (CppModule, nat))
    ensures r.1 < |r.0.includes|
    ensures EqualsIgnoreCase(r.0.includes[r.1].name, name)
    ensures r.0.name == m.name
    ensures FindIncludeIndex(m, name).Some? ==> r.0 == m && r.1 == FindIncludeIndex(m, name).value
    ensures FindIncludeIndex(m, name).None? ==>
              r.0.includes == m.includes + [CppInclude(name, [])] && r.1 == |m.includes|
  {
    match FindIncludeIndex(m, name)
    case Some(i) => (m, i)
    case None => (m.(includes := m.includes + [CppInclude(name, [])]), |m.includes|)
  }

  /** `include.Add(e)` for each of `es`, on the include at `at`. */
  function AddElements(m: CppModule, at: nat, es: seq<CppElement>): (r: CppModule)
    requires at < |m.includes|
    ensures r.name == m.name && |r.includes| == |m.includes|
    ensures r.includes[at] == m.includes[at].(elements := m.includes[at].elements + es)
    ensures forall j :: 0 <= j < |m.includes| && j != at ==> r.includes[j] == m.includes[j]
  {
    m.(includes := m.includes[at := m.includes[at].(elements := m.includes[at].elements + es)])
  }

  /** Includes are only ever appended: the earlier ones keep their place and
      name. */
  ghost predicate IncludesKept(m: CppModule, n: CppModule) {
    && n.name == m.name
    && |m.includes| <= |n.includes|
    && forall j :: 0 <= j < |m.includes| ==> n.includes[j].name == m.includes[j].name
  }

  /** Some include of `m` is named `id`, ignoring case. */
  ghost predicate HasInclude(m: CppModule, id: string) {
    exists j :: 0 <= j < |m.includes| && EqualsIgnoreCase(m.includes[j].name, id)
  }

  /** An include that exists keeps existing while includes are only appended. */
  lemma HasIncludeKept(m: CppModule, n: CppModule, id: string, j: nat)
    requires IncludesKept(m, n)
    requires j < |m.includes| && EqualsIgnoreCase(m.includes[j].name, id)
    ensures HasInclude(n, id)
  {
    assert n.includes[j].name == m.includes[j].name;
  }

  /** Some include keeps existing while includes are only appended. */
  lemma HasIncludeStays(m: CppModule, n: CppModule, id: string)
    requires IncludesKept(m, n) && HasInclude(m, id)
    ensures HasInclude(n, id)
  {
    var j :| 0 <= j < |m.includes| && EqualsIgnoreCase(m.includes[j].name, id);
    HasIncludeKept(m, n, id, j);
  }

  lemma IncludesKeptTransitive(a: CppModule, b: CppModule, c: CppModule)
    requires IncludesKept(a, b) && IncludesKept(b, c)
    ensures IncludesKept(a, c)
  {
  }
}

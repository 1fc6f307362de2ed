/** `NamespaceRegistry` (SharpGen/Transform/NamespaceRegistry.cs): the C#
    namespaces created so far, the include-to-namespace map (keys compared
    ignoring case), the type patterns in registration order, and the
    precedence by which a C++ element finds its namespace. A namespace is
    identified by its name, so "the same object" is "the same name". */
module Namespaces {
  import opened Wrappers
  import opened Text

  /** Whether a type pattern matches an element name (`Regex.Match(…).Success`). */
  type Matcher = (string, string) -> bool

  datatype Registry = Registry(
    includeMap: map<string, string>,
    typeMap: seq<(string, string)>,
    namespaces: seq<string>)

  const Empty := Registry(map[], [], [])

  /** Namespace names are registered once, and every namespace a map points
      to is registered. */
  ghost predicate Valid(reg: Registry) {
    && (forall i, j :: 0 <= i < j < |reg.namespaces| ==> reg.namespaces[i] != reg.namespaces[j])
    && (forall k :: k in reg.includeMap ==> reg.includeMap[k] in reg.namespaces)
    && (forall i :: 0 <= i < |reg.typeMap| ==> reg.typeMap[i].1 in reg.namespaces)
  }

  lemma EmptyIsValid()
    ensures Valid(Empty)
  {
  }

  /** `GetOrCreateNamespace`: an existing namespace is returned as it is; a
      new one is appended. */
  function GetOrCreateNamespace(reg: Registry, name: string): (r: (Registry, string))
    ensures r.1 == name && name in r.0.namespaces
    ensures name in reg.namespaces ==> r.0 == reg
    ensures name !in reg.namespaces ==> r.0 == reg.(namespaces := reg.namespaces + [name])
    ensures Valid(reg) ==> Valid(r.0)
  {
    if name in reg.namespaces then (reg, name)
    else (reg.(namespaces := reg.namespaces + [name]), name)
  }

  /** Asking twice creates nothing the second time. */
  lemma GetOrCreateIdempotent(reg: Registry, name: string)
    ensures GetOrCreateNamespace(GetOrCreateNamespace(reg, name).0, name) == GetOrCreateNamespace(reg, name)
    ensures |GetOrCreateNamespace(reg, name).0.namespaces| <= |reg.namespaces| + 1
  {
  }

  /** `MapIncludeToNamespace`. The namespace is created before
      `Dictionary.Add` throws on an include mapped already, so a failed call
      still leaves it registered. */
  function MapIncludeToNamespace(reg: Registry, includeName: string, ns: string): (r: (Registry, Option<Fault>))
    ensures ns in r.0.namespaces
    ensures r.0.namespaces == GetOrCreateNamespace(reg, ns).0.namespaces && r.0.typeMap == reg.typeMap
    ensures r.1.Some? <==> Fold(includeName) in reg.includeMap
    ensures r.1.Some? ==> r.0.includeMap == reg.includeMap
    ensures r.1.None? ==> r.0.includeMap == reg.includeMap[Fold(includeName) := ns]
    ensures Valid(reg) ==> Valid(r.0)
  {
    var (created, target) := GetOrCreateNamespace(reg, ns);
    var key := Fold(includeName);
    if key in created.includeMap then (created, Some(DuplicateKey(includeName)))
    else (created.(includeMap := created.includeMap[key := target]), None)
  }

  /** An include mapped once cannot be mapped again under any spelling. */
  lemma MapIncludeTwiceFails(reg: Registry, a: string, b: string, ns1: string, ns2: string)
    requires EqualsIgnoreCase(a, b)
    requires MapIncludeToNamespace(reg, a, ns1).1.None?
    ensures MapIncludeToNamespace(MapIncludeToNamespace(reg, a, ns1).0, b, ns2).1.Some?
  {
  }

  /** `AttachTypeToNamespace`: every call adds an entry, since two `Regex`
      objects are never the same key. */
  function AttachTypeToNamespace(reg: Registry, pattern: string, ns: string): (r: Registry)
    ensures r.typeMap == reg.typeMap + [(pattern, ns)]
    ensures r.includeMap == reg.includeMap && ns in r.namespaces
    ensures r.namespaces == GetOrCreateNamespace(reg, ns).0.namespaces
    ensures Valid(reg) ==> Valid(r)
  {
    var (created, target) := GetOrCreateNamespace(reg, ns);
    created.(typeMap := created.typeMap + [(pattern, target)])
  }

  /** `TryGetNamespaceForInclude`. */
  function NamespaceForInclude(reg: Registry, includeName: string): (r: Option<string>)
    ensures r.Some? <==> Fold(includeName) in reg.includeMap
    ensures r.Some? ==> r.value == reg.includeMap[Fold(includeName)]
  {
    var key := Fold(includeName);
    if key in reg.includeMap then Some(reg.includeMap[key]) else None
  }

  /** The first pattern, in registration order, that matches `name`. */
  function FirstPattern(ps: seq<(string, string)>, name: string, matches: Matcher): (r: Option<nat>)
    ensures r.Some? ==> r.value < |ps| && matches(ps[r.value].0, name)
    ensures r.Some? ==> forall j :: 0 <= j < r.value ==> !matches(ps[j].0, name)
    ensures r.None? ==> forall j :: 0 <= j < |ps| ==> !matches(ps[j].0, name)
  {
    if |ps| == 0 then None
    else if matches(ps[0].0, name) then Some(0)
    else match FirstPattern(ps[1..], name, matches)
      case None => None
      case Some(i) => Some(i + 1)
  }

  /** What `ResolveNamespace` reads of a C++ element: its name, the
      `Namespace` of its rule, and the name of its parent include. */
  datatype ElementInfo = ElementInfo(name: string, ruleNamespace: Option<string>, parentInclude: Option<string>)

  /** `ResolveNamespace`: the rule's namespace first, then the first
      matching type pattern, then the parent include's namespace. `None`
      where the source logs a fatal error and returns null. */
  function ResolveNamespace(reg: Registry, e: ElementInfo, matches: Matcher): (r: (Registry, Option<string>))
    ensures !IsNullOrEmpty(e.ruleNamespace) ==>
              r.1 == Some(e.ruleNamespace.value) && r.0 == GetOrCreateNamespace(reg, e.ruleNamespace.value).0
    ensures IsNullOrEmpty(e.ruleNamespace) ==> r.0 == reg
    ensures IsNullOrEmpty(e.ruleNamespace) && FirstPattern(reg.typeMap, e.name, matches).Some? ==>
              r.1 == Some(reg.typeMap[FirstPattern(reg.typeMap, e.name, matches).value].1)
    ensures IsNullOrEmpty(e.ruleNamespace) && FirstPattern(reg.typeMap, e.name, matches).None? ==>
              r.1 == (if e.parentInclude.None? then None else NamespaceForInclude(reg, e.parentInclude.value))
    ensures Valid(reg) ==> Valid(r.0) && (r.1.Some? ==> r.1.value in r.0.namespaces)
  {
    if !IsNullOrEmpty(e.ruleNamespace) then
      var (created, ns) := GetOrCreateNamespace(reg, e.ruleNamespace.value);
      (created, Some(ns))
    else match FirstPattern(reg.typeMap, e.name, matches)
      case Some(i) => (reg, Some(reg.typeMap[i].1))
      case None =>
        match e.parentInclude
        case None => (reg, None)
        case Some(parent) => (reg, NamespaceForInclude(reg, parent))
  }

  /** Precedence: the include map matters only when no rule namespace and no
      pattern decide, and the patterns only when no rule namespace does. */
  lemma ResolvePrecedence(reg: Registry, other: Registry, e: ElementInfo, matches: Matcher)
    ensures !IsNullOrEmpty(e.ruleNamespace) ==> ResolveNamespace(reg, e, matches).1 == ResolveNamespace(other, e, matches).1
    ensures IsNullOrEmpty(e.ruleNamespace) && reg.typeMap == other.typeMap &&
            FirstPattern(reg.typeMap, e.name, matches).Some? ==>
              ResolveNamespace(reg, e, matches).1 == ResolveNamespace(other, e, matches).1
  {
  }

  /** An element whose include was never mapped, or which has none, gets no
      namespace unless its rule or a pattern gives one. */
  lemma UnmappedIncludeResolvesToNull(reg: Registry, e: ElementInfo, matches: Matcher)
    requires IsNullOrEmpty(e.ruleNamespace)
    requires forall i :: 0 <= i < |reg.typeMap| ==> !matches(reg.typeMap[i].0, e.name)
    requires e.parentInclude.None? || Fold(e.parentInclude.value) !in reg.includeMap
    ensures ResolveNamespace(reg, e, matches).1.None?
  {
  }
}

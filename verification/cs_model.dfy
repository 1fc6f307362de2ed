/** The derived attributes of three records of the managed model:
    `CsMethod` (SharpGen/Model/CsMethod.cs), `CsProperty`
    (SharpGen/Model/CsProperty.cs) and `CsEnum` (SharpGen/Model/CsEnum.cs).
    What their base classes compute (`CsCallable`, `CsMarshalBase`,
    `CsTypeBase`) is not part of this model and enters as plain fields. */
module CsModel {
  import opened Wrappers
  import opened Text
  import opened CppModel

  // ---------------------------------------------------------------------------
  // CsMethod
  // ---------------------------------------------------------------------------

  /** The attributes of a method's mapping rule that `CsMethod` reads. */
  datatype MethodRule = MethodRule(
    property: Option<bool>,
    persist: Option<bool>,
    hidden: Option<bool>,
    managedPartial: Option<bool>,
    nativePartial: Option<bool>,
    customVtbl: Option<bool>,
    keepImplementPublic: Option<bool>,
    layoutOffsetTranslate: int)

  /** A rule that sets nothing. */
  const NoRule := MethodRule(None, None, None, None, None, None, None, 0)

  /** A C++ method together with the rule attached to it (`cppMethod.Rule`). */
  datatype RuledMethod = RuledMethod(cppMethod: CppMethod, rule: MethodRule)

  /** `Visibility`, as far as the property builder changes it. */
  datatype Visibility = Public | Internal

  /** A parameter of a managed callable, with the facts the property rules read. */
  datatype CsParameter = CsParameter(publicType: string, isOut: bool, isArray: bool, usedAsReturn: bool)

  /** What `CsCallable` knows of the return value: `HasReturnType`,
      `IsReturnTypeResult` and `HasReturnTypeValue`. */
  datatype ReturnInfo = ReturnInfo(publicType: string, hasReturnType: bool, isResult: bool, hasValue: bool)

  /** The view of a `CsInterface` that the visibility rule reads: whether it
      is a callback interface, and its `IBase`. */
  datatype InterfaceView = InterfaceView(isCallback: bool, iBase: Option<InterfaceView>)

  /** What a `CsMethod` inherits from `CsCallable` and `CsBase`: its name, the
      container it sits in, the interface found by `GetParent<CsInterface>`,
      its signature and its documentation names. */
  datatype Callable = Callable(
    name: string,
    parent: Option<string>,
    parentInterface: Option<InterfaceView>,
    parameters: seq<CsParameter>,
    returnValue: ReturnInfo,
    docName: Option<string>,
    docShortName: Option<string>,
    visibility: Visibility)

  /** The flags the constructor may take from the rule. */
  datatype MethodFlags = MethodFlags(
    allowProperty: Option<bool>,
    isPersistent: bool,
    hidden: bool,
    managedPartial: bool,
    nativePartial: bool,
    customVtbl: bool,
    keepImplementPublic: bool)

  /** The values the properties hold before the constructor sets them. */
  const DefaultFlags := MethodFlags(None, false, false, false, false, false, false)

  datatype CsMethod = CsMethod(base: Callable, cpp: Option<CppMethod>, flags: MethodFlags, offset: int, windowsOffset: int)

  /** `v == (rule ?? default)` for one flag. */
  predicate Overridden(rule: Option<bool>, default: bool, v: bool) {
    if rule.Some? then v == rule.value else v == default
  }

  /** Every flag is the rule's value where the rule sets one, and the default
      otherwise. */
  predicate FlagsFollow(rule: MethodRule, f: MethodFlags) {
    && f.allowProperty == (if rule.property.Some? then rule.property else DefaultFlags.allowProperty)
    && Overridden(rule.persist, DefaultFlags.isPersistent, f.isPersistent)
    && Overridden(rule.hidden, DefaultFlags.hidden, f.hidden)
    && Overridden(rule.managedPartial, DefaultFlags.managedPartial, f.managedPartial)
    && Overridden(rule.nativePartial, DefaultFlags.nativePartial, f.nativePartial)
    && Overridden(rule.customVtbl, DefaultFlags.customVtbl, f.customVtbl)
    && Overridden(rule.keepImplementPublic, DefaultFlags.keepImplementPublic, f.keepImplementPublic)
  }

  /** The constructor `CsMethod(ioc, cppMethod, name)`. Both offsets move by
      the same `LayoutOffsetTranslate`, in unchecked 32-bit arithmetic. */
  function NewMethod(base: Callable, cpp: Option<RuledMethod>): (r: CsMethod)
    ensures r.base == base
    ensures cpp.None? ==> r.cpp.None? && r.flags == DefaultFlags && r.offset == 0 && r.windowsOffset == 0
    ensures cpp.Some? ==> r.cpp == Some(cpp.value.cppMethod) && FlagsFollow(cpp.value.rule, r.flags)
    ensures cpp.Some? ==> r.offset == Wrap32(cpp.value.cppMethod.offset + cpp.value.rule.layoutOffsetTranslate)
    ensures cpp.Some? ==> r.windowsOffset == Wrap32(cpp.value.cppMethod.windowsOffset + cpp.value.rule.layoutOffsetTranslate)
    ensures cpp.Some? && Int32Min <= cpp.value.cppMethod.offset + cpp.value.rule.layoutOffsetTranslate <= Int32Max ==>
              r.offset == cpp.value.cppMethod.offset + cpp.value.rule.layoutOffsetTranslate
    ensures cpp.Some? ==>
              (r.offset - r.windowsOffset - (cpp.value.cppMethod.offset - cpp.value.cppMethod.windowsOffset)) % 0x1_0000_0000 == 0
    ensures cpp.Some? && Int32Min <= cpp.value.cppMethod.offset + cpp.value.rule.layoutOffsetTranslate <= Int32Max
              && Int32Min <= cpp.value.cppMethod.windowsOffset + cpp.value.rule.layoutOffsetTranslate <= Int32Max ==>
              r.offset - r.windowsOffset == cpp.value.cppMethod.offset - cpp.value.cppMethod.windowsOffset
  {
    match cpp
    case None => CsMethod(base, None, DefaultFlags, 0, 0)
    case Some(RuledMethod(m, tag)) =>
      var flags := MethodFlags(
        if tag.property.Some? then tag.property else DefaultFlags.allowProperty,
        tag.persist.GetOr(DefaultFlags.isPersistent),
        tag.hidden.GetOr(DefaultFlags.hidden),
        tag.managedPartial.GetOr(DefaultFlags.managedPartial),
        tag.nativePartial.GetOr(DefaultFlags.nativePartial),
        tag.customVtbl.GetOr(DefaultFlags.customVtbl),
        tag.keepImplementPublic.GetOr(DefaultFlags.keepImplementPublic));
      var offset := Wrap32(m.offset + tag.layoutOffsetTranslate);
      var windowsOffset := Wrap32(m.windowsOffset + tag.layoutOffsetTranslate);
      assert (offset - windowsOffset - (m.offset - m.windowsOffset)) % 0x1_0000_0000 == 0 by {
        ShiftedDifference(m.offset, m.windowsOffset, tag.layoutOffsetTranslate);
      }
      CsMethod(base, Some(m), flags, offset, windowsOffset)
  }

  /** Shifting two numbers by the same amount keeps their difference modulo
      2^32 after truncation. */
  lemma ShiftedDifference(a: int, b: int, t: int)
    ensures (Wrap32(a + t) - Wrap32(b + t) - (a - b)) % 0x1_0000_0000 == 0
  {
    var x := Wrap32(a + t) - (a + t);
    var y := Wrap32(b + t) - (b + t);
    assert x % 0x1_0000_0000 == 0 && y % 0x1_0000_0000 == 0;
    var kx := x / 0x1_0000_0000;
    var ky := y / 0x1_0000_0000;
    assert x == kx * 0x1_0000_0000;
    assert y == ky * 0x1_0000_0000;
    assert Wrap32(a + t) - Wrap32(b + t) - (a - b) == (kx - ky) * 0x1_0000_0000;
  }

  /** A rule that sets nothing builds the method a missing C++ method builds,
      except that it keeps the C++ offsets. */
  lemma EmptyRuleKeepsDefaults(base: Callable, m: CppMethod)
    requires Int32Min <= m.offset <= Int32Max && Int32Min <= m.windowsOffset <= Int32Max
    ensures NewMethod(base, Some(RuledMethod(m, NoRule))).flags == NewMethod(base, None).flags
    ensures NewMethod(base, Some(RuledMethod(m, NoRule))).offset == m.offset
    ensures NewMethod(base, Some(RuledMethod(m, NoRule))).windowsOffset == m.windowsOffset
  {
  }

  /** `IsPublicVisibilityForced(CsInterface)`. */
  predicate IsPublicVisibilityForced(m: CsMethod, parent: Option<InterfaceView>) {
    parent.Some? && (m.flags.keepImplementPublic || (parent.value.isCallback && !m.flags.hidden))
  }

  /** `IsPublicVisibilityForced(params CsInterface[])`: some interface of
      the list forces it. */
  function AnyForced(m: CsMethod, parents: seq<Option<InterfaceView>>): (r: bool)
    ensures r <==> exists i :: 0 <= i < |parents| && IsPublicVisibilityForced(m, parents[i])
  {
    if |parents| == 0 then false
    else IsPublicVisibilityForced(m, parents[0]) || AnyForced(m, parents[1..])
  }

  /** No interface forces a hidden method that the rule does not keep
      public, and every interface forces one the rule keeps public. */
  lemma ForcedByRuleOrCallback(m: CsMethod, parents: seq<Option<InterfaceView>>)
    ensures !m.flags.keepImplementPublic && m.flags.hidden ==> !AnyForced(m, parents)
    ensures m.flags.keepImplementPublic ==> (AnyForced(m, parents) <==> exists i :: 0 <= i < |parents| && parents[i].Some?)
    ensures !m.flags.keepImplementPublic && !m.flags.hidden ==>
              (AnyForced(m, parents) <==> exists i :: 0 <= i < |parents| && parents[i].Some? && parents[i].value.isCallback)
  {
  }

  /** `SuffixName`: the name grows by `suffix` and nothing else changes. */
  function SuffixName(m: CsMethod, suffix: string): (r: CsMethod)
    ensures EndsWith(r.base.name, suffix) && DropSuffix(r.base.name, suffix) == m.base.name
    ensures r.base.(name := m.base.name) == m.base
    ensures r.(base := m.base) == m
  {
    m.(base := m.base.(name := m.base.name + suffix))
  }

  /** Two suffixes in a row are one suffix. */
  lemma SuffixNameTwice(m: CsMethod, a: string, b: string)
    ensures SuffixName(SuffixName(m, a), b) == SuffixName(m, a + b)
  {
    assert m.base.name + a + b == m.base.name + (a + b);
  }

  // ---------------------------------------------------------------------------
  // CsProperty
  // ---------------------------------------------------------------------------

  /** A property of an interface or a struct. */
  datatype CsProperty = CsProperty(
    name: string,
    cpp: Option<CppMethod>,
    getter: Option<CsMethod>,
    setter: Option<CsMethod>,
    isPropertyParam: bool,
    isPersistent: bool,
    publicType: Option<string>)

  /** The constructor: a property is persistent as its getter is; without a
      getter it keeps the default, false. */
  function NewProperty(cpp: Option<CppMethod>, name: string, getter: Option<CsMethod>, setter: Option<CsMethod>,
                       isPropertyParam: bool): (r: CsProperty)
    ensures r.name == name && r.cpp == cpp && r.getter == getter && r.setter == setter
    ensures r.isPropertyParam == isPropertyParam && r.publicType.None?
    ensures r.isPersistent <==> getter.Some? && getter.value.flags.isPersistent
  {
    CsProperty(name, cpp, getter, setter, isPropertyParam,
               if getter.Some? then getter.value.flags.isPersistent else false,
               None)
  }

  /** `IsDisposeBlockNeeded`; `isPrimitive` is what `CsMarshalBase` derives
      from the public type. */
  predicate IsDisposeBlockNeeded(p: CsProperty, isPrimitive: bool) {
    p.isPersistent && p.getter.Some? && !isPrimitive
  }

  /** A freshly built property needs a dispose block exactly when it has a
      persistent getter and a non-primitive type. */
  lemma DisposeBlockOfNewProperty(cpp: Option<CppMethod>, name: string, getter: Option<CsMethod>, setter: Option<CsMethod>,
                                  isPropertyParam: bool, isPrimitive: bool)
    ensures IsDisposeBlockNeeded(NewProperty(cpp, name, getter, setter, isPropertyParam), isPrimitive) <==>
              getter.Some? && getter.value.flags.isPersistent && !isPrimitive
  {
  }

  /** The verb `(Gets?|Retrieves?|Returns)` at `p`; the greedy `s?` takes
      the longer word first. */
  function Verb(s: string, p: nat): (r: Option<string>)
    requires p <= |s|
    ensures r.Some? ==> p < |s| && (s[p] == 'G' || s[p] == 'R')
    ensures r.Some? ==> p + |r.value| <= |s| && s[p..p + |r.value|] == r.value
  {
    var t := s[p..];
    if StartsWith(t, "Gets") then Some("Gets")
    else if StartsWith(t, "Get") then Some("Get")
    else if StartsWith(t, "Retrieves") then Some("Retrieves")
    else if StartsWith(t, "Retrieve") then Some("Retrieve")
    else if StartsWith(t, "Returns") then Some("Returns")
    else None
  }

  /** A match of `^\s*(\<[Pp]\>)?\s*(Gets?|Retrieves?|Returns)`: the two
      groups and where the match ends. Once the leading white space is
      skipped, an optional `<p>` decides where the verb must stand; giving
      back white space never helps, because the text before is all white. */
  function MatchGet(s: string): (r: Option<(string, string, nat)>)
    ensures r.Some? ==> r.value.2 <= |s| && SkipWhiteSpace(s, 0) < |s|
    ensures r.Some? ==> s[SkipWhiteSpace(s, 0)] in {'<', 'G', 'R'}
  {
    var i := SkipWhiteSpace(s, 0);
    if StartsWith(s[i..], "<p>") || StartsWith(s[i..], "<P>") then
      var j := SkipWhiteSpace(s, i + 3);
      assert s[i] == s[i..][0];
      match Verb(s, j)
      case Some(v) => Some((s[i..i + 3], v, j + |v|))
      case None => None
    else
      match Verb(s, i)
      case Some(v) => Some(("", v, i + |v|))
      case None => None
  }

  /** `MatchGet.Replace(description, "$1$2 or sets")`: the pattern is
      anchored, so at most the one match at the start is replaced, and the
      white space it matched outside the groups is dropped. */
  function RewriteGet(s: string): (r: string)
    ensures MatchGet(s).None? ==> r == s
    ensures MatchGet(s).Some? ==> EndsWith(r, s[MatchGet(s).value.2..])
    ensures MatchGet(s).Some? ==> StartsWith(r, MatchGet(s).value.0 + MatchGet(s).value.1 + " or sets")
  {
    match MatchGet(s)
    case None => s
    case Some((g1, g2, end)) => g1 + g2 + " or sets" + s[end..]
  }

  /** `Description`, given what `CsBase.Description` holds: rewritten to
      "gets or sets" only when the property has both accessors and a
      non-empty description. */
  function Description(p: CsProperty, base: Option<string>): (r: Option<string>)
    ensures !(p.getter.Some? && p.setter.Some?) ==> r == base
    ensures IsNullOrEmpty(base) ==> r == base
    ensures p.getter.Some? && p.setter.Some? && !IsNullOrEmpty(base) ==> r == Some(RewriteGet(base.value))
  {
    if p.getter.Some? && p.setter.Some? && !IsNullOrEmpty(base) then Some(RewriteGet(base.value))
    else base
  }

  /** A description whose first visible character cannot start `<p>` or a
      verb is left alone. */
  lemma RewriteGetWithoutVerb(s: string)
    requires SkipWhiteSpace(s, 0) < |s|
    requires s[SkipWhiteSpace(s, 0)] !in {'<', 'G', 'R'}
    ensures RewriteGet(s) == s
  {
  }

  /** A description that starts with "Gets" reads "Gets or sets". */
  lemma RewriteLeadingGets(rest: string)
    ensures RewriteGet("Gets" + rest) == "Gets or sets" + rest
  {
    var s := "Gets" + rest;
    assert !IsWhiteSpace(s[0]);
    assert SkipWhiteSpace(s, 0) == 0;
    assert s[0..] == s;
    assert s[..4] == "Gets";
    assert Verb(s, 0) == Some("Gets");
    assert MatchGet(s) == Some(("", "Gets", 4));
    assert s[4..] == rest;
  }

  /** "Gets x" reads "Gets or sets x"; "Sets x" stays. */
  lemma RewriteGetExamples()
    ensures RewriteGet("Gets x") == "Gets or sets x"
    ensures RewriteGet("Sets x") == "Sets x"
  {
    RewriteLeadingGets(" x");
    assert "Gets" + " x" == "Gets x";
    assert SkipWhiteSpace("Sets x", 0) == 0;
    RewriteGetWithoutVerb("Sets x");
  }

  /** `FormatDocUnmanagedName`: "getter / setter" when both are known, the
      one that is known otherwise, and "Unknown" when neither is. */
  function FormatDocUnmanagedName(getter: Option<string>, setter: Option<string>): (r: string)
    ensures |r| > 0
    ensures !IsNullOrEmpty(getter) && !IsNullOrEmpty(setter) ==> r == getter.value + " / " + setter.value
    ensures !IsNullOrEmpty(getter) && IsNullOrEmpty(setter) ==> r == getter.value
    ensures IsNullOrEmpty(getter) && !IsNullOrEmpty(setter) ==> r == setter.value
    ensures IsNullOrEmpty(getter) && IsNullOrEmpty(setter) ==> r == "Unknown"
  {
    if !IsNullOrEmpty(getter) && !IsNullOrEmpty(setter) then getter.value + " / " + setter.value
    else if !IsNullOrEmpty(getter) then getter.value
    else if !IsNullOrEmpty(setter) then setter.value
    else "Unknown"
  }

  /** The documentation name of an accessor, or null without one. */
  function AccessorDocName(m: Option<CsMethod>, short: bool): Option<string> {
    if m.None? then None else if short then m.value.base.docShortName else m.value.base.docName
  }

  /** `DocUnmanagedName` and `DocUnmanagedShortName`. */
  function DocUnmanagedName(p: CsProperty, short: bool): (r: string)
    ensures p.getter.None? && p.setter.None? ==> r == "Unknown"
    ensures p.setter.None? && p.getter.Some? && !IsNullOrEmpty(AccessorDocName(p.getter, short)) ==>
              r == AccessorDocName(p.getter, short).value
  {
    FormatDocUnmanagedName(AccessorDocName(p.getter, short), AccessorDocName(p.setter, short))
  }

  /** The pair format splits back into the two names when the getter's name
      holds no " / ". */
  lemma FormatDocPairSplits(g: string, s: string, k: nat)
    requires g != "" && s != ""
    requires k == |g|
    ensures FormatDocUnmanagedName(Some(g), Some(s))[..k] == g
    ensures FormatDocUnmanagedName(Some(g), Some(s))[k..k + 3] == " / "
    ensures FormatDocUnmanagedName(Some(g), Some(s))[k + 3..] == s
  {
    var r := g + " / " + s;
    assert r[..k] == g;
    assert r[k..k + 3] == " / ";
    assert r[k + 3..] == s;
  }

  // ---------------------------------------------------------------------------
  // CsEnum
  // ---------------------------------------------------------------------------

  /** What the enum reads of its `CsFundamentalType`. */
  datatype CsFundamentalType = CsFundamentalType(name: string, size: nat, alignment: Option<nat>, isBlittable: bool)

  /** A C++ enum together with the `EnumHasFlags` attribute of its rule. */
  datatype RuledEnum = RuledEnum(cppEnum: CppEnum, enumHasFlags: Option<bool>)

  datatype CsEnum = CsEnum(name: string, cpp: Option<CppEnum>, underlyingType: CsFundamentalType, isFlag: bool)

  /** The name heuristic: a C++ name ending in `FLAG` or `FLAGS`. */
  predicate NamedAsFlags(cppName: string) {
    EndsWith(cppName, "FLAG") || EndsWith(cppName, "FLAGS")
  }

  /** The constructor `CsEnum(cppEnum, name, underlyingType)`. */
  function NewEnum(cpp: Option<RuledEnum>, name: string, underlying: Option<CsFundamentalType>): (r: Result<CsEnum>)
    ensures r.Failure? <==> underlying.None?
    ensures r.Success? ==> r.value.name == name && r.value.underlyingType == underlying.value
    ensures r.Success? ==> Size(r.value) == underlying.value.size
    ensures r.Success? ==> Alignment(r.value) == underlying.value.alignment
    ensures r.Success? ==> IsBlittable(r.value) == underlying.value.isBlittable
    ensures r.Success? && cpp.None? ==> !r.value.isFlag
    ensures r.Success? && cpp.Some? && cpp.value.enumHasFlags.Some? ==> r.value.isFlag == cpp.value.enumHasFlags.value
    ensures r.Success? && cpp.Some? && cpp.value.enumHasFlags.None? ==>
              (r.value.isFlag <==> NamedAsFlags(cpp.value.cppEnum.name))
  {
    match underlying
    case None => Failure(NullArgument("underlyingType"))
    case Some(u) =>
      match cpp
      case None => Success(CsEnum(name, None, u, false))
      case Some(RuledEnum(e, hasFlags)) =>
        var byName := NamedAsFlags(e.name);
        Success(CsEnum(name, Some(e), u, hasFlags.GetOr(byName)))
  }

  /** `Size`, `Alignment` and `IsBlittable` delegate to the underlying type. */
  function Size(e: CsEnum): nat {
    e.underlyingType.size
  }

  function Alignment(e: CsEnum): Option<nat> {
    e.underlyingType.alignment
  }

  predicate IsBlittable(e: CsEnum) {
    e.underlyingType.isBlittable
  }

  /** A rule sets the flag in either direction, whatever the name says; the
      underlying type plays no part. */
  lemma FlagRuleWins(e: CppEnum, name: string, u: CsFundamentalType, v: CsFundamentalType, b: bool)
    ensures NewEnum(Some(RuledEnum(e, Some(b))), name, Some(u)).value.isFlag == b
    ensures NewEnum(Some(RuledEnum(e, None)), name, Some(u)).value.isFlag ==
            NewEnum(Some(RuledEnum(e, None)), name, Some(v)).value.isFlag
  {
  }

  /** `DXGI_FLAGS` and `D_FLAG` are flags by name; `D_FLAGGED` is not. */
  lemma FlagNameExamples()
    ensures NamedAsFlags("DXGI_FLAGS") && NamedAsFlags("D_FLAG") && !NamedAsFlags("D_FLAGGED")
  {
    assert "DXGI_FLAGS"[5..] == "FLAGS";
    assert "D_FLAG"[2..] == "FLAG";
    assert "D_FLAGGED"[5..] != "FLAG";
    assert "D_FLAGGED"[4..] != "FLAGS";
  }
}

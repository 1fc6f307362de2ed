/** `PropertyBuilder` (SharpGen/Transform/PropertyBuilder.cs): methods named
    `Get…`, `Set…` and `Is…` are grouped by the property name they imply,
    each group is checked for one valid getter and one valid setter of the
    same type, and a property is attached to the methods' container unless
    the mapping rules say otherwise. */
module Properties {
  import opened Wrappers
  import opened Text
  import opened CppModel
  import opened CsModel

  // ---------------------------------------------------------------------------
  // Classification by name
  // ---------------------------------------------------------------------------

  /** `PropertyMethod`. */
  datatype Accessor = Getter | Setter

  /** What `GetPropertySpec` returns: the property name and, for a method
      that is an accessor, which one. */
  datatype PropertySpec = PropertySpec(name: string, kind: Option<Accessor>)

  /** `GetPropertySpec`. Every name that does not start with `Is` goes
      through `Substring(3)`, accessor or not, so a shorter one throws. */
  function GetPropertySpec(m: CsMethod): (r: Result<PropertySpec>)
    ensures r.Failure? <==> !StartsWith(m.base.name, "Is") && |m.base.name| < 3
    ensures r.Success? && StartsWith(m.base.name, "Is") ==> r.value == PropertySpec(m.base.name, Some(Getter))
    ensures r.Success? && !StartsWith(m.base.name, "Is") ==> m.base.name[..3] + r.value.name == m.base.name
    ensures r.Success? ==>
              (r.value.kind == Some(Getter) <==> StartsWith(m.base.name, "Is") || StartsWith(m.base.name, "Get"))
    ensures r.Success? ==>
              (r.value.kind == Some(Setter) <==>
                 !StartsWith(m.base.name, "Is") && !StartsWith(m.base.name, "Get") && StartsWith(m.base.name, "Set"))
  {
    var name := m.base.name;
    var isIs := StartsWith(name, "Is");
    var isGet := StartsWith(name, "Get") || isIs;
    var isSet := StartsWith(name, "Set");
    if !isIs && |name| < 3 then Failure(OutOfRange("startIndex"))
    else
      var propertyName := if isIs then name else name[3..];
      Success(PropertySpec(propertyName, if isGet then Some(Getter) else if isSet then Some(Setter) else None))
  }

  /** `GetX` and `SetX` are the getter and the setter of property `X`;
      `IsX` is the getter of property `IsX`, whose setter is `SetIsX`. */
  lemma AccessorNames(x: string, m: CsMethod)
    requires m.base.name in ["Get" + x, "Set" + x, "Is" + x, "SetIs" + x]
    ensures m.base.name == "Get" + x ==> GetPropertySpec(m) == Success(PropertySpec(x, Some(Getter)))
    ensures m.base.name == "Set" + x ==> GetPropertySpec(m) == Success(PropertySpec(x, Some(Setter)))
    ensures m.base.name == "Is" + x ==> GetPropertySpec(m) == Success(PropertySpec("Is" + x, Some(Getter)))
    ensures m.base.name == "SetIs" + x ==> GetPropertySpec(m) == Success(PropertySpec("Is" + x, Some(Setter)))
  {
    var n := m.base.name;
    if n == "Get" + x {
      assert n[..3] == "Get" && n[3..] == x;
      assert n[..2] == "Ge";
    } else if n == "Set" + x {
      assert n[..3] == "Set" && n[3..] == x;
      assert n[..2] == "Se";
    } else if n == "Is" + x {
      assert n[..2] == "Is";
    } else {
      assert n[..3] == "Set" && n[3..] == "Is" + x;
      assert n[..2] == "Se";
    }
  }

  /** A method the builder considers, with its property name and accessor kind. */
  datatype Classified = Classified(m: CsMethod, name: string, kind: Accessor)

  /** The `Where(… PropertyMethod != null)` step, in order. The spec of every
      method is computed, so one that throws makes the whole call throw. */
  function Classify(methods: seq<CsMethod>): (r: Result<seq<Classified>>)
    ensures r.Failure? <==> exists i :: 0 <= i < |methods| && GetPropertySpec(methods[i]).Failure?
    ensures r.Success? ==>
              forall c :: c in r.value ==> c.m in methods && GetPropertySpec(c.m) == Success(PropertySpec(c.name, Some(c.kind)))
    ensures r.Success? ==>
              forall i :: 0 <= i < |methods| && GetPropertySpec(methods[i]).value.kind.Some? ==>
                Classified(methods[i], GetPropertySpec(methods[i]).value.name, GetPropertySpec(methods[i]).value.kind.value) in r.value
  {
    if |methods| == 0 then Success([])
    else
      var spec :- GetPropertySpec(methods[0]);
      var rest :- Classify(methods[1..]);
      assert forall i :: 1 <= i < |methods| ==> methods[i] == methods[1..][i - 1];
      if spec.kind.Some? then Success([Classified(methods[0], spec.name, spec.kind.value)] + rest)
      else Success(rest)
  }

  /** The members of one `GroupBy` group, in order. */
  function GroupOf(cs: seq<Classified>, key: string): (r: seq<Classified>)
    ensures forall c :: c in r <==> c in cs && c.name == key
  {
    if |cs| == 0 then []
    else (if cs[0].name == key then [cs[0]] else []) + GroupOf(cs[1..], key)
  }

  /** The accessors of one kind in a group, in order. */
  function OfKind(g: seq<Classified>, k: Accessor): (r: seq<Classified>)
    ensures forall c :: c in r <==> c in g && c.kind == k
    ensures |r| <= |g|
  {
    if |g| == 0 then []
    else (if g[0].kind == k then [g[0]] else []) + OfKind(g[1..], k)
  }

  /** Two positions of the same kind leave at least two accessors of it. */
  lemma {:induction false} TwoOfKind(g: seq<Classified>, k: Accessor, i: nat, j: nat)
    requires i < j < |g| && g[i].kind == k && g[j].kind == k
    ensures |OfKind(g, k)| >= 2
  {
    if i == 0 {
      assert g[1..][j - 1] == g[j];
      assert g[j] in OfKind(g[1..], k);
    } else {
      TwoOfKind(g[1..], k, i - 1, j - 1);
    }
  }

  // ---------------------------------------------------------------------------
  // Validation and the property of one group
  // ---------------------------------------------------------------------------

  /** `ValidateGetter`: no getter, or one without parameters that returns a
      value, or one whose single parameter is an `out`, non-array parameter
      and which returns nothing or a result code. */
  predicate ValidateGetter(getter: Option<CsMethod>) {
    match getter
    case None => true
    case Some(g) =>
      var ps := g.base.parameters;
      var rv := g.base.returnValue;
      if |ps| == 1 && ps[0].isOut && !ps[0].isArray then !rv.hasReturnType || rv.isResult
      else if |ps| == 0 then rv.hasValue
      else false
  }

  /** `ValidateSetter`: no setter, or one that returns nothing or a result
      code and takes one parameter that is neither `out` nor an array. */
  predicate ValidateSetter(setter: Option<CsMethod>) {
    match setter
    case None => true
    case Some(s) =>
      if !s.base.returnValue.isResult && s.base.returnValue.hasReturnType then false
      else if |s.base.parameters| != 1 then false
      else !s.base.parameters[0].isOut && !s.base.parameters[0].isArray
  }

  /** The two validations in the shape of the rules they enforce. */
  lemma ValidationRules(m: CsMethod)
    ensures ValidateGetter(Some(m)) <==>
              || (|m.base.parameters| == 0 && m.base.returnValue.hasValue)
              || (&& |m.base.parameters| == 1 && m.base.parameters[0].isOut && !m.base.parameters[0].isArray
                  && (!m.base.returnValue.hasReturnType || m.base.returnValue.isResult))
    ensures ValidateSetter(Some(m)) <==>
              && |m.base.parameters| == 1 && !m.base.parameters[0].isOut && !m.base.parameters[0].isArray
              && (!m.base.returnValue.hasReturnType || m.base.returnValue.isResult)
  {
  }

  /** The type a getter provides: its one parameter's, or its return type's. */
  function GetterType(getter: Option<CsMethod>): Option<string> {
    match getter
    case None => None
    case Some(g) =>
      if |g.base.parameters| == 1 then Some(g.base.parameters[0].publicType)
      else Some(g.base.returnValue.publicType)
  }

  /** The type a valid setter takes. */
  function SetterType(setter: Option<CsMethod>): Option<string>
    requires ValidateSetter(setter)
  {
    match setter
    case None => None
    case Some(s) => Some(s.base.parameters[0].publicType)
  }

  /** The accessor of a group of at most one, if any. */
  function Only(cs: seq<Classified>): Option<CsMethod> {
    if |cs| == 0 then None else Some(cs[0].m)
  }

  /** When a group makes a property: some accessor, at most one getter and
      at most one setter, both valid, and of one type when both exist. */
  predicate MakesProperty(group: seq<Classified>) {
    var getters := OfKind(group, Getter);
    var setters := OfKind(group, Setter);
    && |getters| + |setters| > 0
    && |getters| <= 1 && |setters| <= 1
    && ValidateGetter(Only(getters)) && ValidateSetter(Only(setters))
    && (|getters| == 1 && |setters| == 1 ==> GetterType(Only(getters)) == SetterType(Only(setters)))
  }

  /** `CreatePropertyFromMethodGroup`: no property unless the group holds at
      most one getter and at most one setter, both valid and of one type. */
  function PropertyOfGroup(key: string, group: seq<Classified>): (r: Option<CsProperty>)
    ensures r.Some? <==> MakesProperty(group)
    ensures r.Some? ==> r.value.getter == Only(OfKind(group, Getter)) && r.value.setter == Only(OfKind(group, Setter))
    ensures r.Some? ==> |OfKind(group, Getter)| <= 1 && |OfKind(group, Setter)| <= 1
    ensures r.Some? ==> r.value.name == key && (r.value.getter.Some? || r.value.setter.Some?)
    ensures r.Some? && r.value.getter.Some? ==>
              exists c ::  c in group && c.m == r.value.getter.value && c.kind == Getter
    ensures r.Some? && r.value.setter.Some? ==> exists c :: c in group && c.m == r.value.setter.value && c.kind == Setter
    ensures r.Some? ==> ValidateGetter(r.value.getter) && ValidateSetter(r.value.setter)
    ensures r.Some? && r.value.getter.Some? && r.value.setter.Some? ==>
              GetterType(r.value.getter) == SetterType(r.value.setter)
    ensures r.Some? ==>
              r.value.publicType == if r.value.getter.Some? then GetterType(r.value.getter) else SetterType(r.value.setter)
    ensures r.Some? ==>
              (r.value.isPropertyParam <==>
                 r.value.getter.Some? && |r.value.getter.value.base.parameters| == 1 &&
                 !r.value.getter.value.base.parameters[0].usedAsReturn)
  {
    var getters := OfKind(group, Getter);
    var setters := OfKind(group, Setter);
    if |getters| == 0 && |setters| == 0 then None
    else if |getters| > 1 || |setters| > 1 then None
    else
      var getter := if |getters| == 0 then None else Some(getters[0].m);
      var setter := if |setters| == 0 then None else Some(setters[0].m);
      assert |getters| == 1 ==> getters[0] in group;
      assert |setters| == 1 ==> setters[0] in group;
      if !ValidateGetter(getter) || !ValidateSetter(setter) then None
      else
        var getterType := GetterType(getter);
        var setterType := SetterType(setter);
        if getterType.Some? && setterType.Some? && getterType != setterType then None
        else
          var cpp := if getter.Some? && getter.value.cpp.Some? then getter.value.cpp
                     else if setter.Some? then setter.value.cpp else None;
          var isParamGetter := getter.Some? && |getter.value.base.parameters| == 1
                               && !getter.value.base.parameters[0].usedAsReturn;
          var p := NewProperty(cpp, key, getter, setter, isParamGetter);
          Some(p.(publicType := if getterType.Some? then getterType else setterType))
  }

  /** Two getters, or two setters, of one name make no property. */
  lemma DuplicateAccessorsMakeNone(key: string, group: seq<Classified>, i: nat, j: nat)
    requires i < j < |group| && group[i].kind == group[j].kind
    ensures PropertyOfGroup(key, group).None?
  {
    TwoOfKind(group, group[i].kind, i, j);
  }

  // ---------------------------------------------------------------------------
  // CreateProperties
  // ---------------------------------------------------------------------------

  /** The keys `GroupBy` produces. */
  function Names(cs: seq<Classified>): set<string> {
    set c | c in cs :: c.name
  }

  /** `CreateProperties`: a property for every name whose group makes one. */
  function CreateProperties(methods: seq<CsMethod>): (r: Result<map<string, CsProperty>>)
    ensures r.Failure? <==> exists i :: 0 <= i < |methods| && GetPropertySpec(methods[i]).Failure?
    ensures r.Success? ==> forall k :: k in r.value ==> r.value[k].name == k
    ensures r.Success? ==> forall k :: k in r.value ==>
              ValidateGetter(r.value[k].getter) && ValidateSetter(r.value[k].setter)
    ensures r.Success? ==> forall k :: k in r.value && r.value[k].getter.Some? ==>
              r.value[k].getter.value in methods &&
              GetPropertySpec(r.value[k].getter.value) == Success(PropertySpec(k, Some(Getter)))
    ensures r.Success? ==> forall k :: k in r.value && r.value[k].setter.Some? ==>
              r.value[k].setter.value in methods &&
              GetPropertySpec(r.value[k].setter.value) == Success(PropertySpec(k, Some(Setter)))
  {
    var cs :- Classify(methods);
    Success(map k | k in Names(cs) && PropertyOfGroup(k, GroupOf(cs, k)).Some? :: PropertyOfGroup(k, GroupOf(cs, k)).value)
  }

  /** Every name whose group makes a property has one, and no other name
      does; each property holds exactly its group's accessors. */
  lemma CreatePropertiesKeys(methods: seq<CsMethod>, k: string)
    requires CreateProperties(methods).Success?
    ensures Classify(methods).Success?
    ensures k in CreateProperties(methods).value <==> MakesProperty(GroupOf(Classify(methods).value, k))
    ensures k in CreateProperties(methods).value ==>
              var g := GroupOf(Classify(methods).value, k);
              CreateProperties(methods).value[k].getter == Only(OfKind(g, Getter))
              && CreateProperties(methods).value[k].setter == Only(OfKind(g, Setter))
  {
    var cs := Classify(methods).value;
    var g := GroupOf(cs, k);
    GroupNamed(cs, k);
    if |g| == 0 {
      assert OfKind(g, Getter) == [] && OfKind(g, Setter) == [];
    }
  }

  /** Only a name some classified method has gets a non-empty group. */
  lemma GroupNamed(cs: seq<Classified>, k: string)
    ensures |GroupOf(cs, k)| > 0 ==> k in Names(cs)
  {
    var g := GroupOf(cs, k);
    if |g| > 0 {
      assert g[0] in g;
    }
  }

  /** How many of `ms` are the `kind` accessor of property `key`. */
  function SpecCount(ms: seq<CsMethod>, key: string, kind: Accessor): nat {
    if |ms| == 0 then 0
    else (if GetPropertySpec(ms[0]) == Success(PropertySpec(key, Some(kind))) then 1 else 0) + SpecCount(ms[1..], key, kind)
  }

  /** The group of `key` holds as many accessors of a kind as the methods do. */
  lemma {:induction false} GroupCount(ms: seq<CsMethod>, key: string, kind: Accessor)
    requires Classify(ms).Success?
    ensures |OfKind(GroupOf(Classify(ms).value, key), kind)| == SpecCount(ms, key, kind)
  {
    if |ms| > 0 {
      assert Classify(ms[1..]).Success?;
      GroupCount(ms[1..], key, kind);
      var spec := GetPropertySpec(ms[0]).value;
      var rest := Classify(ms[1..]).value;
      if spec.kind.Some? {
        var c := Classified(ms[0], spec.name, spec.kind.value);
        assert Classify(ms).value == [c] + rest;
        assert ([c] + rest)[1..] == rest;
        if c.name == key {
          assert GroupOf([c] + rest, key) == [c] + GroupOf(rest, key);
          assert ([c] + GroupOf(rest, key))[1..] == GroupOf(rest, key);
        } else {
          assert GroupOf([c] + rest, key) == GroupOf(rest, key);
        }
      } else {
        assert Classify(ms).value == rest;
      }
    }
  }

  /** A property exists only for a name with at most one getter and at most
      one setter among the methods. */
  lemma PropertyHasOneAccessorEach(methods: seq<CsMethod>, k: string)
    requires CreateProperties(methods).Success? && k in CreateProperties(methods).value
    ensures SpecCount(methods, k, Getter) <= 1 && SpecCount(methods, k, Setter) <= 1
  {
    GroupCount(methods, k, Getter);
    GroupCount(methods, k, Setter);
  }

  /** `Classify` on an accessor followed by more methods. */
  lemma ClassifyAccessor(m: CsMethod, rest: seq<CsMethod>)
    requires GetPropertySpec(m).Success? && GetPropertySpec(m).value.kind.Some? && Classify(rest).Success?
    ensures Classify([m] + rest) ==
            Success([Classified(m, GetPropertySpec(m).value.name, GetPropertySpec(m).value.kind.value)] + Classify(rest).value)
  {
    assert ([m] + rest)[0] == m && ([m] + rest)[1..] == rest;
  }

  /** A list of one name is its own group. */
  lemma {:induction false} GroupOfOneName(cs: seq<Classified>, key: string)
    requires forall i :: 0 <= i < |cs| ==> cs[i].name == key
    ensures GroupOf(cs, key) == cs
  {
    if |cs| > 0 {
      GroupOfOneName(cs[1..], key);
      assert [cs[0]] + cs[1..] == cs;
    }
  }

  /** The group of a valid getter and a valid setter of one type. */
  lemma PairGroup(x: string, g: CsMethod, s: CsMethod)
    requires |g.base.parameters| == 0 && g.base.returnValue.hasValue
    requires |s.base.parameters| == 1 && !s.base.parameters[0].isOut && !s.base.parameters[0].isArray
    requires !s.base.returnValue.hasReturnType
    requires s.base.parameters[0].publicType == g.base.returnValue.publicType
    ensures PropertyOfGroup(x, [Classified(g, x, Getter), Classified(s, x, Setter)]).Some?
    ensures PropertyOfGroup(x, [Classified(g, x, Getter), Classified(s, x, Setter)]).value.getter == Some(g)
    ensures PropertyOfGroup(x, [Classified(g, x, Getter), Classified(s, x, Setter)]).value.setter == Some(s)
    ensures PropertyOfGroup(x, [Classified(g, x, Getter), Classified(s, x, Setter)]).value.publicType ==
            Some(g.base.returnValue.publicType)
  {
    var cg := Classified(g, x, Getter);
    var cs := Classified(s, x, Setter);
    assert [cg, cs][1..] == [cs] && [cs][1..] == [];
    assert OfKind([cs], Getter) == [];
    assert OfKind([cg, cs], Getter) == [cg];
    assert OfKind([cs], Setter) == [cs];
    assert OfKind([cg, cs], Setter) == [cs];
  }

  /** `GetX` returning a value and `SetX` taking that type make property `X`. */
  lemma GetSetPairMakesProperty(x: string, g: CsMethod, s: CsMethod)
    requires g.base.name == "Get" + x && s.base.name == "Set" + x
    requires |g.base.parameters| == 0 && g.base.returnValue.hasValue
    requires |s.base.parameters| == 1 && !s.base.parameters[0].isOut && !s.base.parameters[0].isArray
    requires !s.base.returnValue.hasReturnType
    requires s.base.parameters[0].publicType == g.base.returnValue.publicType
    ensures CreateProperties([g, s]).Success? && x in CreateProperties([g, s]).value
    ensures CreateProperties([g, s]).value[x].getter == Some(g)
    ensures CreateProperties([g, s]).value[x].setter == Some(s)
    ensures CreateProperties([g, s]).value[x].publicType == Some(g.base.returnValue.publicType)
  {
    AccessorNames(x, g);
    AccessorNames(x, s);
    var cg := Classified(g, x, Getter);
    var cs := Classified(s, x, Setter);
    ClassifyAccessor(s, []);
    assert [s] == [s] + [];
    ClassifyAccessor(g, [s]);
    assert [g, s] == [g] + [s];
    assert Classify([g, s]).value == [cg, cs];
    GroupOfOneName([cg, cs], x);
    PairGroup(x, g, s);
    assert x in Names([cg, cs]);
  }

  // ---------------------------------------------------------------------------
  // AttachPropertyToParent
  // ---------------------------------------------------------------------------

  /** Where a property goes: its container and the property as attached. */
  datatype Attachment = Attachment(parent: string, property: CsProperty)

  /** `ReducePropertyMethodVisibility`: an accessor becomes internal unless
      its interface or that interface's base forces it public. An accessor
      outside any interface fails on `parentInterface.IBase`. */
  function ReduceVisibility(m: Option<CsMethod>): (r: Result<Option<CsMethod>>)
    ensures m.None? ==> r == Success(None)
    ensures r.Failure? <==> m.Some? && m.value.base.parentInterface.None?
    ensures r.Success? && m.Some? ==>
              r.value.Some? && r.value.value.(base := m.value.base) == m.value &&
              r.value.value.base.(visibility := m.value.base.visibility) == m.value.base
    ensures r.Success? && m.Some? ==>
              r.value.value.base.visibility ==
                (if AnyForced(m.value, [m.value.base.parentInterface, m.value.base.parentInterface.value.iBase])
                 then m.value.base.visibility else Internal)
  {
    match m
    case None => Success(None)
    case Some(x) =>
      match x.base.parentInterface
      case None => Failure(NullReference("parentInterface"))
      case Some(i) =>
        if AnyForced(x, [Some(i), i.iBase]) then Success(m)
        else Success(Some(x.(base := x.base.(visibility := Internal))))
  }

  /** `Getter?.Parent ?? Setter?.Parent`. */
  function ParentOf(p: CsProperty): Option<string> {
    if p.getter.Some? && p.getter.value.base.parent.Some? then p.getter.value.base.parent
    else if p.setter.Some? then p.setter.value.base.parent
    else None
  }

  /** The rules a property must pass to be attached: no accessor's rule
      disallows properties, and a set-only one must be asked for. */
  predicate Allowed(p: CsProperty) {
    && !(p.getter.Some? && p.getter.value.flags.allowProperty == Some(false))
    && !(p.setter.Some? && p.setter.value.flags.allowProperty == Some(false))
    && !(p.getter.None? && p.setter.Some? && p.setter.value.flags.allowProperty != Some(true))
  }

  /** `AttachPropertyToParent`: `Success(None)` where the property is not
      attached. A property named `is…` (any case) renames its getter with a
      trailing `_`, so the two do not clash. */
  function AttachPropertyToParent(p: CsProperty): (r: Result<Option<Attachment>>)
    ensures ParentOf(p).None? || !Allowed(p) ==> r == Success(None)
    ensures r.Failure? <==>
              ParentOf(p).Some? && Allowed(p) &&
              ((p.getter.Some? && p.getter.value.base.parentInterface.None?) ||
               (p.setter.Some? && p.setter.value.base.parentInterface.None?))
    ensures r.Success? && r.value.Some? ==>
              Some(r.value.value.parent) == ParentOf(p) && Allowed(p) &&
              r.value.value.property.(getter := p.getter, setter := p.setter) == p
    ensures r.Success? && r.value.Some? ==>
              (r.value.value.property.getter.Some? <==> p.getter.Some?) &&
              (r.value.value.property.setter.Some? <==> p.setter.Some?)
    ensures r.Success? && r.value.Some? && p.getter.Some? ==>
              (r.value.value.property.getter.value.base.name == p.getter.value.base.name + "_" <==>
                 StartsWith(Fold(p.name), "is"))
    ensures r.Success? && r.value.Some? && p.setter.Some? ==>
              r.value.value.property.setter.value.base.name == p.setter.value.base.name
  {
    var parent := ParentOf(p);
    if parent.None? then Success(None)
    else if (p.getter.Some? && p.getter.value.flags.allowProperty == Some(false))
         || (p.setter.Some? && p.setter.value.flags.allowProperty == Some(false)) then Success(None)
    else if p.getter.None? && p.setter.Some? && p.setter.value.flags.allowProperty != Some(true) then Success(None)
    else
      var getter :- ReduceVisibility(p.getter);
      var setter :- ReduceVisibility(p.setter);
      var renamed := if getter.Some? && StartsWith(Fold(p.name), "is") then Some(SuffixName(getter.value, "_")) else getter;
      Success(Some(Attachment(parent.value, p.(getter := renamed, setter := setter))))
  }

  /** A getter-only property is attached unless its rule says no; a
      set-only one only when its rule says yes. */
  lemma AttachOneAccessor(p: CsProperty)
    requires ParentOf(p).Some?
    requires p.getter.Some? != p.setter.Some?
    requires p.getter.Some? ==> p.getter.value.base.parentInterface.Some?
    requires p.setter.Some? ==> p.setter.value.base.parentInterface.Some?
    ensures p.getter.Some? ==>
              (AttachPropertyToParent(p).value.Some? <==> p.getter.value.flags.allowProperty != Some(false))
    ensures p.setter.Some? ==>
              (AttachPropertyToParent(p).value.Some? <==> p.setter.value.flags.allowProperty == Some(true))
  {
  }
}

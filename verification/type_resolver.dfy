/** The type-chain walk of `CppParser.ResolveAndFillType` and
    `CppParser.ResolveType` (SharpGen.Platform/CppParser.cs): from a type id,
    follow typedefs, pointers, references, arrays and cv-qualifiers down to a
    named type, recording the wrappers crossed on the way. */
module TypeResolver {
  import opened Wrappers
  import opened Text
  import opened CastXml
  import opened CppModel
  import opened FundamentalTypes

  /** `_boundTypes.Contains(name)`: the source names of the binding rules
      (case-sensitive; a null name is never bound). */
  predicate IsBound(bound: set<string>, name: Option<string>) {
    name.Some? && name.value in bound
  }

  /** `_mapIdToXElement[nextType]` for the `type` attribute of a wrapper. */
  function Next(ix: Index, e: Element): (r: Result<Element>)
    ensures r.Success? <==> Attr(e, "type").Some? && Attr(e, "type").value in ix.byId
  {
    Lookup(ix, Attr(e, "type"))
  }

  /** `ConvertFundamentalType(name)`: a missing name throws. */
  function FundamentalName(e: Element): (r: Result<string>)
    ensures r.Success? <==> Attr(e, "name").Some?
    ensures r.Success? ==> r.value == ConvertAsWritten(Attr(e, "name").value)
  {
    match Attr(e, "name")
    case None => Failure(NullReference("name"))
    case Some(n) => Success(ConvertAsWritten(n))
  }

  predicate IsAggregateTag(t: Tag) {
    t == Class || t == Enumeration || t == Struct || t == Union
  }

  predicate IsWrapperTag(t: Tag) {
    t == PointerType || t == ArrayType || t == ReferenceType || t == CvQualifiedType
  }

  const FunctionTypeName: string := "__function__stdcall"

  /** `int.Parse(max.TrimEnd('u'))`: a `u` suffix is dropped and the rest
      must be a 32-bit number. */
  function MaxValue(max: string): Option<int> {
    ParseInt32(TrimEnd(max, {'u'}))
  }

  /** One more than an array's upper bound, in unchecked 32-bit arithmetic. */
  function Extent(v: int): (r: int)
    ensures Int32Min <= r <= Int32Max
    ensures Int32Min <= v < Int32Max ==> r == v + 1
  {
    Wrap32(v + 1)
  }

  /** An array wrapper's extent: `int.Parse(max.TrimEnd('u')) + 1` in unchecked
      32-bit arithmetic. */
  function ArrayExtent(e: Element): (r: Result<int>)
    ensures r.Success? ==> Int32Min <= r.value <= Int32Max
    ensures r.Success? <==> Attr(e, "max").Some? && MaxValue(Attr(e, "max").value).Some?
    ensures r.Success? ==> r.value == Extent(MaxValue(Attr(e, "max").value).value)
  {
    var max := Attr(e, "max");
    if max.None? then Failure(NullReference("max"))
    else
      var v := MaxValue(max.value);
      if v.None? then Failure(BadNumber(max.value)) else Success(Extent(v.value))
  }

  /** The fuel every walk gets: a longer chain revisits an element, and on it
      the source loops forever. */
  function Fuel(ix: Index): nat {
    |ix.byId| + 1
  }

  /** What a successful fill adds to the descriptor it started from: wrapper
      marks at the end of the pointer string, extents at the end of the
      dimensions, and a const flag that is never cleared. */
  ghost predicate Extends(desc: TypeDesc, r: TypeDesc) {
    && |desc.pointer| <= |r.pointer| && r.pointer[..|desc.pointer|] == desc.pointer
    && (forall i :: |desc.pointer| <= i < |r.pointer| ==> r.pointer[i] == '*' || r.pointer[i] == '&')
    && |desc.arrayDimensions| <= |r.arrayDimensions|
    && r.arrayDimensions[..|desc.arrayDimensions|] == desc.arrayDimensions
    && (forall i :: 0 <= i < |r.arrayDimensions| ==>
          i < |desc.arrayDimensions| || Int32Min <= r.arrayDimensions[i] <= Int32Max)
    && (desc.isConst ==> r.isConst)
  }

  /** The name a chain ends with, at a fundamental, aggregate, bound typedef
      or function type; any other kind of element throws. `withLookup` is
      true in `ResolveAndFillType`, which still looks up a bound typedef's
      successor after taking its name. */
  function TerminalName(ix: Index, bound: set<string>, e: Element, withLookup: bool): (r: Result<Option<string>>)
    requires !IsWrapperTag(e.tag) && !(e.tag == Typedef && !IsBound(bound, Attr(e, "name")))
    ensures e.tag == FunctionType ==> r == Success(Some(FunctionTypeName))
    ensures IsAggregateTag(e.tag) ==> r == Success(Attr(e, "name"))
    ensures e.tag == Typedef && !withLookup ==> r == Success(Attr(e, "name"))
    ensures e.tag == FundamentalType && Attr(e, "name").Some? ==> r == Success(Some(ConvertAsWritten(Attr(e, "name").value)))
  {
    var name := Attr(e, "name");
    match e.tag
    case FundamentalType =>
      var n :- FundamentalName(e);
      Success(Some(n))
    case Class => Success(name)
    case Enumeration => Success(name)
    case Struct => Success(name)
    case Union => Success(name)
    case Typedef =>
      if withLookup then
        var _ :- Next(ix, e);
        Success(name)
      else Success(name)
    case FunctionType => Success(Some(FunctionTypeName))
    case _ => Failure(UnexpectedTag(TagName(e.tag)))
  }

  /** The extra lookup only adds a way to fail. */
  lemma TerminalLookupAgrees(ix: Index, bound: set<string>, e: Element)
    requires !IsWrapperTag(e.tag) && !(e.tag == Typedef && !IsBound(bound, Attr(e, "name")))
    requires TerminalName(ix, bound, e, true).Success?
    ensures TerminalName(ix, bound, e, false) == TerminalName(ix, bound, e, true)
  {
  }

  /** One wrapper: its successor and the mark it leaves. An array's extent is
      read before its successor is looked up. */
  function Unwrap(ix: Index, e: Element): (r: Result<(Element, TypeDesc)>)
    requires IsWrapperTag(e.tag)
    ensures r.Success? ==> Next(ix, e) == Success(r.value.0)
    ensures r.Success? <==> Next(ix, e).Success? && (e.tag == ArrayType ==> ArrayExtent(e).Success?)
    ensures e.tag == PointerType && r.Success? ==> r.value.1 == EmptyTypeDesc.(pointer := "*")
    ensures e.tag == ReferenceType && r.Success? ==> r.value.1 == EmptyTypeDesc.(pointer := "&")
    ensures e.tag == CvQualifiedType && r.Success? ==> r.value.1 == EmptyTypeDesc.(isConst := true)
    ensures e.tag == ArrayType && r.Success? ==> r.value.1 == EmptyTypeDesc.(arrayDimensions := [ArrayExtent(e).value])
  {
    match e.tag
    case PointerType =>
      var nx :- Next(ix, e);
      Success((nx, EmptyTypeDesc.(pointer := "*")))
    case ReferenceType =>
      var nx :- Next(ix, e);
      Success((nx, EmptyTypeDesc.(pointer := "&")))
    case ArrayType =>
      var dim :- ArrayExtent(e);
      var nx :- Next(ix, e);
      Success((nx, EmptyTypeDesc.(arrayDimensions := [dim])))
    case CvQualifiedType =>
      var nx :- Next(ix, e);
      Success((nx, EmptyTypeDesc.(isConst := true)))
  }

  /** `d` with the marks of `w` added, keeping `d`'s name: `Pointer += "*"`,
      `Pointer += "&"`, `ArrayDimension += "," + n`, `Const = true`. */
  function AddMark(d: TypeDesc, w: TypeDesc): TypeDesc {
    TypeDesc(d.typeName, d.pointer + w.pointer, d.arrayDimensions + w.arrayDimensions, d.isConst || w.isConst)
  }

  /** The loop of `ResolveAndFillType`, starting at element `e`. */
  function FillFrom(ix: Index, bound: set<string>, e: Element, desc: TypeDesc, fuel: nat): Result<TypeDesc>
    decreases fuel
  {
    if fuel == 0 then Failure(CyclicTypeChain(Attr(e, "id").GetOr("")))
    else if IsWrapperTag(e.tag) then
      var step :- Unwrap(ix, e);
      FillFrom(ix, bound, step.0, AddMark(desc, step.1), fuel - 1)
    else if e.tag == Typedef && !IsBound(bound, Attr(e, "name")) then
      var nx :- Next(ix, e);
      FillFrom(ix, bound, nx, desc, fuel - 1)
    else
      var n :- TerminalName(ix, bound, e, true);
      Success(desc.(typeName := n))
  }

  /** `ResolveAndFillType(typeId, type)`. */
  function ResolveAndFillType(ix: Index, bound: set<string>, typeId: Option<string>, desc: TypeDesc): Result<TypeDesc> {
    var e :- Lookup(ix, typeId);
    FillFrom(ix, bound, e, desc, Fuel(ix))
  }

  /** The loop of `ResolveType`: the same walk, keeping only the name and
      never reading an array's extent. */
  function ResolveFrom(ix: Index, bound: set<string>, e: Element, fuel: nat): Result<Option<string>>
    decreases fuel
  {
    if fuel == 0 then Failure(CyclicTypeChain(Attr(e, "id").GetOr("")))
    else if IsWrapperTag(e.tag) || (e.tag == Typedef && !IsBound(bound, Attr(e, "name"))) then
      var nx :- Next(ix, e);
      ResolveFrom(ix, bound, nx, fuel - 1)
    else TerminalName(ix, bound, e, false)
  }

  /** `ResolveType(typeId)`. */
  function ResolveType(ix: Index, bound: set<string>, typeId: Option<string>): Result<Option<string>> {
    var e :- Lookup(ix, typeId);
    ResolveFrom(ix, bound, e, Fuel(ix))
  }

  /** Whenever the full walk succeeds, the name-only walk succeeds with the
      name the full walk stores. */
  lemma {:induction false} ResolveAgreesWithFill(ix: Index, bound: set<string>, e: Element, desc: TypeDesc, fuel: nat)
    requires FillFrom(ix, bound, e, desc, fuel).Success?
    ensures ResolveFrom(ix, bound, e, fuel) == Success(FillFrom(ix, bound, e, desc, fuel).value.typeName)
    decreases fuel
  {
    if IsWrapperTag(e.tag) {
      var step := Unwrap(ix, e).value;
      ResolveAgreesWithFill(ix, bound, step.0, AddMark(desc, step.1), fuel - 1);
    } else if e.tag == Typedef && !IsBound(bound, Attr(e, "name")) {
      ResolveAgreesWithFill(ix, bound, Next(ix, e).value, desc, fuel - 1);
    } else {
      TerminalLookupAgrees(ix, bound, e);
    }
  }

  lemma ResolveTypeAgreesWithResolveAndFillType(ix: Index, bound: set<string>, typeId: Option<string>, desc: TypeDesc)
    requires ResolveAndFillType(ix, bound, typeId, desc).Success?
    ensures ResolveType(ix, bound, typeId) == Success(ResolveAndFillType(ix, bound, typeId, desc).value.typeName)
  {
    var e := Lookup(ix, typeId).value;
    ResolveAgreesWithFill(ix, bound, e, desc, Fuel(ix));
  }

  /** A descriptor `d` followed by what a walk from an empty descriptor
      produced: the walk always overwrites the type name. */
  function Combine(d: TypeDesc, s: TypeDesc): TypeDesc {
    TypeDesc(s.typeName, d.pointer + s.pointer, d.arrayDimensions + s.arrayDimensions, d.isConst || s.isConst)
  }

  function LiftCombine(d: TypeDesc, r: Result<TypeDesc>): Result<TypeDesc> {
    match r
    case Success(s) => Success(Combine(d, s))
    case Failure(f) => Failure(f)
  }

  lemma CombineMark(d: TypeDesc, m: TypeDesc, r: Result<TypeDesc>)
    ensures LiftCombine(AddMark(d, m), r) == LiftCombine(d, LiftCombine(AddMark(EmptyTypeDesc, m), r))
  {
    if r.Success? {
      var s := r.value;
      assert d.pointer + (m.pointer + s.pointer) == (d.pointer + m.pointer) + s.pointer;
      assert d.arrayDimensions + (m.arrayDimensions + s.arrayDimensions) == (d.arrayDimensions + m.arrayDimensions) + s.arrayDimensions;
      assert "" + m.pointer == m.pointer;
      assert [] + m.arrayDimensions == m.arrayDimensions;
    }
  }

  /** The walk does not depend on the descriptor it starts from: filling any
      descriptor appends to it what filling an empty one produces, and fails
      in the same way. */
  lemma {:induction false} FillIsCombine(ix: Index, bound: set<string>, e: Element, d: TypeDesc, fuel: nat)
    ensures FillFrom(ix, bound, e, d, fuel) == LiftCombine(d, FillFrom(ix, bound, e, EmptyTypeDesc, fuel))
    decreases fuel
  {
    if fuel > 0 && IsWrapperTag(e.tag) && Unwrap(ix, e).Success? {
      var step := Unwrap(ix, e).value;
      FillIsCombine(ix, bound, step.0, AddMark(d, step.1), fuel - 1);
      FillIsCombine(ix, bound, step.0, AddMark(EmptyTypeDesc, step.1), fuel - 1);
      CombineWrapper(ix, bound, e, d, fuel, step.0, step.1);
    } else if fuel > 0 && !IsWrapperTag(e.tag) && e.tag == Typedef && !IsBound(bound, Attr(e, "name")) && Next(ix, e).Success? {
      FillIsCombine(ix, bound, Next(ix, e).value, d, fuel - 1);
      CombineTypedef(ix, bound, e, d, fuel);
    } else {
      CombineOther(ix, bound, e, d, fuel);
    }
  }

  /** A wrapper step, given the claim for the element it wraps. */
  lemma CombineWrapper(ix: Index, bound: set<string>, e: Element, d: TypeDesc, fuel: nat, nx: Element, m: TypeDesc)
    requires fuel > 0 && IsWrapperTag(e.tag) && Unwrap(ix, e) == Success((nx, m))
    requires FillFrom(ix, bound, nx, AddMark(d, m), fuel - 1)
             == LiftCombine(AddMark(d, m), FillFrom(ix, bound, nx, EmptyTypeDesc, fuel - 1))
    requires FillFrom(ix, bound, nx, AddMark(EmptyTypeDesc, m), fuel - 1)
             == LiftCombine(AddMark(EmptyTypeDesc, m), FillFrom(ix, bound, nx, EmptyTypeDesc, fuel - 1))
    ensures FillFrom(ix, bound, e, d, fuel) == LiftCombine(d, FillFrom(ix, bound, e, EmptyTypeDesc, fuel))
  {
    CombineMark(d, m, FillFrom(ix, bound, nx, EmptyTypeDesc, fuel - 1));
  }

  /** An unbound typedef step, given the claim for the type it names. */
  lemma CombineTypedef(ix: Index, bound: set<string>, e: Element, d: TypeDesc, fuel: nat)
    requires fuel > 0 && !IsWrapperTag(e.tag) && e.tag == Typedef && !IsBound(bound, Attr(e, "name"))
    requires Next(ix, e).Success?
    requires FillFrom(ix, bound, Next(ix, e).value, d, fuel - 1)
             == LiftCombine(d, FillFrom(ix, bound, Next(ix, e).value, EmptyTypeDesc, fuel - 1))
    ensures FillFrom(ix, bound, e, d, fuel) == LiftCombine(d, FillFrom(ix, bound, e, EmptyTypeDesc, fuel))
  {
  }

  /** The last step names the type and keeps the marks; a failed step fails
      the same way from any descriptor. */
  lemma CombineOther(ix: Index, bound: set<string>, e: Element, d: TypeDesc, fuel: nat)
    requires !(fuel > 0 && IsWrapperTag(e.tag) && Unwrap(ix, e).Success?)
    requires !(fuel > 0 && !IsWrapperTag(e.tag) && e.tag == Typedef && !IsBound(bound, Attr(e, "name")) && Next(ix, e).Success?)
    ensures FillFrom(ix, bound, e, d, fuel) == LiftCombine(d, FillFrom(ix, bound, e, EmptyTypeDesc, fuel))
  {
    assert d.pointer + "" == d.pointer && d.arrayDimensions + [] == d.arrayDimensions;
  }

  /** The marks a walk from an empty descriptor writes. */
  ghost predicate WellMarked(s: TypeDesc) {
    && (forall i :: 0 <= i < |s.pointer| ==> s.pointer[i] == '*' || s.pointer[i] == '&')
    && (forall i :: 0 <= i < |s.arrayDimensions| ==> Int32Min <= s.arrayDimensions[i] <= Int32Max)
  }

  /** A walk from an empty descriptor marks only '*' and '&' and records
      32-bit extents. */
  lemma {:induction false} EmptyFillShape(ix: Index, bound: set<string>, e: Element, fuel: nat)
    ensures FillFrom(ix, bound, e, EmptyTypeDesc, fuel).Success? ==> WellMarked(FillFrom(ix, bound, e, EmptyTypeDesc, fuel).value)
    decreases fuel
  {
    var nx := Successor(ix, bound, e, fuel);
    if nx.Some? {
      EmptyFillShape(ix, bound, nx.value, fuel - 1);
    }
    ShapeStep(ix, bound, e, fuel);
  }

  /** The element the walk moves on to from `e`, if it moves on. */
  function Successor(ix: Index, bound: set<string>, e: Element, fuel: nat): (r: Option<Element>)
    ensures r.Some? ==> fuel > 0
  {
    if fuel > 0 && IsWrapperTag(e.tag) && Unwrap(ix, e).Success? then Some(Unwrap(ix, e).value.0)
    else if fuel > 0 && !IsWrapperTag(e.tag) && e.tag == Typedef && !IsBound(bound, Attr(e, "name")) && Next(ix, e).Success? then Some(Next(ix, e).value)
    else None
  }

  /** One step of the walk keeps the marks well formed, given that the rest
      of the walk does. */
  lemma ShapeStep(ix: Index, bound: set<string>, e: Element, fuel: nat)
    requires var nx := Successor(ix, bound, e, fuel);
      nx.Some? ==> var f := FillFrom(ix, bound, nx.value, EmptyTypeDesc, fuel - 1); f.Success? ==> WellMarked(f.value)
    ensures FillFrom(ix, bound, e, EmptyTypeDesc, fuel).Success? ==> WellMarked(FillFrom(ix, bound, e, EmptyTypeDesc, fuel).value)
  {
    if fuel > 0 && IsWrapperTag(e.tag) && Unwrap(ix, e).Success? {
      var step := Unwrap(ix, e).value;
      ShapeWrapper(ix, bound, e, fuel, step.0, step.1);
    }
  }

  /** A wrapper step, given the claim for the element it wraps. */
  lemma ShapeWrapper(ix: Index, bound: set<string>, e: Element, fuel: nat, nx: Element, m: TypeDesc)
    requires fuel > 0 && IsWrapperTag(e.tag) && Unwrap(ix, e) == Success((nx, m))
    requires FillFrom(ix, bound, nx, EmptyTypeDesc, fuel - 1).Success? ==> WellMarked(FillFrom(ix, bound, nx, EmptyTypeDesc, fuel - 1).value)
    ensures FillFrom(ix, bound, e, EmptyTypeDesc, fuel).Success? ==> WellMarked(FillFrom(ix, bound, e, EmptyTypeDesc, fuel).value)
  {
    FillIsCombine(ix, bound, nx, AddMark(EmptyTypeDesc, m), fuel - 1);
    if FillFrom(ix, bound, nx, EmptyTypeDesc, fuel - 1).Success? {
      MarkWellMarked(ix, e, nx, m);
      CombineWellMarked(AddMark(EmptyTypeDesc, m), FillFrom(ix, bound, nx, EmptyTypeDesc, fuel - 1).value);
    }
  }

  /** A wrapper's own mark is well formed. */
  lemma MarkWellMarked(ix: Index, e: Element, nx: Element, m: TypeDesc)
    requires IsWrapperTag(e.tag) && Unwrap(ix, e) == Success((nx, m))
    ensures WellMarked(AddMark(EmptyTypeDesc, m))
  {
    assert "" + m.pointer == m.pointer && [] + m.arrayDimensions == m.arrayDimensions;
  }

  /** Well-formed marks followed by well-formed marks. */
  lemma CombineWellMarked(a: TypeDesc, s: TypeDesc)
    requires WellMarked(a) && WellMarked(s)
    ensures WellMarked(Combine(a, s))
  {
    var c := Combine(a, s);
    forall i | 0 <= i < |c.pointer| ensures c.pointer[i] == '*' || c.pointer[i] == '&' {
      if i >= |a.pointer| { assert c.pointer[i] == s.pointer[i - |a.pointer|]; }
    }
    forall i | 0 <= i < |c.arrayDimensions| ensures Int32Min <= c.arrayDimensions[i] <= Int32Max {
      if i >= |a.arrayDimensions| { assert c.arrayDimensions[i] == s.arrayDimensions[i - |a.arrayDimensions|]; }
    }
  }

  /** What a fill adds to its start descriptor is all it changes besides the
      name: wrapper marks at the end of the pointer string, 32-bit extents at
      the end of the dimensions, and a const flag that is never cleared. */
  lemma FillExtends(ix: Index, bound: set<string>, e: Element, d: TypeDesc, fuel: nat)
    requires FillFrom(ix, bound, e, d, fuel).Success?
    ensures Extends(d, FillFrom(ix, bound, e, d, fuel).value)
  {
    FillIsCombine(ix, bound, e, d, fuel);
    EmptyFillShape(ix, bound, e, fuel);
    var s := FillFrom(ix, bound, e, EmptyTypeDesc, fuel).value;
    var r := Combine(d, s);
    assert r.pointer[..|d.pointer|] == d.pointer;
    assert r.arrayDimensions[..|d.arrayDimensions|] == d.arrayDimensions;
    assert forall i :: |d.pointer| <= i < |r.pointer| ==> r.pointer[i] == s.pointer[i - |d.pointer|];
    assert forall i :: |d.arrayDimensions| <= i < |r.arrayDimensions| ==> r.arrayDimensions[i] == s.arrayDimensions[i - |d.arrayDimensions|];
  }

  /** `int const *`: a pointer to a const-qualified fundamental `int` fills
      the name "int", one '*', and the const flag. */
  lemma PointerToConstInt(ix: Index, bound: set<string>, p: Element, c: Element, f: Element, fuel: nat)
    requires p.tag == PointerType && c.tag == CvQualifiedType && f.tag == FundamentalType
    requires Next(ix, p) == Success(c) && Next(ix, c) == Success(f)
    requires Attr(f, "name") == Some("int")
    requires fuel >= 3
    ensures FillFrom(ix, bound, p, EmptyTypeDesc, fuel) == Success(TypeDesc(Some(ConvertAsWritten("int")), "*", [], true))
    ensures ResolveFrom(ix, bound, p, fuel) == Success(Some(ConvertAsWritten("int")))
  {
    var d1 := TypeDesc(None, "*", [], false);
    var d2 := TypeDesc(None, "*", [], true);
    var name := Some(ConvertAsWritten("int"));
    assert Unwrap(ix, p) == Success((c, EmptyTypeDesc.(pointer := "*")));
    assert AddMark(EmptyTypeDesc, EmptyTypeDesc.(pointer := "*")) == d1;
    assert FillFrom(ix, bound, p, EmptyTypeDesc, fuel) == FillFrom(ix, bound, c, d1, fuel - 1);
    assert Unwrap(ix, c) == Success((f, EmptyTypeDesc.(isConst := true)));
    assert AddMark(d1, EmptyTypeDesc.(isConst := true)) == d2;
    assert FillFrom(ix, bound, c, d1, fuel - 1) == FillFrom(ix, bound, f, d2, fuel - 2);
    assert TerminalName(ix, bound, f, true) == Success(name);
    assert FillFrom(ix, bound, f, d2, fuel - 2) == Success(d2.(typeName := name));
    assert ResolveFrom(ix, bound, p, fuel) == ResolveFrom(ix, bound, c, fuel - 1);
    assert ResolveFrom(ix, bound, c, fuel - 1) == ResolveFrom(ix, bound, f, fuel - 2);
  }

  /** A chain that comes back to where it started never reaches a name: the
      walk runs out of fuel instead of looping. */
  lemma {:induction false} SelfLoopIsCyclic(ix: Index, bound: set<string>, e: Element, desc: TypeDesc, fuel: nat)
    requires e.tag == PointerType && Next(ix, e) == Success(e)
    ensures FillFrom(ix, bound, e, desc, fuel).Failure?
    ensures ResolveFrom(ix, bound, e, fuel) == Failure(CyclicTypeChain(Attr(e, "id").GetOr("")))
    decreases fuel
  {
    if fuel > 0 {
      SelfLoopIsCyclic(ix, bound, e, AddMark(desc, EmptyTypeDesc.(pointer := "*")), fuel - 1);
    }
  }
}

/** `CppParser.ParseInterface` (SharpGen.Platform/CppParser.cs): a COM
    interface from an abstract `Class`/`Struct` element. Bases are parsed
    first (their method counts give the first slot of this interface), then
    the pure virtual methods that override nothing get consecutive slots, and
    the Visual C++ slots follow the overload grouping of `Vtable`.

    The XElement annotation that memoises an interface is a map from element
    id to the interface built for it. The entry is made before the bases are
    parsed, so a cycle through the bases sees the empty interface, as the
    source does; it is replaced by the finished interface at the end. */
module Interfaces {
  import opened Wrappers
  import opened Text
  import opened CastXml
  import opened CppModel
  import opened Annotations
  import opened ParserContext
  import opened Callables
  import Vtable

  type Memo = map<string, CppInterface>

  /** A parsed base: the interface, and whether it counted as bound when the
      base name was still unset (not asked once it is set). */
  datatype BaseInfo = BaseInfo(iface: CppInterface, bound: bool)

  /** The ids listed in `bases`, split on single spaces. */
  function BaseIds(e: Element): (r: seq<string>)
    ensures Attr(e, "bases").None? ==> r == []
  {
    match Attr(e, "bases")
    case None => []
    case Some(b) => Split(b, ' ')
  }

  /** The `Base` the loop leaves, starting from `cur`: a bound base names the
      interface while its base name is still null or empty. */
  function BaseNameFrom(cur: Option<string>, bs: seq<BaseInfo>): Option<string>
    decreases |bs|
  {
    if |bs| == 0 then cur
    else BaseNameFrom(if IsNullOrEmpty(cur) && bs[0].bound then bs[0].iface.name else cur, bs[1..])
  }

  /** The methods the bases contribute: the sum of their `TotalMethodCount`. */
  function Inherited(bs: seq<BaseInfo>): int
    decreases |bs|
  {
    if |bs| == 0 then 0 else bs[0].iface.totalMethodCount + Inherited(bs[1..])
  }

  /** A method that gets a slot: pure virtual and overriding nothing. */
  predicate IsSlotMethod(m: Element) {
    m.tag == Method && !IsNullOrWhiteSpace(Attr(m, "pure_virtual")) && IsNullOrWhiteSpace(Attr(m, "overrides"))
  }

  function SlotMethods(children: seq<Element>): (r: seq<Element>)
    ensures |r| <= |children|
    ensures forall i :: 0 <= i < |r| ==> IsSlotMethod(r[i])
    decreases |children|
  {
    if |children| == 0 then []
    else SlotMethods(children[..|children| - 1])
         + (if IsSlotMethod(children[|children| - 1]) then [children[|children| - 1]] else [])
  }

  /** The methods, each with the next declaration-order slot from `offset`;
      the Visual C++ slot is set afterwards. */
  function ParseMethods(ctx: Context, ms: seq<Element>, offset: int): (r: Result<seq<CppMethod>>)
    ensures r.Success? ==> |r.value| == |ms|
  {
    ParseSlots((m: Element) => ParseCallable(ctx, m, Attr(m, "name")), ms, offset)
  }

  /** `parse` on each of `ms` in turn, slots numbered from `offset`; the
      first failure stops the loop. */
  function ParseSlots(parse: Element -> Result<CppCallable>, ms: seq<Element>, offset: int): (r: Result<seq<CppMethod>>)
    ensures r.Success? ==> |r.value| == |ms|
    decreases |ms|
  {
    if |ms| == 0 then Success([])
    else
      var c :- parse(ms[0]);
      var rest :- ParseSlots(parse, ms[1..], offset + 1);
      Success([CppMethod(c, offset, 0)] + rest)
  }

  /** `SetMethodsWindowsOffset` on the parsed methods. */
  function SetWindowsOffsets(methods: seq<CppMethod>, start: int): (r: seq<CppMethod>)
    ensures |r| == |methods|
  {
    var names := seq(|methods|, i requires 0 <= i < |methods| => methods[i].Name());
    var offsets := Vtable.WindowsOffsets(names, start);
    seq(|methods|, i requires 0 <= i < |methods| => methods[i].(windowsOffset := offsets[i]))
  }

  /** `ParseInterface`. `fuel` bounds the depth of the base chain. */
  function ParseInterface(ctx: Context, memo: Memo, e: Element, fuel: nat): (r: Result<(Memo, CppInterface)>)
    ensures Attr(e, "id").Some? && Attr(e, "id").value in memo ==> r == Success((memo, memo[Attr(e, "id").value]))
    decreases fuel, 0
  {
    var key := Attr(e, "id");
    if key.Some? && key.value in memo then Success((memo, memo[key.value]))
    else if fuel == 0 then Failure(CyclicTypeChain(key.GetOr("")))
    else
      var started := CppInterface(Attr(e, "name"), None, None, [], 0);
      var memo1 := if key.Some? then memo[key.value := started] else memo;
      var bases :- ParseBases(ctx, memo1, None, BaseIds(e), fuel - 1);
      var built :- BuildInterface(ctx, e, bases.1);
      var memo2 := if key.Some? then bases.0[key.value := built] else bases.0;
      Success((memo2, built))
  }

  /** The loop over the base ids: an empty id is skipped, an unknown one
      throws; bound-ness is asked only while the base name `cur` is unset. */
  function ParseBases(ctx: Context, memo: Memo, cur: Option<string>, ids: seq<string>, fuel: nat)
    : (r: Result<(Memo, seq<BaseInfo>)>)
    decreases fuel, |ids| + 1
  {
    if |ids| == 0 then Success((memo, []))
    else if |ids[0]| == 0 then ParseBases(ctx, memo, cur, ids[1..], fuel)
    else
      var base :- Lookup(ctx.ix, Some(ids[0]));
      var parsed :- ParseInterface(ctx, memo, base, fuel);
      var bound :- if IsNullOrEmpty(cur) then IsTypeBound(ctx, base) else Success(false);
      var next := if IsNullOrEmpty(cur) && bound then parsed.1.name else cur;
      var rest :- ParseBases(ctx, parsed.0, next, ids[1..], fuel);
      Success((rest.0, [BaseInfo(parsed.1, bound)] + rest.1))
  }

  /** Everything after the bases: annotations (the uuid), the slot methods
      numbered from the inherited count, their Visual C++ slots, and the
      total count. */
  function BuildInterface(ctx: Context, e: Element, bases: seq<BaseInfo>): (r: Result<CppInterface>)
    ensures r.Success? <==> ParseMethods(ctx, SlotMethods(Children(ctx.ix, e)), Inherited(bases)).Success?
    ensures r.Success? ==> r.value.name == Attr(e, "name")
    ensures r.Success? ==> r.value.base == BaseNameFrom(None, bases)
    ensures r.Success? ==> r.value.totalMethodCount == Inherited(bases) + |SlotMethods(Children(ctx.ix, e))|
    ensures r.Success? ==>
              r.value.methods
              == SetWindowsOffsets(ParseMethods(ctx, SlotMethods(Children(ctx.ix, e)), Inherited(bases)).value, Inherited(bases))
    ensures r.Success? ==>
              r.value.guid == (if Decode(Attr(e, "attributes")).Some? then Decode(Attr(e, "attributes")).value.guid else None)
  {
    var start := Inherited(bases);
    var shell := CppInterface(Attr(e, "name"), BaseNameFrom(None, bases), None, [], 0);
    var annotated := AnnotateInterface(shell, Attr(e, "attributes"));
    var slots := SlotMethods(Children(ctx.ix, e));
    var methods :- ParseMethods(ctx, slots, start);
    Success(annotated.(methods := SetWindowsOffsets(methods, start), totalMethodCount := start + |slots|))
  }

  // ---------------------------------------------------------------------------
  // Properties
  // ---------------------------------------------------------------------------

  /** Method `i` of a successful parse is element `i`, in slot `offset + i`. */
  lemma ParseMethodsAt(ctx: Context, ms: seq<Element>, offset: int, i: nat)
    requires ParseMethods(ctx, ms, offset).Success? && i < |ms|
    ensures var m := ParseMethods(ctx, ms, offset).value[i];
      && m.offset == offset + i
      && Success(m.callable) == ParseCallable(ctx, ms[i], Attr(ms[i], "name"))
  {
    ParseSlotsAt((m: Element) => ParseCallable(ctx, m, Attr(m, "name")), ms, offset, i);
  }

  lemma {:induction false} ParseSlotsAt(parse: Element -> Result<CppCallable>, ms: seq<Element>, offset: int, i: nat)
    requires ParseSlots(parse, ms, offset).Success? && i < |ms|
    ensures var m := ParseSlots(parse, ms, offset).value[i];
      m.offset == offset + i && Success(m.callable) == parse(ms[i])
    decreases |ms|
  {
    if i > 0 {
      ParseSlotsAt(parse, ms[1..], offset + 1, i - 1);
      assert ms[1..][i - 1] == ms[i];
    }
  }

  /** The slots of an interface are consecutive from the inherited count: the
      first new slot is the sum of the bases' totals, and the total is that
      sum plus the number of own methods. */
  lemma ConsecutiveSlots(ctx: Context, e: Element, bases: seq<BaseInfo>, i: nat)
    requires BuildInterface(ctx, e, bases).Success?
    requires i < |BuildInterface(ctx, e, bases).value.methods|
    ensures var it := BuildInterface(ctx, e, bases).value;
      && it.methods[i].offset == Inherited(bases) + i
      && it.totalMethodCount == Inherited(bases) + |it.methods|
  {
    ParseMethodsAt(ctx, SlotMethods(Children(ctx.ix, e)), Inherited(bases), i);
  }

  /** The Visual C++ slots occupy the same range as the declaration slots,
      each once. */
  lemma WindowsSlotsArePermutation(methods: seq<CppMethod>, start: int)
    ensures var r := SetWindowsOffsets(methods, start);
      && (forall s :: 0 <= s < |r| ==> start <= r[s].windowsOffset < start + |r|)
      && (forall s, t :: 0 <= s < t < |r| ==> r[s].windowsOffset != r[t].windowsOffset)
      && (forall s :: 0 <= s < |r| ==> r[s].offset == methods[s].offset && r[s].callable == methods[s].callable)
  {
    var names := seq(|methods|, i requires 0 <= i < |methods| => methods[i].Name());
    Vtable.WindowsOffsetsFacts(names, start);
  }

  /** The base name is taken from the first bound base that has a non-empty
      name; later bases do not change it. */
  lemma {:induction false} FirstBoundBaseNames(cur: Option<string>, bs: seq<BaseInfo>, i: nat)
    requires IsNullOrEmpty(cur)
    requires i < |bs| && bs[i].bound && !IsNullOrEmpty(bs[i].iface.name)
    requires forall j :: 0 <= j < i ==> !bs[j].bound || IsNullOrEmpty(bs[j].iface.name)
    ensures BaseNameFrom(cur, bs) == bs[i].iface.name
    decreases |bs|
  {
    if i == 0 {
      SetBaseNameStays(bs[0].iface.name, bs[1..]);
    } else {
      var next := if IsNullOrEmpty(cur) && bs[0].bound then bs[0].iface.name else cur;
      assert IsNullOrEmpty(next);
      FirstBoundBaseNames(next, bs[1..], i - 1);
    }
  }

  lemma {:induction false} SetBaseNameStays(cur: Option<string>, bs: seq<BaseInfo>)
    requires !IsNullOrEmpty(cur)
    ensures BaseNameFrom(cur, bs) == cur
    decreases |bs|
  {
    if |bs| > 0 {
      SetBaseNameStays(cur, bs[1..]);
    }
  }

  /** With no bound base the interface has no base name. */
  lemma {:induction false} NoBoundBaseNoName(bs: seq<BaseInfo>)
    requires forall j :: 0 <= j < |bs| ==> !bs[j].bound
    ensures BaseNameFrom(None, bs) == None
    decreases |bs|
  {
    if |bs| > 0 {
      NoBoundBaseNoName(bs[1..]);
    }
  }

  /** A successful parse records its interface: asking again returns the
      same interface and leaves the memo alone. */
  lemma ParseInterfaceIsMemoised(ctx: Context, memo: Memo, e: Element, fuel: nat, fuel2: nat)
    requires Attr(e, "id").Some?
    requires ParseInterface(ctx, memo, e, fuel).Success?
    ensures var r := ParseInterface(ctx, memo, e, fuel).value;
      && Attr(e, "id").value in r.0
      && r.0[Attr(e, "id").value] == r.1
      && ParseInterface(ctx, r.0, e, fuel2) == Success(r)
  {
  }
}

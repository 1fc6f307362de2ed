/** `CppParser.ParseStructOrUnion`, `ParseField`, `GetStructDirectBase` and
    `GetStructName` (SharpGen.Platform/CppParser.cs).

    The field pass is split in two: a stateful pass that parses each `Field`
    child (and the nested aggregates declared inside this one) into an
    `Entry`, and the pure `Layout` that assigns the field offsets the way the
    loop's `fieldOffset` counter does. */
module Structs {
  import opened Wrappers
  import opened Text
  import opened CastXml
  import opened CppModel
  import opened TypeResolver
  import opened ParserContext
  import Interfaces

  // ---------------------------------------------------------------------------
  // Layout
  // ---------------------------------------------------------------------------

  /** A parsed field before its offset is known: its own name (if any), the
      bitfield width it declares, and its type; or the fields of an anonymous
      nested struct/union to splice in. */
  datatype Entry =
    | Plain(name: Option<string>, isBitField: bool, bitOffset: int, fieldType: TypeDesc)
    | Inline(fields: seq<CppField>)

  /** `ParseField`'s name: `field{offset}` for an unnamed field. */
  function FieldName(name: Option<string>, offset: int): (r: string)
    ensures !IsNullOrEmpty(name) ==> r == name.value
    ensures IsNullOrEmpty(name) ==> r == "field" + IntToString(offset)
  {
    if IsNullOrEmpty(name) then "field" + IntToString(offset) else name.value
  }

  function Shift(fields: seq<CppField>, delta: int): (r: seq<CppField>)
    ensures |r| == |fields|
    ensures forall i :: 0 <= i < |fields| ==> r[i] == fields[i].(offset := fields[i].offset + delta)
  {
    seq(|fields|, i requires 0 <= i < |fields| => fields[i].(offset := fields[i].offset + delta))
  }

  /** The fields one entry adds at counter `offset`, and the counter after it. */
  function Place(isUnion: bool, e: Entry, offset: int): (r: (seq<CppField>, int))
  {
    match e
    case Plain(name, isBitField, bitOffset, fieldType) =>
      ([CppField(FieldName(name, offset), offset, isBitField, bitOffset, fieldType)],
       if !isUnion && !isBitField then offset + 1 else offset)
    case Inline(sub) =>
      var shifted := Shift(sub, offset);
      var last := if |shifted| > 0 then shifted[|shifted| - 1].offset else offset;
      (shifted, if !isUnion then last + 1 else offset)
  }

  /** The fields of all entries, the counter starting at `offset`. */
  function Layout(isUnion: bool, es: seq<Entry>, offset: int): seq<CppField>
    decreases |es|
  {
    if |es| == 0 then []
    else
      var p := Place(isUnion, es[0], offset);
      p.0 + Layout(isUnion, es[1..], p.1)
  }

  /** The field loop as written: a running counter and a growing field list. */
  method LayoutFields(isUnion: bool, es: seq<Entry>) returns (fields: seq<CppField>)
    ensures fields == Layout(isUnion, es, 0)
  {
    fields := [];
    var fieldOffset := 0;
    var i := 0;
    while i < |es|
      invariant 0 <= i <= |es|
      invariant fields + Layout(isUnion, es[i..], fieldOffset) == Layout(isUnion, es, 0)
    {
      var p := Place(isUnion, es[i], fieldOffset);
      LayoutStep(isUnion, es[i..], fieldOffset);
      Assoc(fields, p.0, Layout(isUnion, es[i + 1..], p.1));
      fields := fields + p.0;
      fieldOffset := p.1;
      i := i + 1;
    }
    assert es[|es|..] == [];
  }

  lemma LayoutStep(isUnion: bool, es: seq<Entry>, offset: int)
    requires |es| > 0
    ensures Layout(isUnion, es, offset)
            == Place(isUnion, es[0], offset).0 + Layout(isUnion, es[1..], Place(isUnion, es[0], offset).1)
  {
  }

  lemma Assoc(a: seq<CppField>, b: seq<CppField>, c: seq<CppField>)
    ensures a + (b + c) == (a + b) + c
  {
  }

  /** Entries that are plain fields without bit widths. */
  predicate AllPlainWhole(es: seq<Entry>) {
    forall i :: 0 <= i < |es| ==> es[i].Plain? && !es[i].isBitField
  }

  /** In a struct, plain non-bitfield fields take consecutive offsets. */
  lemma {:induction false} StructFieldsConsecutive(es: seq<Entry>, offset: int, i: nat)
    requires AllPlainWhole(es) && i < |es|
    ensures |Layout(false, es, offset)| == |es|
    ensures Layout(false, es, offset)[i].offset == offset + i
    ensures Layout(false, es, offset)[i].name == FieldName(es[i].name, offset + i)
    decreases |es|
  {
    LayoutPlainLength(false, es, offset);
    if i > 0 {
      StructFieldsConsecutive(es[1..], offset + 1, i - 1);
    }
  }

  lemma {:induction false} LayoutPlainLength(isUnion: bool, es: seq<Entry>, offset: int)
    requires forall i :: 0 <= i < |es| ==> es[i].Plain?
    ensures |Layout(isUnion, es, offset)| == |es|
    decreases |es|
  {
    if |es| > 0 {
      LayoutPlainLength(isUnion, es[1..], Place(isUnion, es[0], offset).1);
    }
  }

  /** In a union the counter never moves: every plain field sits at the
      starting offset. */
  lemma {:induction false} UnionFieldsShareOffset(es: seq<Entry>, offset: int, i: nat)
    requires (forall j :: 0 <= j < |es| ==> es[j].Plain?) && i < |es|
    ensures |Layout(true, es, offset)| == |es|
    ensures Layout(true, es, offset)[i].offset == offset
    decreases |es|
  {
    LayoutPlainLength(true, es, offset);
    if i > 0 {
      UnionFieldsShareOffset(es[1..], offset, i - 1);
    }
  }

  /** A bitfield does not advance the counter: the next field shares its
      offset. */
  lemma BitFieldSharesOffset(a: Entry, b: Entry, offset: int)
    requires a.Plain? && a.isBitField && b.Plain?
    ensures |Layout(false, [a, b], offset)| == 2
    ensures Layout(false, [a, b], offset)[0].offset == offset
    ensures Layout(false, [a, b], offset)[1].offset == offset
  {
    assert [a, b][1..] == [b];
    assert [b][1..] == [];
    LayoutStep(false, [a, b], offset);
    LayoutStep(false, [b], offset);
  }

  /** `struct { int a; union { int b; float c; }; int d; }` lays out as
      a@0, b@1, c@1, d@2. */
  lemma UnionInsideStruct(ta: TypeDesc, tb: TypeDesc, tc: TypeDesc, td: TypeDesc)
    ensures var u := Layout(true, [Plain(Some("b"), false, 0, tb), Plain(Some("c"), false, 0, tc)], 0);
      var s := Layout(false, [Plain(Some("a"), false, 0, ta), Inline(u), Plain(Some("d"), false, 0, td)], 0);
      s == [CppField("a", 0, false, 0, ta), CppField("b", 1, false, 0, tb),
            CppField("c", 1, false, 0, tc), CppField("d", 2, false, 0, td)]
  {
    var eb := Plain(Some("b"), false, 0, tb);
    var ec := Plain(Some("c"), false, 0, tc);
    assert [eb, ec][1..] == [ec];
    assert [ec][1..] == [];
    LayoutStep(true, [eb, ec], 0);
    LayoutStep(true, [ec], 0);
    var u := Layout(true, [eb, ec], 0);
    assert u == [CppField("b", 0, false, 0, tb), CppField("c", 0, false, 0, tc)];
    var ea := Plain(Some("a"), false, 0, ta);
    var ed := Plain(Some("d"), false, 0, td);
    var es := [ea, Inline(u), ed];
    assert es[1..] == [Inline(u), ed];
    assert es[1..][1..] == [ed];
    assert [ed][1..] == [];
    assert Place(false, ea, 0) == ([CppField("a", 0, false, 0, ta)], 1);
    assert Shift(u, 1) == [CppField("b", 1, false, 0, tb), CppField("c", 1, false, 0, tc)];
    assert Place(false, Inline(u), 1).1 == 2;
    assert Place(false, ed, 2) == ([CppField("d", 2, false, 0, td)], 3);
    LayoutStep(false, es, 0);
    LayoutStep(false, es[1..], 1);
    LayoutStep(false, [ed], 2);
  }

  // ---------------------------------------------------------------------------
  // Names and bases
  // ---------------------------------------------------------------------------

  /** `GetStructName`: a top-level aggregate keeps its name (null becomes
      ""); a nested one is `Parent_INNER_n` when anonymous and
      `Parent_name_INNER` otherwise. */
  function StructName(e: Element, parent: Option<string>, innerIndex: nat): (r: string)
    ensures parent.None? ==> r == Attr(e, "name").GetOr("")
  {
    var own := Attr(e, "name").GetOr("");
    match parent
    case None => own
    case Some(p) =>
      if |own| == 0 then p + "_INNER_" + NatToString(innerIndex)
      else p + "_" + own + "_INNER"
  }

  /** Two anonymous aggregates nested in the same parent get different names. */
  lemma InnerNamesDiffer(e1: Element, e2: Element, parent: string, i: nat, j: nat)
    requires Attr(e1, "name").GetOr("") == "" && Attr(e2, "name").GetOr("") == ""
    requires i != j
    ensures StructName(e1, Some(parent), i) != StructName(e2, Some(parent), j)
  {
    var prefix := parent + "_INNER_";
    if StructName(e1, Some(parent), i) == StructName(e2, Some(parent), j) {
      assert prefix + NatToString(i) == prefix + NatToString(j);
      assert NatToString(i) == (prefix + NatToString(i))[|prefix|..];
      assert NatToString(j) == (prefix + NatToString(j))[|prefix|..];
      DigitsValueOfNatToString(i);
      DigitsValueOfNatToString(j);
    }
  }

  /** `GetStructDirectBase` over the parsed bases: a base counts only when it
      has no base itself, and the last such base wins. */
  function DirectBaseName(bases: seq<CppStruct>): (r: Option<string>)
    decreases |bases|
  {
    if |bases| == 0 then None
    else
      var last := bases[|bases| - 1];
      if IsNullOrEmpty(last.base) then Some(last.name) else DirectBaseName(bases[..|bases| - 1])
  }

  /** The direct base is the name of the last base that has no base itself,
      and there is none when every base has one. */
  lemma {:induction false} DirectBaseIsLastRoot(bases: seq<CppStruct>)
    ensures DirectBaseName(bases).Some? <==> exists i :: 0 <= i < |bases| && IsNullOrEmpty(bases[i].base)
    ensures DirectBaseName(bases).Some? ==>
              exists i :: 0 <= i < |bases| && IsNullOrEmpty(bases[i].base)
                          && DirectBaseName(bases) == Some(bases[i].name)
                          && forall j :: i < j < |bases| ==> !IsNullOrEmpty(bases[j].base)
    decreases |bases|
  {
    if |bases| > 0 {
      var p := bases[..|bases| - 1];
      DirectBaseIsLastRoot(p);
      assert forall i :: 0 <= i < |p| ==> p[i] == bases[i];
      if IsNullOrEmpty(bases[|bases| - 1].base) {
      } else if DirectBaseName(p).Some? {
        var i :| 0 <= i < |p| && IsNullOrEmpty(p[i].base) && DirectBaseName(p) == Some(p[i].name)
                 && forall j :: i < j < |p| ==> !IsNullOrEmpty(p[j].base);
        assert forall j :: i < j < |bases| ==> !IsNullOrEmpty(bases[j].base);
      }
    }
  }

  /** `C : B : A`: B has a base, so C records none. */
  lemma ChainLeavesBaseUnset(b: CppStruct)
    requires b.base == Some("A")
    ensures DirectBaseName([b]) == None
  {
    assert [b][..0] == [];
  }

  // ---------------------------------------------------------------------------
  // The stateful pass
  // ---------------------------------------------------------------------------

  /** The memo (element id -> struct) and the named nested aggregates added to
      the current include, in the order they were added. */
  datatype StructState = StructState(memo: map<string, CppStruct>, added: seq<CppStruct>)

  /** The fields of an element: its `Field` children. */
  function FieldChildren(children: seq<Element>): (r: seq<Element>)
    ensures |r| <= |children|
    ensures forall i :: 0 <= i < |r| ==> r[i].tag == Field
    decreases |children|
  {
    if |children| == 0 then []
    else FieldChildren(children[..|children| - 1])
         + (if children[|children| - 1].tag == Field then [children[|children| - 1]] else [])
  }

  /** `int.Parse(bits)` for a non-empty `bits` attribute; no attribute (or an
      empty one) is not a bitfield. */
  function BitField(field: Element): (r: Result<(bool, int)>)
    ensures IsNullOrEmpty(Attr(field, "bits")) ==> r == Success((false, 0))
    ensures !IsNullOrEmpty(Attr(field, "bits")) ==>
              (r.Success? <==> ParseInt32(Attr(field, "bits").value).Some?)
    ensures !IsNullOrEmpty(Attr(field, "bits")) && r.Success? ==>
              r.value == (true, ParseInt32(Attr(field, "bits").value).value)
  {
    if IsNullOrEmpty(Attr(field, "bits")) then Success((false, 0))
    else
      match ParseInt32(Attr(field, "bits").value)
      case Some(v) => Success((true, v))
      case None => Failure(BadNumber(Attr(field, "bits").value))
  }

  /** `ParseField` without the offset: the bit width, then the type. */
  function RawField(ctx: Context, field: Element): (r: Result<Entry>)
    ensures r.Success? ==> r.value.Plain? && r.value.name == Attr(field, "name")
    ensures r.Success? ==> Attr(field, "type").Some? && Attr(field, "type").value in ctx.ix.byId
    ensures r.Success? <==>
              BitField(field).Success?
              && ResolveAndFillType(ctx.ix, ctx.settings.boundTypes, Attr(field, "type"), EmptyTypeDesc).Success?
  {
    var bits :- BitField(field);
    var t :- ResolveAndFillType(ctx.ix, ctx.settings.boundTypes, Attr(field, "type"), EmptyTypeDesc);
    Success(Plain(Attr(field, "name"), bits.0, bits.1, t))
  }

  /** `ParseStructOrUnion(e, parent, innerIndex)`. `fuel` bounds the nesting
      of bases and inner aggregates. */
  function ParseStruct(ctx: Context, st: StructState, e: Element, parent: Option<string>, innerIndex: nat, fuel: nat)
    : (r: Result<(StructState, CppStruct)>)
    ensures Attr(e, "id").Some? && Attr(e, "id").value in st.memo ==>
              r == Success((st, st.memo[Attr(e, "id").value]))
    decreases fuel, 0
  {
    var key := Attr(e, "id");
    if key.Some? && key.value in st.memo then Success((st, st.memo[key.value]))
    else if fuel == 0 then Failure(CyclicTypeChain(key.GetOr("")))
    else
      var name := StructName(e, parent, innerIndex);
      var isUnion := e.tag == Union;
      var started := CppStruct(name, isUnion, None, []);
      var st1 := if key.Some? then st.(memo := st.memo[key.value := started]) else st;
      var bases :- ParseStructBases(ctx, st1, Interfaces.BaseIds(e), fuel - 1);
      var entries :- ParseEntries(ctx, bases.0, Attr(e, "id"), name, FieldChildren(Children(ctx.ix, e)), 0, fuel - 1);
      var built := CppStruct(name, isUnion, DirectBaseName(bases.1), Layout(isUnion, entries.1, 0));
      var st2 := if key.Some? then entries.0.(memo := entries.0.memo[key.value := built]) else entries.0;
      Success((st2, built))
  }

  /** The bases of `GetStructDirectBase`, each parsed as a top-level aggregate. */
  function ParseStructBases(ctx: Context, st: StructState, ids: seq<string>, fuel: nat)
    : (r: Result<(StructState, seq<CppStruct>)>)
    decreases fuel, |ids| + 1
  {
    if |ids| == 0 then Success((st, []))
    else if |ids[0]| == 0 then ParseStructBases(ctx, st, ids[1..], fuel)
    else
      var base :- Lookup(ctx.ix, Some(ids[0]));
      var parsed :- ParseStruct(ctx, st, base, None, 0, fuel);
      var rest :- ParseStructBases(ctx, parsed.0, ids[1..], fuel);
      Success((rest.0, [parsed.1] + rest.1))
  }

  /** The field loop's parsing half. A field whose type is declared inside
      this aggregate (its `context` is this element's id) parses that type
      as an inner aggregate numbered `inner`: unnamed, its fields are spliced
      in; named, the field takes the inner aggregate's name as its type name
      and the inner aggregate is added to the include. */
  function ParseEntries(ctx: Context, st: StructState, selfId: Option<string>, selfName: string,
                        fields: seq<Element>, inner: nat, fuel: nat)
    : (r: Result<(StructState, seq<Entry>)>)
    ensures r.Success? ==> |r.value.1| == |fields|
    decreases fuel, |fields| + 1
  {
    if |fields| == 0 then Success((st, []))
    else
      var field := fields[0];
      var raw :- RawField(ctx, field);
      // the type resolved, so the lookup of its element cannot throw
      var fieldType := ctx.ix.byId[Attr(field, "type").value];
      if Attr(fieldType, "context") == selfId then
        var sub :- ParseStruct(ctx, st, fieldType, Some(selfName), inner, fuel);
        var entry := if IsNullOrEmpty(Attr(field, "name")) then Inline(sub.1.fields)
                     else raw.(fieldType := raw.fieldType.(typeName := Some(sub.1.name)));
        var st1 := if IsNullOrEmpty(Attr(field, "name")) then sub.0 else sub.0.(added := sub.0.added + [sub.1]);
        var rest :- ParseEntries(ctx, st1, selfId, selfName, fields[1..], inner + 1, fuel);
        Success((rest.0, [entry] + rest.1))
      else
        var rest :- ParseEntries(ctx, st, selfId, selfName, fields[1..], inner, fuel);
        Success((rest.0, [raw] + rest.1))
  }

  /** A successful parse records its aggregate: asking again returns it and
      leaves the state alone. */
  lemma ParseStructIsMemoised(ctx: Context, st: StructState, e: Element, parent: Option<string>, innerIndex: nat,
                              fuel: nat, parent2: Option<string>, innerIndex2: nat, fuel2: nat)
    requires Attr(e, "id").Some?
    requires ParseStruct(ctx, st, e, parent, innerIndex, fuel).Success?
    ensures var r := ParseStruct(ctx, st, e, parent, innerIndex, fuel).value;
      && Attr(e, "id").value in r.0.memo
      && r.0.memo[Attr(e, "id").value] == r.1
      && ParseStruct(ctx, r.0, e, parent2, innerIndex2, fuel2) == Success(r)
  {
  }
}

/** `CppParser.ParseAllElements`, `ParseElementsInInclude` and `ParseElement`
    (SharpGen.Platform/CppParser.cs): the walk over the CastXML file buckets
    that fills the C++ module. Every include that the configuration processes
    and attaches gets a `CppInclude` (found ignoring case, or appended), and
    receives, in document order, the top-level elements of its files that
    pass the filters. */
module Parser {
  import opened Wrappers
  import opened Text
  import opened CastXml
  import opened CppModel
  import opened TypeResolver
  import opened ParserContext
  import opened Callables
  import Interfaces
  import Structs
  import Enums
  import Variables

  /** What the walk changes: the module being filled and the memos the
      builders keep between elements. */
  datatype ParserState = ParserState(
    group: CppModule,
    interfaces: Interfaces.Memo,
    structs: map<string, CppStruct>,
    anonymousEnums: Enums.AnonymousCounts)

  /** Nested aggregates as include elements, in order. */
  function AsElements(ss: seq<CppStruct>): (r: seq<CppElement>)
    ensures |r| == |ss|
    ensures forall i :: 0 <= i < |ss| ==> r[i] == StructElement(ss[i])
  {
    if |ss| == 0 then [] else [StructElement(ss[0])] + AsElements(ss[1..])
  }

  /** A struct or union as a top-level element: the named inner aggregates it
      adds to the include come first, then the aggregate itself. */
  function ParseAggregate(ctx: Context, st: ParserState, e: Element): (r: Result<(ParserState, seq<CppElement>)>)
    ensures r.Success? ==> |r.value.1| >= 1 && r.value.1[|r.value.1| - 1].StructElement?
    ensures r.Success? ==> r.value.0.group == st.group
  {
    var p :- Structs.ParseStruct(ctx, Structs.StructState(st.structs, []), e, None, 0, Fuel(ctx.ix));
    Success((st.(structs := p.0.memo), AsElements(p.0.added) + [StructElement(p.1)]))
  }

  /** `ParseElement`, with the elements it makes the include receive; an
      element the source maps to null gives none. */
  function ParseElement(ctx: Context, st: ParserState, e: Element): (r: Result<(ParserState, seq<CppElement>)>)
    ensures r.Success? ==> r.value.0.group == st.group
    ensures e.tag == Enumeration && r.Success? ==> |r.value.1| == 1 && r.value.1[0].EnumElement?
    ensures e.tag == Function && Attr(e, "inline").Some? ==> r == Success((st, []))
    ensures e.tag == Function && Attr(e, "inline").None? ==>
              r == (match ParseFunction(ctx, e)
                    case Success(f) => Success((st, [FunctionElement(f)]))
                    case Failure(err) => Failure(err))
    ensures (e.tag == Class || e.tag == Struct) && Attr(e, "abstract").Some? && r.Success? ==>
              |r.value.1| == 1 && r.value.1[0].InterfaceElement?
    ensures (e.tag == Union || ((e.tag == Class || e.tag == Struct) && Attr(e, "abstract").None?)) && r.Success? ==>
              |r.value.1| >= 1 && r.value.1[|r.value.1| - 1].StructElement?
    ensures e.tag == Variable && Attr(e, "init").None? ==> r == Success((st, []))
    ensures e.tag !in {Enumeration, Function, Class, Struct, Union, Variable} ==> r == Success((st, []))
  {
    match e.tag
    case Enumeration =>
      var p :- Enums.ParseEnum(ctx, st.anonymousEnums, e);
      Success((st.(anonymousEnums := p.0), [EnumElement(p.1)]))
    case Function =>
      if Attr(e, "inline").None? then
        var f :- ParseFunction(ctx, e);
        Success((st, [FunctionElement(f)]))
      else Success((st, []))
    case Class => ParseClass(ctx, st, e)
    case Struct => ParseClass(ctx, st, e)
    case Union => ParseAggregate(ctx, st, e)
    case Variable =>
      if Attr(e, "init").Some? then
        var v :- Variables.ParseVariable(ctx, e);
        Success((st, if v.Some? then [v.value] else []))
      else Success((st, []))
    case _ => Success((st, []))
  }

  /** A class or struct: an interface when abstract, otherwise an aggregate. */
  function ParseClass(ctx: Context, st: ParserState, e: Element): (r: Result<(ParserState, seq<CppElement>)>)
    ensures r.Success? ==> r.value.0.group == st.group
    ensures Attr(e, "abstract").Some? && r.Success? ==> |r.value.1| == 1 && r.value.1[0].InterfaceElement?
    ensures Attr(e, "abstract").None? && r.Success? ==>
              |r.value.1| >= 1 && r.value.1[|r.value.1| - 1].StructElement?
  {
    if Attr(e, "abstract").Some? then
      var p :- Interfaces.ParseInterface(ctx, st.interfaces, e, Fuel(ctx.ix));
      Success((st.(interfaces := p.0), [InterfaceElement(p.1)]))
    else ParseAggregate(ctx, st, e)
  }

  /** The filters of `ParseElementsInInclude`: `true` for an element that is
      skipped. Its context must resolve; only elements of a namespace that
      are complete pass; a partially attached include keeps only the types it
      attaches; CastXML's `__builtin` functions are dropped. A name is needed
      for the last test. */
  function Skipped(ctx: Context, key: string, full: bool, e: Element): (r: Result<bool>)
    ensures r.Success? ==> Lookup(ctx.ix, Attr(e, "context")).Success?
    ensures Lookup(ctx.ix, Attr(e, "context")).Success? && Lookup(ctx.ix, Attr(e, "context")).value.tag != Namespace ==>
              r == Success(true)
    ensures r == Success(false) <==>
              && Lookup(ctx.ix, Attr(e, "context")).Success?
              && Lookup(ctx.ix, Attr(e, "context")).value.tag == Namespace
              && Attr(e, "incomplete").None?
              && Attr(e, "name").Some?
              && (!full ==> key in ctx.settings.includeAttachedTypes
                            && Attr(e, "name").value in ctx.settings.includeAttachedTypes[key])
              && !StartsWith(Attr(e, "name").value, "__builtin")
  {
    var context :- Lookup(ctx.ix, Attr(e, "context"));
    if context.tag != Namespace then Success(true)
    else if Attr(e, "incomplete").Some? then Success(true)
    else if !full && key !in ctx.settings.includeAttachedTypes then Failure(MissingNode(key))
    else if !full && (Attr(e, "name").None? || Attr(e, "name").value !in ctx.settings.includeAttachedTypes[key]) then
      Success(true)
    else if Attr(e, "name").None? then Failure(NullReference("name"))
    else Success(StartsWith(Attr(e, "name").value, "__builtin"))
  }

  /** `ParseElementsInInclude` on the elements of one file bucket, adding to
      the include at `at`. */
  function ParseElementsInInclude(ctx: Context, st: ParserState, at: nat, key: string, full: bool, es: seq<Element>)
    : (r: Result<ParserState>)
    requires at < |st.group.includes|
    ensures r.Success? ==> Extends(st.group, r.value.group, at)
    decreases |es|
  {
    if |es| == 0 then Success(st)
    else
      var skip :- Skipped(ctx, key, full, es[0]);
      if skip then ParseElementsInInclude(ctx, st, at, key, full, es[1..])
      else
        var p :- ParseElement(ctx, st, es[0]);
        var next := p.0.(group := AddElements(p.0.group, at, p.1));
        var r :- ParseElementsInInclude(ctx, next, at, key, full, es[1..]);
        ExtendsTransitive(st.group, next.group, r.group, at, p.1);
        Success(r)
  }

  /** `n` is `m` with elements appended to the include at `at` only: the
      includes keep their names and order, and every other include is left
      alone. */
  ghost predicate Extends(m: CppModule, n: CppModule, at: nat) {
    && n.name == m.name
    && |n.includes| == |m.includes|
    && at < |m.includes|
    && (forall j :: 0 <= j < |m.includes| && j != at ==> n.includes[j] == m.includes[j])
    && n.includes[at].name == m.includes[at].name
    && |m.includes[at].elements| <= |n.includes[at].elements|
    && n.includes[at].elements[..|m.includes[at].elements|] == m.includes[at].elements
  }

  /** Appending elements, then extending further, extends. */
  lemma ExtendsTransitive(a: CppModule, b: CppModule, c: CppModule, at: nat, es: seq<CppElement>)
    requires at < |a.includes|
    requires b == AddElements(a, at, es)
    requires Extends(b, c, at)
    ensures Extends(a, c, at)
  {
    var x := a.includes[at].elements;
    var y := b.includes[at].elements;
    var z := c.includes[at].elements;
    assert y[..|x|] == x;
    assert z[..|x|] == y[..|y|][..|x|];
  }

  /** `ParseAllElements` over the file buckets in order. */
  function ParseAllElements(ctx: Context, st: ParserState, buckets: seq<FileBucket>): (r: Result<ParserState>)
    ensures r.Success? ==> IncludesKept(st.group, r.value.group)
    decreases |buckets|
  {
    if |buckets| == 0 then Success(st)
    else
      var b := buckets[0];
      var includeId :- IncludeIdOfFile(ctx, Some(b.file));
      var key := Fold(includeId);
      if key !in ctx.settings.includeToProcess || key !in ctx.settings.includeIsAttached then
        ParseAllElements(ctx, st, buckets[1..])
      else
        var found := FindOrAddInclude(st.group, includeId);
        var st1 := st.(group := found.0);
        var st2 :- ParseElementsInInclude(ctx, st1, found.1, key, ctx.settings.includeIsAttached[key],
                                          LookupAll(ctx.ix.byId, b.ids));
        var r :- ParseAllElements(ctx, st2, buckets[1..]);
        Success(r)
  }

  // ---------------------------------------------------------------------------
  // Properties
  // ---------------------------------------------------------------------------

  /** Whether `ParseAllElements` visits a bucket: its include is processed and
      attached. */
  predicate Visits(ctx: Context, b: FileBucket) {
    && IncludeIdOfFile(ctx, Some(b.file)).Success?
    && Fold(IncludeIdOfFile(ctx, Some(b.file)).value) in ctx.settings.includeToProcess
    && Fold(IncludeIdOfFile(ctx, Some(b.file)).value) in ctx.settings.includeIsAttached
  }

  /** The first bucket, when visited, has an include after the walk. */
  lemma VisitedFirstIncludeExists(ctx: Context, st: ParserState, buckets: seq<FileBucket>)
    requires ParseAllElements(ctx, st, buckets).Success?
    requires 0 < |buckets| && Visits(ctx, buckets[0])
    ensures HasInclude(ParseAllElements(ctx, st, buckets).value.group, IncludeIdOfFile(ctx, Some(buckets[0].file)).value)
  {
    var b := buckets[0];
    var includeId := IncludeIdOfFile(ctx, Some(b.file)).value;
    var key := Fold(includeId);
    var found := FindOrAddInclude(st.group, includeId);
    var st1 := st.(group := found.0);
    var st2 := ParseElementsInInclude(ctx, st1, found.1, key, ctx.settings.includeIsAttached[key],
                                      LookupAll(ctx.ix.byId, b.ids)).value;
    var result := ParseAllElements(ctx, st2, buckets[1..]);
    assert ParseAllElements(ctx, st, buckets) == result;
    assert st2.group.includes[found.1].name == found.0.includes[found.1].name;
    HasIncludeKept(st2.group, result.value.group, includeId, found.1);
  }

  /** The state after visiting one bucket, as `ParseAllElements` computes it. */
  function VisitState(ctx: Context, st: ParserState, b: FileBucket): Result<ParserState>
    requires Visits(ctx, b)
  {
    var includeId := IncludeIdOfFile(ctx, Some(b.file)).value;
    var key := Fold(includeId);
    var found := FindOrAddInclude(st.group, includeId);
    ParseElementsInInclude(ctx, st.(group := found.0), found.1, key, ctx.settings.includeIsAttached[key],
                           LookupAll(ctx.ix.byId, b.ids))
  }

  /** The state after one bucket: unchanged when the bucket is not visited. */
  function NextState(ctx: Context, st: ParserState, b: FileBucket): Result<ParserState> {
    if Visits(ctx, b) then VisitState(ctx, st, b) else Success(st)
  }

  /** One step of the walk. */
  lemma WalkStep(ctx: Context, st: ParserState, buckets: seq<FileBucket>)
    requires ParseAllElements(ctx, st, buckets).Success?
    requires 0 < |buckets|
    ensures NextState(ctx, st, buckets[0]).Success?
    ensures ParseAllElements(ctx, st, buckets) == ParseAllElements(ctx, NextState(ctx, st, buckets[0]).value, buckets[1..])
  {
  }

  /** After the walk, every visited bucket has an include whose name equals
      its include id ignoring case. */
  lemma {:induction false} VisitedIncludeExists(ctx: Context, st: ParserState, buckets: seq<FileBucket>, i: nat)
    requires ParseAllElements(ctx, st, buckets).Success?
    requires i < |buckets| && Visits(ctx, buckets[i])
    ensures HasInclude(ParseAllElements(ctx, st, buckets).value.group, IncludeIdOfFile(ctx, Some(buckets[i].file)).value)
    decreases |buckets|
  {
    if i == 0 {
      VisitedFirstIncludeExists(ctx, st, buckets);
    } else {
      WalkStep(ctx, st, buckets);
      var next := NextState(ctx, st, buckets[0]).value;
      assert buckets[1..][i - 1] == buckets[i];
      VisitedIncludeExists(ctx, next, buckets[1..], i - 1);
      var m := ParseAllElements(ctx, next, buckets[1..]).value.group;
      var id := IncludeIdOfFile(ctx, Some(buckets[i].file)).value;
      assert HasInclude(m, id);
      assert ParseAllElements(ctx, st, buckets).value.group == m;
    }
  }

  /** A walk that visits no bucket leaves the module alone. */
  lemma {:induction false} NothingVisitedNothingAdded(ctx: Context, st: ParserState, buckets: seq<FileBucket>)
    requires forall i :: 0 <= i < |buckets| ==> IncludeIdOfFile(ctx, Some(buckets[i].file)).Success?
    requires forall i :: 0 <= i < |buckets| ==> !Visits(ctx, buckets[i])
    ensures ParseAllElements(ctx, st, buckets) == Success(st)
    decreases |buckets|
  {
    if |buckets| > 0 {
      assert !Visits(ctx, buckets[0]);
      NothingVisitedNothingAdded(ctx, st, buckets[1..]);
    }
  }

  /** A skipped element adds nothing: the include receives exactly what the
      rest of the elements give it. */
  lemma SkippedAddsNothing(ctx: Context, st: ParserState, at: nat, key: string, full: bool, e: Element, rest: seq<Element>)
    requires at < |st.group.includes|
    requires Skipped(ctx, key, full, e) == Success(true)
    ensures ParseElementsInInclude(ctx, st, at, key, full, [e] + rest)
            == ParseElementsInInclude(ctx, st, at, key, full, rest)
  {
    assert ([e] + rest)[1..] == rest;
  }

  /** In a partially attached include, a type the include does not attach is
      skipped, whatever it is. */
  lemma PartialIncludeSkipsUnattached(ctx: Context, key: string, e: Element)
    requires Lookup(ctx.ix, Attr(e, "context")).Success?
    requires key in ctx.settings.includeAttachedTypes
    requires Attr(e, "name").None? || Attr(e, "name").value !in ctx.settings.includeAttachedTypes[key]
    ensures Skipped(ctx, key, false, e) == Success(true)
  {
  }

  /** An element that passes the filters gives the include exactly what
      `ParseElement` makes of it, after what it already held. */
  lemma KeptElementAdded(ctx: Context, st: ParserState, at: nat, key: string, full: bool, e: Element)
    requires at < |st.group.includes|
    requires Skipped(ctx, key, full, e) == Success(false)
    requires ParseElement(ctx, st, e).Success?
    ensures var r := ParseElementsInInclude(ctx, st, at, key, full, [e]);
      && r.Success?
      && r.value.group.includes[at].elements
         == st.group.includes[at].elements + ParseElement(ctx, st, e).value.1
  {
    var p := ParseElement(ctx, st, e).value;
    var next := p.0.(group := AddElements(p.0.group, at, p.1));
    assert [e][1..] == [];
    assert ParseElementsInInclude(ctx, st, at, key, full, [e]) == Success(next);
  }

  /** A union adds the named aggregates nested in it, then itself. */
  lemma UnionAddsInnerThenItself(ctx: Context, st: ParserState, e: Element)
    requires e.tag == Union
    requires ParseElement(ctx, st, e).Success?
    ensures var p := Structs.ParseStruct(ctx, Structs.StructState(st.structs, []), e, None, 0, Fuel(ctx.ix));
      && p.Success?
      && ParseElement(ctx, st, e).value.1 == AsElements(p.value.0.added) + [StructElement(p.value.1)]
  {
  }
}

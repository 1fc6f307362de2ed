/** `CppParser.ParseParameters`, `ParseCallable` and `ParseFunction`
    (SharpGen.Platform/CppParser.cs): a signature from a `Function` or
    `Method` element and its `Argument` children. */
module Callables {
  import opened Wrappers
  import opened Text
  import opened CastXml
  import opened CppModel
  import opened TypeResolver
  import opened Annotations
  import opened ParserContext

  /** The children that are `Argument`s, in order. */
  function Arguments(children: seq<Element>): (r: seq<Element>)
    ensures |r| <= |children|
    decreases |children|
  {
    if |children| == 0 then []
    else Arguments(children[..|children| - 1])
         + (if children[|children| - 1].tag == Argument then [children[|children| - 1]] else [])
  }

  /** The name of the `k`-th argument: its own, or `"arg" + k` when it has
      none. */
  function ParameterName(arg: Element, k: nat): (r: string)
    ensures |r| > 0
  {
    match Attr(arg, "name")
    case Some(n) => if |n| > 0 then n else "arg" + NatToString(k)
    case None => "arg" + NatToString(k)
  }

  /** One parameter: named, annotated, then typed. */
  function ParseParameter(ctx: Context, arg: Element, k: nat): Result<CppParameter> {
    var p := AnnotateParameter(CppParameter(ParameterName(arg, k), {}, EmptyTypeDesc), Attr(arg, "attributes"));
    var t :- ResolveAndFillType(ctx.ix, ctx.settings.boundTypes, Attr(arg, "type"), p.paramType);
    Success(p.(paramType := t))
  }

  /** A parameter parses exactly when its type resolves, and then carries
      its name, the resolved type and the decoded flags. */
  lemma ParseParameterFacts(ctx: Context, arg: Element, k: nat)
    ensures var r := ParseParameter(ctx, arg, k);
      var t := ResolveAndFillType(ctx.ix, ctx.settings.boundTypes, Attr(arg, "type"), EmptyTypeDesc);
      && (r.Success? <==> t.Success?)
      && (r.Success? ==> r.value.name == ParameterName(arg, k) && r.value.paramType == t.value)
      && (r.Success? && !IsNullOrWhiteSpace(Attr(arg, "attributes")) ==>
            r.value.attribute == ParamFlags(Decode(Attr(arg, "attributes")).value))
      && (r.Success? && IsNullOrWhiteSpace(Attr(arg, "attributes")) ==> r.value.attribute == {})
  {
  }

  /** The parameters of `args`, the first one numbered `k`. */
  function ParseArguments(ctx: Context, args: seq<Element>, k: nat): (r: Result<seq<CppParameter>>)
    ensures r.Success? ==> |r.value| == |args|
  {
    ParseEach((a: Element, j: nat) => ParseParameter(ctx, a, j), args, k)
  }

  /** `parse` on each of `args` in turn, numbering from `k`; the first
      failure stops the loop. */
  function ParseEach(parse: (Element, nat) -> Result<CppParameter>, args: seq<Element>, k: nat): (r: Result<seq<CppParameter>>)
    ensures r.Success? ==> |r.value| == |args|
    decreases |args|
  {
    if |args| == 0 then Success([])
    else
      var p :- parse(args[0], k);
      var ps :- ParseEach(parse, args[1..], k + 1);
      Success([p] + ps)
  }

  /** Parameter `i` of a successful parse is argument `i`, numbered `k + i`. */
  lemma ParseArgumentsAt(ctx: Context, args: seq<Element>, k: nat, i: nat)
    requires ParseArguments(ctx, args, k).Success? && i < |args|
    ensures ParseParameter(ctx, args[i], k + i) == Success(ParseArguments(ctx, args, k).value[i])
  {
    ParseEachAt((a: Element, j: nat) => ParseParameter(ctx, a, j), args, k, i);
  }

  lemma {:induction false} ParseEachAt(parse: (Element, nat) -> Result<CppParameter>, args: seq<Element>, k: nat, i: nat)
    requires ParseEach(parse, args, k).Success? && i < |args|
    ensures parse(args[i], k + i) == Success(ParseEach(parse, args, k).value[i])
    decreases |args|
  {
    if i > 0 {
      ParseEachAt(parse, args[1..], k + 1, i - 1);
      assert args[1..][i - 1] == args[i];
    }
  }

  /** The parse fails exactly when some argument's type does not resolve. */
  lemma ParseArgumentsFails(ctx: Context, args: seq<Element>, k: nat)
    ensures ParseArguments(ctx, args, k).Failure? <==>
              exists i :: 0 <= i < |args| && ParseParameter(ctx, args[i], k + i).Failure?
  {
    var parse := (a: Element, j: nat) => ParseParameter(ctx, a, j);
    ParseEachFails(parse, args, k);
    assert forall i :: 0 <= i < |args| ==> parse(args[i], k + i) == ParseParameter(ctx, args[i], k + i);
  }

  lemma {:induction false} ParseEachFails(parse: (Element, nat) -> Result<CppParameter>, args: seq<Element>, k: nat)
    ensures ParseEach(parse, args, k).Failure? <==>
              exists i :: 0 <= i < |args| && parse(args[i], k + i).Failure?
    decreases |args|
  {
    if |args| > 0 {
      ParseEachFails(parse, args[1..], k + 1);
      if parse(args[0], k).Success? {
        assert forall i :: 1 <= i < |args| ==> args[1..][i - 1] == args[i];
        if ParseEach(parse, args[1..], k + 1).Failure? {
          var j :| 0 <= j < |args[1..]| && parse(args[1..][j], k + 1 + j).Failure?;
          assert parse(args[j + 1], k + (j + 1)).Failure?;
        }
      }
    }
  }

  /** `ParseParameters`: every `Argument` child, numbered from 0. */
  function ParseParameters(ctx: Context, e: Element): Result<seq<CppParameter>> {
    ParseArguments(ctx, Arguments(Children(ctx.ix, e)), 0)
  }

  /** `ParseCallable` on a fresh callable named `name`: annotations, then the
      parameters, then the return type. */
  function ParseCallable(ctx: Context, e: Element, name: Option<string>): (r: Result<CppCallable>)
    ensures r.Success? <==>
              ParseParameters(ctx, e).Success?
              && ResolveAndFillType(ctx.ix, ctx.settings.boundTypes, Attr(e, "returns"), EmptyTypeDesc).Success?
    ensures r.Success? ==> r.value.name == name
    ensures r.Success? ==> r.value.parameters == ParseParameters(ctx, e).value
    ensures r.Success? ==>
              r.value.returnValue == ResolveAndFillType(ctx.ix, ctx.settings.boundTypes, Attr(e, "returns"), EmptyTypeDesc).value
    ensures r.Success? ==>
              r.value.callingConvention
              == (if Decode(Attr(e, "attributes")).Some? then Decode(Attr(e, "attributes")).value.callingConvention else None)
  {
    var c := AnnotateCallable(CppCallable(name, None, [], EmptyTypeDesc), Attr(e, "attributes"));
    var ps :- ParseParameters(ctx, e);
    var ret :- ResolveAndFillType(ctx.ix, ctx.settings.boundTypes, Attr(e, "returns"), EmptyTypeDesc);
    Success(c.(parameters := ps, returnValue := ret))
  }

  /** `ParseFunction`. */
  function ParseFunction(ctx: Context, e: Element): Result<CppCallable> {
    ParseCallable(ctx, e, Attr(e, "name"))
  }

  /** An unnamed second argument is called "arg1". */
  lemma UnnamedArgument(ctx: Context, a: Element, b: Element)
    requires Attr(b, "name") == Some("")
    requires ParseArguments(ctx, [a, b], 0).Success?
    ensures ParseArguments(ctx, [a, b], 0).value[1].name == "arg1"
  {
    ParseArgumentsAt(ctx, [a, b], 0, 1);
    ParseParameterFacts(ctx, b, 1);
    assert NatToString(1) == "1";
  }
}

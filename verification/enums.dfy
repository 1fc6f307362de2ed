/** `CppParser.ParseEnum` (SharpGen.Platform/CppParser.cs): an enum from an
    `Enumeration` element. An anonymous enum is named after its include and a
    per-include counter; the counter map ignores case, so it is keyed by
    `Fold`. */
module Enums {
  import opened Wrappers
  import opened Text
  import opened CastXml
  import opened CppModel
  import opened ParserContext
  import ExtensionHeader

  /** Anonymous enums seen so far, per include (folded). */
  type AnonymousCounts = map<string, nat>

  /** `name` without `suffix` when it ends with it (`Substring` after `EndsWith`). */
  function StripSuffix(name: string, suffix: string): (r: string)
    ensures EndsWith(name, suffix) ==> r + suffix == name
    ensures !EndsWith(name, suffix) ==> r == name
  {
    if EndsWith(name, suffix) then DropSuffix(name, suffix) else name
  }

  /** A name ending in the suffix loses exactly the suffix. */
  lemma StripAppendedSuffix(name: string, suffix: string)
    ensures StripSuffix(name + suffix, suffix) == name
  {
    assert (name + suffix)[|name|..] == suffix;
    assert (name + suffix)[..|name|] == name;
  }

  /** CastXML's placeholder names start with `$`; an unnamed enum has none. */
  predicate IsAnonymous(name: Option<string>) {
    IsNullOrEmpty(name) || StartsWith(name.value, "$")
  }

  /** The items: every child, named by its `name` without the enum-item
      suffix and valued by its `init`. A child without a name throws. */
  function EnumItems(children: seq<Element>): (r: Result<seq<CppEnumItem>>)
    ensures r.Success? <==> forall i :: 0 <= i < |children| ==> Attr(children[i], "name").Some?
    ensures r.Success? ==> |r.value| == |children|
    ensures r.Success? ==> forall i :: 0 <= i < |children| ==>
              r.value[i] == CppEnumItem(StripSuffix(Attr(children[i], "name").value, ExtensionHeader.EnumItemSuffix),
                                        Attr(children[i], "init"))
    decreases |children|
  {
    if |children| == 0 then Success([])
    else
      var last := children[|children| - 1];
      var items :- EnumItems(children[..|children| - 1]);
      match Attr(last, "name")
      case None => Failure(NullReference("name"))
      case Some(n) =>
        Success(items + [CppEnumItem(StripSuffix(n, ExtensionHeader.EnumItemSuffix), Attr(last, "init"))])
  }

  /** The underlying type from the `size` in bits; a size that is not an
      unsigned 64-bit number leaves it unset. */
  function UnderlyingType(size: Option<string>): (r: Option<string>)
    ensures r.Some? <==> size.Some? && ParseUInt64(size.value).Some?
    ensures r.Some? ==> r.value in {"byte", "short", "int", "long"}
  {
    match size
    case None => None
    case Some(s) =>
      match ParseUInt64(s)
      case None => None
      case Some(bits) =>
        Some(if bits == 8 then "byte" else if bits == 16 then "short" else if bits == 64 then "long" else "int")
  }

  /** The 8, 16 and 64 bit sizes map to byte, short and long; every other
      size to int. */
  lemma UnderlyingTypeBySize(bits: nat)
    requires bits <= UInt64Max
    ensures UnderlyingType(Some(NatToString(bits)))
            == Some(if bits == 8 then "byte" else if bits == 16 then "short" else if bits == 64 then "long" else "int")
  {
    ParseIntegerOfIntToString(bits);
  }

  /** `ParseEnum`. */
  function ParseEnum(ctx: Context, counts: AnonymousCounts, e: Element): (r: Result<(AnonymousCounts, CppEnum)>)
    ensures r.Success? ==> r.value.1.underlyingType == UnderlyingType(Attr(e, "size"))
    ensures r.Success? ==> EnumItems(Children(ctx.ix, e)).Success? && r.value.1.items == EnumItems(Children(ctx.ix, e)).value
    ensures !IsAnonymous(Attr(e, "name")) ==>
              (r.Success? <==> EnumItems(Children(ctx.ix, e)).Success?)
    ensures !IsAnonymous(Attr(e, "name")) && r.Success? ==>
              r.value.0 == counts && r.value.1.name == Attr(e, "name").value
  {
    var named :-
      if !IsAnonymous(Attr(e, "name")) then Success((counts, Attr(e, "name").value))
      else
        var inc :- IncludeIdOfFile(ctx, Attr(e, "file"));
        var key := Fold(inc);
        var n := if key in counts then counts[key] else 0;
        Success((counts[key := n + 1], ToUpper(inc) + "_ENUM_" + NatToString(n)));
    var items :- EnumItems(Children(ctx.ix, e));
    Success((named.0, CppEnum(named.1, items, UnderlyingType(Attr(e, "size")))))
  }

  /** An anonymous enum takes its include's counter, upper-cased include id
      first, and advances that counter only. */
  lemma AnonymousEnumName(ctx: Context, counts: AnonymousCounts, e: Element)
    requires IsAnonymous(Attr(e, "name"))
    requires ParseEnum(ctx, counts, e).Success?
    ensures var inc := IncludeIdOfFile(ctx, Attr(e, "file")).value;
      var n := if Fold(inc) in counts then counts[Fold(inc)] else 0;
      var r := ParseEnum(ctx, counts, e).value;
      && r.1.name == ToUpper(inc) + "_ENUM_" + NatToString(n)
      && r.0 == counts[Fold(inc) := n + 1]
  {
  }

  /** Two anonymous enums of the same include, parsed one after the other, get
      different names. */
  lemma AnonymousEnumsDiffer(ctx: Context, counts: AnonymousCounts, e1: Element, e2: Element)
    requires IsAnonymous(Attr(e1, "name")) && IsAnonymous(Attr(e2, "name"))
    requires Attr(e1, "file") == Attr(e2, "file")
    requires ParseEnum(ctx, counts, e1).Success?
    requires ParseEnum(ctx, ParseEnum(ctx, counts, e1).value.0, e2).Success?
    ensures ParseEnum(ctx, counts, e1).value.1.name
            != ParseEnum(ctx, ParseEnum(ctx, counts, e1).value.0, e2).value.1.name
  {
    var inc := IncludeIdOfFile(ctx, Attr(e1, "file")).value;
    var n := if Fold(inc) in counts then counts[Fold(inc)] else 0;
    AnonymousEnumName(ctx, counts, e1);
    var counts1 := ParseEnum(ctx, counts, e1).value.0;
    AnonymousEnumName(ctx, counts1, e2);
    var prefix := ToUpper(inc) + "_ENUM_";
    var a := prefix + NatToString(n);
    var b := prefix + NatToString(n + 1);
    assert a[|prefix|..] == NatToString(n);
    assert b[|prefix|..] == NatToString(n + 1);
    DigitsValueOfNatToString(n);
    DigitsValueOfNatToString(n + 1);
  }

  /** An item the extension header declared for macro `m` reads back as `m`. */
  lemma GeneratedItemRoundTrip(child: Element, m: string)
    requires Attr(child, "name") == Some(m + ExtensionHeader.EnumItemSuffix)
    ensures EnumItems([child]) == Success([CppEnumItem(m, Attr(child, "init"))])
  {
    StripAppendedSuffix(m, ExtensionHeader.EnumItemSuffix);
    assert [child][0] == child;
    var r := EnumItems([child]);
    assert r.Success?;
    assert r.value[0] == CppEnumItem(m, Attr(child, "init"));
    assert r.value == [r.value[0]];
  }
}

/** `CppParser.ParseVariable` (SharpGen.Platform/CppParser.cs): a constant
    from a `Variable` element with an initializer. A `GUID` variable becomes
    a GUID; any other keeps its initializer text, with the cast CastXML
    prints around it removed by the pattern `\((?:\(.+\))?(.+)\)` and with
    `.F` written `.0F`. */
module Variables {
  import opened Wrappers
  import opened Text
  import opened CastXml
  import opened CppModel
  import opened TypeResolver
  import opened ParserContext
  import opened Guids
  import ExtensionHeader
  import Enums

  // ---------------------------------------------------------------------------
  // The cast pattern
  // ---------------------------------------------------------------------------

  /** The last position in `[lo, hi)` holding `c`. */
  function LastIn(s: string, c: char, lo: nat, hi: nat): (r: Option<nat>)
    requires hi <= |s|
    ensures r.Some? ==> lo <= r.value < hi && s[r.value] == c
    ensures r.Some? ==> forall j :: r.value < j < hi ==> s[j] != c
    ensures r.None? ==> forall j :: lo <= j < hi ==> s[j] != c
    decreases hi
  {
    if hi <= lo then None
    else if s[hi - 1] == c then Some(hi - 1)
    else LastIn(s, c, lo, hi - 1)
  }

  /** The group a match starting at the `(` at `p` captures, as a span.
      Backtracking prefers the optional `(…)` part, then the longest inner
      `.+`, then the longest group: the group ends at the last `)` of the
      line, and starts after the last `)` that leaves it non-empty when the
      text goes on with `(`. */
  function MatchAt(s: string, p: nat): (r: Option<(nat, nat)>)
    requires p < |s| && s[p] == '('
    ensures r.Some? ==> p < r.value.0 < r.value.1 < |s| && s[r.value.1] == ')'
    ensures r.Some? ==> s[r.value.0 - 1] == '(' || s[r.value.0 - 1] == ')'
    ensures r.Some? ==> forall j :: p <= j < r.value.1 ==> s[j] != '\n'
  {
    var e := LineEnd(s, p);
    match LastIn(s, ')', p + 2, e)
    case None => None
    case Some(l) =>
      if s[p + 1] == '(' then
        match LastIn(s, ')', p + 3, l - 1)
        case Some(k) => Some((k + 1, l))
        case None => Some((p + 1, l))
      else Some((p + 1, l))
  }

  /** The leftmost match from position `from` on. */
  function CastSpanFrom(s: string, from: nat): (r: Option<(nat, nat)>)
    requires from <= |s|
    ensures r.Some? ==> from < r.value.0 < r.value.1 < |s| && s[r.value.1] == ')'
    ensures r.Some? ==> s[r.value.0 - 1] == '(' || s[r.value.0 - 1] == ')'
    decreases |s| - from
  {
    if from == |s| then None
    else if s[from] == '(' && MatchAt(s, from).Some? then MatchAt(s, from)
    else CastSpanFrom(s, from + 1)
  }

  /** The pattern matches somewhere after `from` exactly when some `(` there
      has a `)` at least two further on in the same line. */
  lemma {:induction false} CastSpanFromExists(s: string, from: nat)
    requires from <= |s|
    ensures CastSpanFrom(s, from).Some? <==>
              exists p, q :: from <= p && p + 2 <= q < |s| && s[p] == '(' && s[q] == ')' && NoNewline(s, p, q)
    decreases |s| - from
  {
    if from < |s| {
      CastSpanFromExists(s, from + 1);
      if s[from] == '(' {
        var e := LineEnd(s, from);
        if MatchAt(s, from).Some? {
          var l := LastIn(s, ')', from + 2, e).value;
          assert NoNewline(s, from, l);
        } else {
          forall p, q | from <= p && p + 2 <= q < |s| && s[p] == '(' && s[q] == ')' && NoNewline(s, p, q)
            ensures from + 1 <= p
          {
          }
        }
      } else {
        forall p, q | from <= p && p + 2 <= q < |s| && s[p] == '(' && s[q] == ')' && NoNewline(s, p, q)
          ensures from + 1 <= p
        {
        }
      }
    }
  }

  /** No `\n` in `s[p..q]`. */
  predicate NoNewline(s: string, p: nat, q: nat)
    requires p <= q <= |s|
  {
    forall j :: p <= j < q ==> s[j] != '\n'
  }

  /** `Regex.Match(value, …)` and its first group: the text inside the cast,
      or the whole value when the pattern does not match. */
  function StripCast(value: string): (r: string)
    ensures CastSpanFrom(value, 0).None? ==> r == value
    ensures CastSpanFrom(value, 0).Some? ==>
              r == value[CastSpanFrom(value, 0).value.0..CastSpanFrom(value, 0).value.1]
  {
    match CastSpanFrom(value, 0)
    case None => value
    case Some((a, b)) => value[a..b]
  }

  /** A value without parentheses is left alone. */
  lemma StripCastWithoutParens(value: string)
    requires '(' !in value
    ensures StripCast(value) == value
  {
    CastSpanFromExists(value, 0);
  }

  /** `((float)1.5F)` is `1.5F`; `(5)` is `5`. */
  lemma StripCastExamples()
    ensures StripCast("((float)1.5F)") == "1.5F"
    ensures StripCast("(5)") == "5"
  {
    var s := "((float)1.5F)";
    assert LineEnd(s, 0) == |s|;
    assert LastIn(s, ')', 2, 13) == Some(12);
    assert LastIn(s, ')', 3, 11) == Some(7);
    assert MatchAt(s, 0) == Some((8, 12));
    assert s[8..12] == "1.5F";
    var t := "(5)";
    assert LineEnd(t, 0) == 3;
    assert LastIn(t, ')', 2, 3) == Some(2);
    assert MatchAt(t, 0) == Some((1, 2));
  }

  // ---------------------------------------------------------------------------
  // Float literals
  // ---------------------------------------------------------------------------

  predicate IsF(c: char) {
    c == 'F' || c == 'f'
  }

  /** `value.Replace(".F", ".0F", StringComparison.OrdinalIgnoreCase)`. */
  function FixFloatSuffix(s: string): (r: string)
    ensures |s| > 0 ==> |r| > 0 && r[0] == s[0]
    decreases |s|
  {
    if |s| < 2 then s
    else if s[0] == '.' && IsF(s[1]) then ".0F" + FixFloatSuffix(s[2..])
    else [s[0]] + FixFloatSuffix(s[1..])
  }

  /** No `.` directly followed by `F` or `f`. */
  predicate NoDotF(s: string) {
    forall i :: 0 <= i < |s| - 1 ==> !(s[i] == '.' && IsF(s[i + 1]))
  }

  /** Afterwards no `.F` or `.f` is left. */
  lemma {:induction false} FixFloatSuffixLeavesNone(s: string)
    ensures NoDotF(FixFloatSuffix(s))
    decreases |s|
  {
    if |s| >= 2 {
      if s[0] == '.' && IsF(s[1]) {
        FixFloatSuffixLeavesNone(s[2..]);
        var rest := FixFloatSuffix(s[2..]);
        var r := ".0F" + rest;
        forall i | 0 <= i < |r| - 1
          ensures !(r[i] == '.' && IsF(r[i + 1]))
        {
          if i >= 3 {
            assert r[i] == rest[i - 3] && r[i + 1] == rest[i - 2];
          }
        }
      } else {
        FixFloatSuffixLeavesNone(s[1..]);
        var rest := FixFloatSuffix(s[1..]);
        var r := [s[0]] + rest;
        forall i | 0 <= i < |r| - 1
          ensures !(r[i] == '.' && IsF(r[i + 1]))
        {
          if i >= 1 {
            assert r[i] == rest[i - 1] && r[i + 1] == rest[i];
          }
        }
      }
    }
  }

  /** A value without `.F` or `.f` is left alone. */
  lemma {:induction false} FixFloatSuffixUnchanged(s: string)
    requires NoDotF(s)
    ensures FixFloatSuffix(s) == s
    decreases |s|
  {
    if |s| >= 2 {
      assert !(s[0] == '.' && IsF(s[1]));
      FixFloatSuffixUnchanged(s[1..]);
      assert [s[0]] + s[1..] == s;
    }
  }

  /** `1.F` reads `1.0F`, and `2.f` reads `2.0F`. */
  lemma FixFloatSuffixExamples()
    ensures FixFloatSuffix("1.F") == "1.0F"
    ensures FixFloatSuffix("2.f") == "2.0F"
  {
    assert "1.F"[1..] == ".F" && ".F"[2..] == "";
    assert "2.f"[1..] == ".f" && ".f"[2..] == "";
  }

  // ---------------------------------------------------------------------------
  // ParseVariable
  // ---------------------------------------------------------------------------

  /** The value text of a non-GUID constant. */
  function ConstantValue(init: Option<string>): string {
    FixFloatSuffix(StripCast(init.GetOr("")))
  }

  /** `ParseVariable`: `Success(None)` where the source returns null (a `GUID`
      whose initializer is not a GUID). A variable without a name throws. */
  function ParseVariable(ctx: Context, e: Element): (r: Result<Option<CppElement>>)
    ensures r.Success? <==>
              Attr(e, "name").Some? && ResolveType(ctx.ix, ctx.settings.boundTypes, Attr(e, "type")).Success?
    ensures r.Success? && ResolveType(ctx.ix, ctx.settings.boundTypes, Attr(e, "type")).value == Some("GUID") ==>
              match ParseGuid(Attr(e, "init").GetOr(""))
              case None => r.value.None?
              case Some(bytes) =>
                r.value == Some(GuidElement(CppGuid(Enums.StripSuffix(Attr(e, "name").value, ExtensionHeader.VariableSuffix), bytes)))
    ensures r.Success? && ResolveType(ctx.ix, ctx.settings.boundTypes, Attr(e, "type")).value != Some("GUID") ==>
              r.value == Some(ConstantElement(CppConstant(
                Enums.StripSuffix(Attr(e, "name").value, ExtensionHeader.VariableSuffix),
                ResolveType(ctx.ix, ctx.settings.boundTypes, Attr(e, "type")).value,
                ConstantValue(Attr(e, "init")))))
  {
    match Attr(e, "name")
    case None => Failure(NullReference("name"))
    case Some(raw) =>
      var name := Enums.StripSuffix(raw, ExtensionHeader.VariableSuffix);
      var typeName :- ResolveType(ctx.ix, ctx.settings.boundTypes, Attr(e, "type"));
      var value := Attr(e, "init").GetOr("");
      if typeName == Some("GUID") then
        match ParseGuid(value)
        case Some(bytes) => Success(Some(GuidElement(CppGuid(name, bytes))))
        case None => Success(None)
      else Success(Some(ConstantElement(CppConstant(name, typeName, ConstantValue(Attr(e, "init"))))))
  }

  /** A constant's value never holds `.F` or `.f`. */
  lemma ConstantValueHasNoDotF(init: Option<string>)
    ensures NoDotF(ConstantValue(init))
  {
    FixFloatSuffixLeavesNone(StripCast(init.GetOr("")));
  }

  /** A constant the extension header declared for macro `m` reads back under
      the name `m`. */
  lemma GeneratedVariableRoundTrip(ctx: Context, e: Element, m: string)
    requires Attr(e, "name") == Some(m + ExtensionHeader.VariableSuffix)
    requires ParseVariable(ctx, e).Success?
    ensures match ParseVariable(ctx, e).value
            case Some(GuidElement(g)) => g.name == m
            case Some(ConstantElement(c)) => c.name == m
            case _ => true
  {
    Enums.StripAppendedSuffix(m, ExtensionHeader.VariableSuffix);
  }
}

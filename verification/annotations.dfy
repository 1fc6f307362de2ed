/** `CppParser.ParseAnnotations` (SharpGen.Platform/CppParser.cs): the CastXML
    `attributes` text of a parameter, callable or interface, decoded into SAL
    parameter flags, a calling convention and a COM uuid. */
module Annotations {
  import opened Wrappers
  import opened Text
  import opened CppModel

  // ---------------------------------------------------------------------------
  // Removing blanks and quotes inside parentheses
  // ---------------------------------------------------------------------------

  /** Whether the scan drops `c` when `depth` parentheses are open. */
  predicate Dropped(c: char, depth: int) {
    c != '(' && c != ')' && depth > 0 && (IsWhiteSpace(c) || c == '"')
  }

  /** How the open-parenthesis count moves over `c`. */
  function DepthAfter(c: char, depth: int): int {
    if c == '(' then depth + 1 else if c == ')' then depth - 1 else depth
  }

  /** The scan over `s` starting with `depth` parentheses open. */
  function StripFrom(s: string, depth: int): (r: string)
    ensures |r| <= |s|
    decreases |s|
  {
    if |s| == 0 then ""
    else if Dropped(s[0], depth) then StripFrom(s[1..], DepthAfter(s[0], depth))
    else [s[0]] + StripFrom(s[1..], DepthAfter(s[0], depth))
  }

  function StripSpaces(s: string): string {
    StripFrom(s, 0)
  }

  /** One character of the scan. */
  lemma StripFromAt(s: string, i: nat, depth: int)
    requires i < |s|
    ensures StripFrom(s[i..], depth)
            == (if Dropped(s[i], depth) then "" else [s[i]]) + StripFrom(s[i + 1..], DepthAfter(s[i], depth))
  {
    assert s[i..][0] == s[i] && s[i..][1..] == s[i + 1..];
  }

  /** The character loop of the code, building the text with a
      `StringBuilder`. */
  method StripSpacesLoop(s: string) returns (r: string)
    ensures r == StripSpaces(s)
  {
    r := "";
    var depth := 0;
    var i := 0;
    StripStart(s);
    while i < |s|
      invariant StripInvariant(s, StripSpaces(s), r, i, depth)
    {
      r, depth := StripTurn(s, StripSpaces(s), r, i, depth);
      i := i + 1;
    }
    StripEnd(s, StripSpaces(s), r, depth);
  }

  /** The loop's invariant: what is built so far followed by the scan of the
      rest is the whole answer. */
  ghost predicate StripInvariant(s: string, goal: string, r: string, i: int, depth: int) {
    0 <= i <= |s| && r + StripFrom(s[i..], depth) == goal
  }

  lemma StripStart(s: string)
    ensures StripInvariant(s, StripSpaces(s), "", 0, 0)
  {
    assert s[0..] == s && "" + StripFrom(s, 0) == StripFrom(s, 0);
  }

  lemma StripEnd(s: string, goal: string, r: string, depth: int)
    requires StripInvariant(s, goal, r, |s|, depth)
    ensures r == goal
  {
    assert s[|s|..] == "" && r + "" == r;
  }

  /** One character of the loop. */
  method StripTurn(s: string, ghost goal: string, r: string, i: int, depth: int) returns (r': string, depth': int)
    requires StripInvariant(s, goal, r, i, depth) && i < |s|
    ensures StripInvariant(s, goal, r', i + 1, depth')
  {
    var c := s[i];
    StripFromAt(s, i, depth);
    var keep := true;
    depth' := depth;
    if c == '(' {
      depth' := depth + 1;
    } else if c == ')' {
      depth' := depth - 1;
    } else if depth > 0 && (IsWhiteSpace(c) || c == '"') {
      keep := false;
    }
    r' := r;
    if keep {
      assert (r + [c]) + StripFrom(s[i + 1..], depth') == r + ([c] + StripFrom(s[i + 1..], depth'));
      r' := r + [c];
    }
  }

  /** Stripping twice strips nothing more. */
  lemma {:induction false} StripFromIdempotent(s: string, depth: int)
    ensures StripFrom(StripFrom(s, depth), depth) == StripFrom(s, depth)
    decreases |s|
  {
    if |s| > 0 {
      StripFromIdempotent(s[1..], DepthAfter(s[0], depth));
      if !Dropped(s[0], depth) {
        var t := [s[0]] + StripFrom(s[1..], DepthAfter(s[0], depth));
        assert t[0] == s[0] && t[1..] == StripFrom(s[1..], DepthAfter(s[0], depth));
      }
    }
  }

  lemma StripSpacesIdempotent(s: string)
    ensures StripSpaces(StripSpaces(s)) == StripSpaces(s)
  {
    StripFromIdempotent(s, 0);
  }

  /** Text outside parentheses is kept: a text that never opens one comes
      back unchanged. */
  lemma {:induction false} StripFromKeepsUnparenthesized(s: string, depth: int)
    requires depth <= 0 && '(' !in s
    ensures StripFrom(s, depth) == s
    decreases |s|
  {
    if |s| > 0 {
      assert s[0] != '(' && '(' !in s[1..];
      StripFromKeepsUnparenthesized(s[1..], DepthAfter(s[0], depth));
      assert s == [s[0]] + s[1..];
    }
  }

  /** The open-parenthesis count after the scan has passed over `s`. */
  function DepthOver(s: string, depth: int): int
    decreases |s|
  {
    if |s| == 0 then depth else DepthOver(s[1..], DepthAfter(s[0], depth))
  }

  /** The scan of a concatenation is the scan of each part, the second
      starting with the parentheses the first left open. */
  lemma {:induction false} StripFromConcat(a: string, b: string, depth: int)
    ensures StripFrom(a + b, depth) == StripFrom(a, depth) + StripFrom(b, DepthOver(a, depth))
    decreases |a|
  {
    if |a| == 0 {
      assert a + b == b;
    } else {
      assert (a + b)[0] == a[0] && (a + b)[1..] == a[1..] + b;
      StripFromConcat(a[1..], b, DepthAfter(a[0], depth));
    }
  }

  /** A text without parentheses leaves the count where it was. */
  lemma {:induction false} DepthOverPlain(s: string, depth: int)
    requires '(' !in s && ')' !in s
    ensures DepthOver(s, depth) == depth
    decreases |s|
  {
    if |s| > 0 {
      assert s[0] != '(' && s[0] != ')' && '(' !in s[1..] && ')' !in s[1..];
      DepthOverPlain(s[1..], depth);
    }
  }

  /** Inside parentheses every blank and quote is removed and the rest is
      kept. */
  lemma {:induction false} StripFromInside(s: string, depth: int)
    requires depth > 0 && '(' !in s && ')' !in s
    ensures StripFrom(s, depth) == RemoveDroppable(s)
    decreases |s|
  {
    if |s| > 0 {
      assert s[0] != '(' && s[0] != ')' && '(' !in s[1..] && ')' !in s[1..];
      StripFromInside(s[1..], depth);
    }
  }

  /** One parenthesised group: the text before it is kept, the group loses
      its blanks and quotes, and the scan goes on after it from depth 0. */
  lemma StripSpacesGroup(a: string, b: string, c: string)
    requires '(' !in a && ')' !in a && '(' !in b && ')' !in b
    ensures StripSpaces(a + "(" + b + ")" + c) == a + "(" + RemoveDroppable(b) + ")" + StripSpaces(c)
  {
    var g := "(" + b + ")" + c;
    var h := "(" + RemoveDroppable(b) + ")" + StripSpaces(c);
    AssocFour(a, "(", b, ")", c);
    StripFromConcat(a, g, 0);
    StripFromKeepsUnparenthesized(a, 0);
    DepthOverPlain(a, 0);
    StripGroup(b, c);
    AssocFour(a, "(", RemoveDroppable(b), ")", StripSpaces(c));
  }

  lemma AssocFour(a: string, b: string, c: string, d: string, e: string)
    ensures a + b + c + d + e == a + (b + c + d + e)
  {
  }

  /** A group at depth 0, and what follows it. */
  lemma StripGroup(b: string, c: string)
    requires '(' !in b && ')' !in b
    ensures StripFrom("(" + b + ")" + c, 0) == "(" + RemoveDroppable(b) + ")" + StripFrom(c, 0)
  {
    var rest := b + (")" + c);
    StripOpen(b, c);
    StripFromConcat(b, ")" + c, 1);
    DepthOverPlain(b, 1);
    StripFromInside(b, 1);
    StripClose(c);
    assert "(" + (RemoveDroppable(b) + (")" + StripFrom(c, 0))) == "(" + RemoveDroppable(b) + ")" + StripFrom(c, 0);
  }

  lemma StripOpen(b: string, c: string)
    ensures StripFrom("(" + b + ")" + c, 0) == "(" + StripFrom(b + (")" + c), 1)
  {
    var t := "(" + b + ")" + c;
    assert t[0] == '(' && t[1..] == b + (")" + c);
  }

  lemma StripClose(c: string)
    ensures StripFrom(")" + c, 1) == ")" + StripFrom(c, 0)
  {
    var t := ")" + c;
    assert t[0] == ')' && t[1..] == c;
  }

  /** Only blanks and quotes inside parentheses are removed: every character
      the scan keeps and every parenthesis survive, in order. */
  lemma {:induction false} StripFromKeepsParentheses(s: string, depth: int)
    ensures RemoveDroppable(StripFrom(s, depth)) == RemoveDroppable(s)
    decreases |s|
  {
    if |s| > 0 {
      StripFromKeepsParentheses(s[1..], DepthAfter(s[0], depth));
      if !Dropped(s[0], depth) {
        var t := [s[0]] + StripFrom(s[1..], DepthAfter(s[0], depth));
        assert t[0] == s[0] && t[1..] == StripFrom(s[1..], DepthAfter(s[0], depth));
      }
    }
  }

  /** `s` without any blank or quote. */
  function RemoveDroppable(s: string): (r: string)
    ensures forall i :: 0 <= i < |r| ==> !IsWhiteSpace(r[i]) && r[i] != '"'
    decreases |s|
  {
    if |s| == 0 then ""
    else if IsWhiteSpace(s[0]) || s[0] == '"' then RemoveDroppable(s[1..])
    else [s[0]] + RemoveDroppable(s[1..])
  }

  // ---------------------------------------------------------------------------
  // The token state machine
  // ---------------------------------------------------------------------------

  /** The state of the token loop: SAL pre/post context, whether a writable
      range was seen, the begin/end nesting and whether it went negative, and
      what was collected so far. */
  datatype SalScan = SalScan(
    isPre: bool,
    isPost: bool,
    hasWritable: bool,
    block: int,
    blockBroken: bool,
    flags: set<ParamFlag>,
    callingConvention: Option<CallingConvention>,
    guid: Option<string>)

  const Start: SalScan := SalScan(false, false, false, 0, false, {}, None, None)

  const AnnotatePrefix: string := "annotate("

  /** A token with a leading `annotate(` removed. */
  function DropAnnotate(token: string): (w: string)
    ensures StartsWith(token, AnnotatePrefix) ==> token == AnnotatePrefix + w
    ensures !StartsWith(token, AnnotatePrefix) ==> w == token
  {
    if StartsWith(token, AnnotatePrefix) then token[|AnnotatePrefix|..] else token
  }

  predicate IsRange(w: string) {
    StartsWith(w, "SAL_readableTo") || StartsWith(w, "SAL_writableTo")
  }

  /** A range of one element is not a buffer. */
  predicate IsSingleElement(w: string) {
    Contains(w, "SPECSTRINGIZE(1)") || Contains(w, "elementCount(1)")
  }

  predicate IsOptional(w: string) {
    StartsWith(w, "SAL_maybenull") || (StartsWith(w, "SAL_null") && Contains(w, "__maybe"))
  }

  /** `Trim(')').Substring(5).Trim('"', '{', '}')` on a `uuid(` token. */
  function UuidText(w: string): string
    requires StartsWith(w, "uuid(")
  {
    var t := Trim(w, {')'});
    assert w[4] == '(';
    assert StartsWith(t, "uuid(");
    Trim(t[5..], {'"', '{', '}'})
  }

  /** One token of the `else if` chain. */
  function Step(t: SalScan, token: string): SalScan {
    var w := DropAnnotate(token);
    if StartsWith(w, "SAL_begin") then t.(block := t.block + 1)
    else if StartsWith(w, "SAL_end") then t.(block := t.block - 1, blockBroken := t.blockBroken || t.block <= 0)
    else if StartsWith(w, "SAL_pre") then t.(isPre := true, isPost := false)
    else if StartsWith(w, "SAL_post") then t.(isPre := false, isPost := true)
    else if t.isPost && StartsWith(w, "SAL_valid") then t.(flags := t.flags + {Out})
    else if IsOptional(w) then t.(flags := t.flags + {Optional})
    else if IsRange(w) then
      var writable := StartsWith(w, "SAL_writableTo");
      var f1 := if writable && t.isPre then t.flags + {Out} else t.flags;
      var f2 := if !IsSingleElement(w) then f1 + {Buffer} else f1;
      t.(flags := f2, hasWritable := t.hasWritable || writable)
    else if StartsWith(w, "__stdcall__") then t.(callingConvention := Some(StdCall))
    else if StartsWith(w, "__cdecl__") then t.(callingConvention := Some(CDecl))
    else if StartsWith(w, "__thiscall__") then t.(callingConvention := Some(ThisCall))
    else if StartsWith(w, "uuid(") then t.(guid := Some(UuidText(w)))
    else t
  }

  /** The loop over the space-separated tokens. */
  function Scan(tokens: seq<string>): SalScan
    decreases |tokens|
  {
    if |tokens| == 0 then Start
    else Step(Scan(tokens[..|tokens| - 1]), tokens[|tokens| - 1])
  }

  /** The tokens of a non-blank attribute text. */
  function Tokens(attributes: string): seq<string> {
    Split(StripSpaces(attributes), ' ')
  }

  /** The decoder: nothing at all for a missing or blank attribute text. */
  function Decode(attributes: Option<string>): (r: Option<SalScan>)
    ensures r.None? <==> IsNullOrWhiteSpace(attributes)
  {
    if IsNullOrWhiteSpace(attributes) then None else Some(Scan(Tokens(attributes.value)))
  }

  /** The block nesting the code warns about: an end without a begin, or a
      begin left open. */
  predicate BlockMismatch(t: SalScan) {
    t.blockBroken || t.block != 0
  }

  /** The flags a parameter receives: In when no writable range was seen,
      and In together with Out replaced by InOut. */
  function ParamFlags(t: SalScan): (r: set<ParamFlag>)
    ensures !(In in r && Out in r)
  {
    var f := if !t.hasWritable then t.flags + {In} else t.flags;
    if In in f && Out in f then f - {In, Out} + {InOut} else f
  }

  // ---------------------------------------------------------------------------
  // Applying the result to the element being annotated
  // ---------------------------------------------------------------------------

  /** A parameter receives only its flags; a blank text leaves it untouched. */
  function AnnotateParameter(p: CppParameter, attributes: Option<string>): (r: CppParameter)
    ensures r.name == p.name && r.paramType == p.paramType
    ensures IsNullOrWhiteSpace(attributes) ==> r == p
    ensures !IsNullOrWhiteSpace(attributes) ==> r.attribute == ParamFlags(Decode(attributes).value)
  {
    match Decode(attributes)
    case None => p
    case Some(t) => p.(attribute := ParamFlags(t))
  }

  /** A function or method receives only a calling convention, and only when
      a token named one. */
  function AnnotateCallable(c: CppCallable, attributes: Option<string>): (r: CppCallable)
    ensures r.name == c.name && r.parameters == c.parameters && r.returnValue == c.returnValue
    ensures Decode(attributes).Some? && Decode(attributes).value.callingConvention.Some? ==>
              r.callingConvention == Decode(attributes).value.callingConvention
    ensures (Decode(attributes).None? || Decode(attributes).value.callingConvention.None?) ==> r == c
  {
    match Decode(attributes)
    case None => c
    case Some(t) => if t.callingConvention.Some? then c.(callingConvention := t.callingConvention) else c
  }

  /** An interface receives only a guid, and only when a `uuid(` token was seen. */
  function AnnotateInterface(i: CppInterface, attributes: Option<string>): (r: CppInterface)
    ensures r.name == i.name && r.base == i.base && r.methods == i.methods && r.totalMethodCount == i.totalMethodCount
    ensures Decode(attributes).Some? && Decode(attributes).value.guid.Some? ==> r.guid == Decode(attributes).value.guid
    ensures (Decode(attributes).None? || Decode(attributes).value.guid.None?) ==> r == i
  {
    match Decode(attributes)
    case None => i
    case Some(t) => if t.guid.Some? then i.(guid := t.guid) else i
  }

  // ---------------------------------------------------------------------------
  // What the scan computes, token by token
  // ---------------------------------------------------------------------------

  /** Some token is a writable range. */
  predicate AnyWritable(tokens: seq<string>) {
    AnyToken(tokens, IsWritableToken)
  }

  predicate IsWritableToken(token: string) {
    StartsWith(DropAnnotate(token), "SAL_writableTo")
  }

  predicate IsBufferToken(token: string) {
    IsRange(DropAnnotate(token)) && !IsSingleElement(DropAnnotate(token))
  }

  predicate AnyToken(tokens: seq<string>, p: string -> bool) {
    exists i :: 0 <= i < |tokens| && p(tokens[i])
  }

  /** Some token is a range of more than one element. */
  predicate AnyBuffer(tokens: seq<string>) {
    AnyToken(tokens, IsBufferToken)
  }

  /** A range token is never taken by an earlier branch of the chain. */
  lemma RangeReachesItsBranch(w: string)
    requires IsRange(w)
    ensures !StartsWith(w, "SAL_begin") && !StartsWith(w, "SAL_end") && !StartsWith(w, "SAL_pre")
    ensures !StartsWith(w, "SAL_post") && !StartsWith(w, "SAL_valid") && !IsOptional(w)
  {
    assert w[4] == 'r' || w[4] == 'w';
  }

  /** The flags one token adds in state `t`. */
  function Added(t: SalScan, w: string): set<ParamFlag> {
    if StartsWith(w, "SAL_begin") then {}
    else if StartsWith(w, "SAL_end") then {}
    else if StartsWith(w, "SAL_pre") then {}
    else if StartsWith(w, "SAL_post") then {}
    else if t.isPost && StartsWith(w, "SAL_valid") then {Out}
    else if IsOptional(w) then {Optional}
    else if IsRange(w) then
      (if StartsWith(w, "SAL_writableTo") && t.isPre then {Out} else {})
      + (if !IsSingleElement(w) then {Buffer} else {})
    else {}
  }

  /** What one step does to the flags and to the writable mark. */
  lemma StepFlags(t: SalScan, token: string)
    ensures Step(t, token).flags == t.flags + Added(t, DropAnnotate(token))
    ensures Step(t, token).hasWritable <==> t.hasWritable || StartsWith(DropAnnotate(token), "SAL_writableTo")
  {
    StepWritable(t, token);
    var w := DropAnnotate(token);
    if IsRange(w) {
      RangeReachesItsBranch(w);
      StepRangeFlags(t, token);
    } else {
      StepOtherFlags(t, token);
    }
  }

  lemma StepRangeFlags(t: SalScan, token: string)
    requires IsRange(DropAnnotate(token))
    requires !StartsWith(DropAnnotate(token), "SAL_begin") && !StartsWith(DropAnnotate(token), "SAL_end")
    requires !StartsWith(DropAnnotate(token), "SAL_pre") && !StartsWith(DropAnnotate(token), "SAL_post")
    requires !StartsWith(DropAnnotate(token), "SAL_valid") && !IsOptional(DropAnnotate(token))
    ensures Step(t, token).flags == t.flags + Added(t, DropAnnotate(token))
  {
  }

  lemma StepOtherFlags(t: SalScan, token: string)
    requires !IsRange(DropAnnotate(token))
    ensures Step(t, token).flags == t.flags + Added(t, DropAnnotate(token))
  {
    var w := DropAnnotate(token);
    if StartsWith(w, "SAL_begin") || StartsWith(w, "SAL_end") || StartsWith(w, "SAL_pre") || StartsWith(w, "SAL_post") {
    } else if t.isPost && StartsWith(w, "SAL_valid") {
    } else if IsOptional(w) {
    } else {
      assert Added(t, w) == {};
      StepKeepsFlags(t, token);
    }
  }

  /** The calling-convention and uuid branches, and an unknown token, leave
      the flags alone. */
  lemma StepKeepsFlags(t: SalScan, token: string)
    requires !StartsWith(DropAnnotate(token), "SAL_begin") && !StartsWith(DropAnnotate(token), "SAL_end")
    requires !StartsWith(DropAnnotate(token), "SAL_pre") && !StartsWith(DropAnnotate(token), "SAL_post")
    requires !(t.isPost && StartsWith(DropAnnotate(token), "SAL_valid")) && !IsOptional(DropAnnotate(token))
    requires !IsRange(DropAnnotate(token))
    ensures Step(t, token).flags == t.flags
  {
    var w := DropAnnotate(token);
    if StartsWith(w, "__stdcall__") || StartsWith(w, "__cdecl__") || StartsWith(w, "__thiscall__") {
    } else if StartsWith(w, "uuid(") {
      assert Step(t, token) == t.(guid := Some(UuidText(w)));
    } else {
      assert Step(t, token) == t;
    }
  }

  lemma StepWritable(t: SalScan, token: string)
    ensures Step(t, token).hasWritable <==> t.hasWritable || StartsWith(DropAnnotate(token), "SAL_writableTo")
  {
    var w := DropAnnotate(token);
    if StartsWith(w, "SAL_writableTo") {
      RangeReachesItsBranch(w);
    }
  }

  lemma AddedFacts(t: SalScan, w: string)
    ensures In !in Added(t, w) && InOut !in Added(t, w)
    ensures Buffer in Added(t, w) <==> IsRange(w) && !IsSingleElement(w)
  {
    if IsRange(w) {
      RangeReachesItsBranch(w);
    }
  }

  /** Whether a writable range was seen, and whether Buffer was set, are
      exactly "some token says so". */
  lemma ScanRanges(tokens: seq<string>)
    ensures Scan(tokens).hasWritable <==> AnyWritable(tokens)
    ensures Buffer in Scan(tokens).flags <==> AnyBuffer(tokens)
  {
    ScanWritable(tokens);
    ScanBuffer(tokens);
  }

  /** Some token of a non-empty list qualifies iff the last one or one
      before it does. */
  lemma AnyTokenLast(tokens: seq<string>, p: string -> bool)
    requires |tokens| > 0
    ensures AnyToken(tokens, p) <==> AnyToken(tokens[..|tokens| - 1], p) || p(tokens[|tokens| - 1])
  {
    var prefix := tokens[..|tokens| - 1];
    if AnyToken(prefix, p) {
      var i :| 0 <= i < |prefix| && p(prefix[i]);
      assert tokens[i] == prefix[i];
    }
    if AnyToken(tokens, p) && !p(tokens[|tokens| - 1]) {
      var i :| 0 <= i < |tokens| && p(tokens[i]);
      assert i < |prefix| && prefix[i] == tokens[i];
    }
  }

  lemma {:induction false} ScanWritable(tokens: seq<string>)
    ensures Scan(tokens).hasWritable <==> AnyWritable(tokens)
    decreases |tokens|
  {
    if |tokens| > 0 {
      var prefix := tokens[..|tokens| - 1];
      ScanWritable(prefix);
      StepWritable(Scan(prefix), tokens[|tokens| - 1]);
      AnyTokenLast(tokens, IsWritableToken);
    }
  }

  lemma {:induction false} ScanBuffer(tokens: seq<string>)
    ensures Buffer in Scan(tokens).flags <==> AnyBuffer(tokens)
    decreases |tokens|
  {
    if |tokens| > 0 {
      var prefix := tokens[..|tokens| - 1];
      var last := tokens[|tokens| - 1];
      ScanBuffer(prefix);
      StepFlags(Scan(prefix), last);
      AddedFacts(Scan(prefix), DropAnnotate(last));
      AnyTokenLast(tokens, IsBufferToken);
    }
  }

  /** Flags are only ever added. */
  lemma {:induction false} ScanFlagsGrow(tokens: seq<string>, j: nat)
    requires j <= |tokens|
    ensures Scan(tokens[..j]).flags <= Scan(tokens).flags
    decreases |tokens|
  {
    if j < |tokens| {
      var prefix := tokens[..|tokens| - 1];
      assert prefix[..j] == tokens[..j];
      ScanFlagsGrow(prefix, j);
      StepFlags(Scan(prefix), tokens[|tokens| - 1]);
    } else {
      assert tokens[..j] == tokens;
    }
  }

  /** A writable range in pre-context makes the parameter an output. */
  lemma WritableInPreSetsOut(tokens: seq<string>, i: nat)
    requires i < |tokens|
    requires Scan(tokens[..i]).isPre && StartsWith(DropAnnotate(tokens[i]), "SAL_writableTo")
    ensures Out in Scan(tokens).flags
  {
    ScanPrefixStep(tokens, i);
    WritableInPreStep(Scan(tokens[..i]), tokens[i]);
    ScanFlagsGrow(tokens, i + 1);
  }

  lemma WritableInPreStep(t: SalScan, token: string)
    requires t.isPre && StartsWith(DropAnnotate(token), "SAL_writableTo")
    ensures Out in Step(t, token).flags
  {
    StepFlags(t, token);
    WritableInPreAdded(t, DropAnnotate(token));
  }

  /** The scan of one more token is one more step. */
  lemma ScanPrefixStep(tokens: seq<string>, i: nat)
    requires i < |tokens|
    ensures Scan(tokens[..i + 1]) == Step(Scan(tokens[..i]), tokens[i])
  {
    assert tokens[..i + 1][..i] == tokens[..i];
  }

  lemma WritableInPreAdded(t: SalScan, w: string)
    requires t.isPre && StartsWith(w, "SAL_writableTo")
    ensures Out in Added(t, w)
  {
    RangeReachesItsBranch(w);
  }

  /** The decoded parameter flags: In exactly when no token is a writable
      range and nothing made the parameter an output; InOut exactly when no
      token is writable but something made it an output; Buffer exactly when
      some range is longer than one element. */
  lemma ParamFlagsMeaning(tokens: seq<string>)
    ensures In in ParamFlags(Scan(tokens)) <==> !AnyWritable(tokens) && Out !in Scan(tokens).flags
    ensures InOut in ParamFlags(Scan(tokens)) <==> !AnyWritable(tokens) && Out in Scan(tokens).flags
    ensures Out in ParamFlags(Scan(tokens)) <==> AnyWritable(tokens) && Out in Scan(tokens).flags
    ensures Buffer in ParamFlags(Scan(tokens)) <==> AnyBuffer(tokens)
    ensures Optional in ParamFlags(Scan(tokens)) <==> Optional in Scan(tokens).flags
  {
    ScanRanges(tokens);
    ScanNeverInOut(tokens);
  }

  /** The scan itself never sets In or InOut; only the final step does. */
  lemma {:induction false} ScanNeverInOut(tokens: seq<string>)
    ensures In !in Scan(tokens).flags && InOut !in Scan(tokens).flags
    decreases |tokens|
  {
    if |tokens| > 0 {
      var prefix := tokens[..|tokens| - 1];
      ScanNeverInOut(prefix);
      StepFlags(Scan(prefix), tokens[|tokens| - 1]);
      AddedFacts(Scan(prefix), DropAnnotate(tokens[|tokens| - 1]));
    }
  }

  /** The calling convention is the one named by the last token that names one. */
  function LastConvention(tokens: seq<string>): Option<CallingConvention>
    decreases |tokens|
  {
    if |tokens| == 0 then None
    else
      var w := DropAnnotate(tokens[|tokens| - 1]);
      if IsConventionToken(w) then Some(ConventionOf(w))
      else LastConvention(tokens[..|tokens| - 1])
  }

  predicate IsConventionToken(w: string) {
    StartsWith(w, "__stdcall__") || StartsWith(w, "__cdecl__") || StartsWith(w, "__thiscall__")
  }

  function ConventionOf(w: string): CallingConvention
    requires IsConventionToken(w)
  {
    if StartsWith(w, "__stdcall__") then StdCall
    else if StartsWith(w, "__cdecl__") then CDecl
    else ThisCall
  }

  lemma ConventionReachesItsBranch(w: string)
    requires IsConventionToken(w)
    ensures !StartsWith(w, "SAL_begin") && !StartsWith(w, "SAL_end") && !StartsWith(w, "SAL_pre")
    ensures !StartsWith(w, "SAL_post") && !StartsWith(w, "SAL_valid") && !IsOptional(w) && !IsRange(w)
  {
    assert w[0] == '_';
  }

  lemma {:induction false} ScanConvention(tokens: seq<string>)
    ensures Scan(tokens).callingConvention == LastConvention(tokens)
    decreases |tokens|
  {
    if |tokens| > 0 {
      ScanConvention(tokens[..|tokens| - 1]);
      var w := DropAnnotate(tokens[|tokens| - 1]);
      if IsConventionToken(w) {
        ConventionReachesItsBranch(w);
      }
    }
  }

  /** A pre-context writable range of one element: Out, no In, no Buffer;
      the result of `_Out_` on a parameter. */
  lemma OutParameter(a: string, b: string)
    requires a == "SAL_pre" && b == "SAL_writableTo(elementCount(1))"
    ensures ParamFlags(Scan([a, b])) == {Out}
  {
    ScanTwoTokens(a, b);
    PreOnly(a);
    WritableToOneElement(b);
    WritableSingleInPre(Scan([a]), b);
  }

  lemma ScanTwoTokens(a: string, b: string)
    ensures Scan([a, b]) == Step(Scan([a]), b)
  {
    assert [a, b][..1] == [a];
  }

  lemma WritableToOneElement(b: string)
    requires b == "SAL_writableTo(elementCount(1))"
    ensures StartsWith(DropAnnotate(b), "SAL_writableTo") && IsSingleElement(DropAnnotate(b))
  {
    assert b[0] == 'S';
    assert DropAnnotate(b) == b;
    assert Contains(b, "elementCount(1)") by {
      assert b[15..30] == "elementCount(1)";
      ContainsAt(b, "elementCount(1)", 15);
    }
  }

  /** A writable range of one element in pre-context adds Out and marks the
      parameter writable. */
  lemma WritableSingleInPre(t: SalScan, token: string)
    requires t.isPre && StartsWith(DropAnnotate(token), "SAL_writableTo") && IsSingleElement(DropAnnotate(token))
    ensures Step(t, token).flags == t.flags + {Out} && Step(t, token).hasWritable
  {
    StepFlags(t, token);
    assert Added(t, DropAnnotate(token)) == {Out} by {
      RangeReachesItsBranch(DropAnnotate(token));
    }
  }

  /** `SAL_pre` alone enters pre-context and sets nothing. */
  lemma PreOnly(a: string)
    requires a == "SAL_pre"
    ensures Scan([a]) == Start.(isPre := true)
  {
    assert [a][..0] == [];
    assert a[0] == 'S' && a[4] == 'p';
    assert DropAnnotate(a) == a;
    assert !StartsWith(a, "SAL_end") && StartsWith(a, "SAL_pre");
    assert Scan([a]) == Step(Start, a);
  }

  /** `SAL_pre` and nothing else gives exactly In: a parameter that is only
      read. */
  lemma PlainInParameter(a: string)
    requires a == "SAL_pre"
    ensures ParamFlags(Scan([a])) == {In}
  {
    PreOnly(a);
  }

  lemma {:induction false} ContainsAt(s: string, sub: string, k: nat)
    requires k + |sub| <= |s| && s[k..k + |sub|] == sub
    ensures Contains(s, sub)
    decreases k
  {
    if k > 0 {
      assert s[1..][k - 1..k - 1 + |sub|] == s[k..k + |sub|];
      ContainsAt(s[1..], sub, k - 1);
    }
  }
}

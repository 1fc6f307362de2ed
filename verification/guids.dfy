/** `CppParser.ParseGuid` (SharpGen.Platform/CppParser.cs): the GUID in the
    initializer CastXML prints for a `GUID` variable, e.g.
    `{-1135593225ul, 9184u, 18784u, {150u, 218u, 51u, 171u, 175u, 89u, 53u, 236u}}`.
    The braces, the integer suffixes and the blanks are removed, the rest is
    split at commas into exactly eleven numbers, and those become the fields
    of `new Guid(int, short, short, byte × 8)`, kept here as the sixteen bytes
    of `Guid.ToByteArray`. */
module Guids {
  import opened Wrappers
  import opened Text

  /** The text after the braces and suffixes are removed: every `{`, the
      trailing `}`s, then every `u`, `U`, `l`, `L` and blank. */
  function Clean(text: string): string {
    RemoveSuffixLetters(TrimEnd(RemoveChar(text, '{'), {'}'}))
  }

  /** Every `u`, `U`, `l`, `L` and blank removed, in that order. */
  function RemoveSuffixLetters(t: string): string {
    RemoveChar(RemoveChar(RemoveChar(RemoveChar(RemoveChar(t, 'u'), 'U'), 'l'), 'L'), ' ')
  }

  /** `long.TryParse` of every piece. */
  function Reads(parts: seq<string>): (r: seq<Option<int>>)
    ensures |r| == |parts|
  {
    seq(|parts|, i requires 0 <= i < |parts| => ParseInt64(parts[i]))
  }

  /** The values, each truncated to `int`, or `None` as soon as one piece
      did not parse. */
  function Collect(os: seq<Option<int>>): (r: Option<seq<int>>)
    ensures r.Some? ==> |r.value| == |os|
    decreases |os|
  {
    if |os| == 0 then Some([])
    else
      match os[0]
      case None => None
      case Some(v) =>
        match Collect(os[1..])
        case None => None
        case Some(vs) => Some([Wrap32(v)] + vs)
  }

  /** The eleven fields of `ParseGuid`'s loop. */
  function ParseFields(parts: seq<string>): (r: Option<seq<int>>)
    ensures r.Some? ==> |r.value| == |parts|
  {
    Collect(Reads(parts))
  }

  /** Field `i` of a successful collection is value `i` truncated. */
  lemma {:induction false} CollectAt(os: seq<Option<int>>, i: nat)
    requires Collect(os).Some? && i < |os|
    ensures os[i].Some? && Collect(os).value[i] == Wrap32(os[i].value)
    decreases |os|
  {
    if i > 0 {
      CollectAt(os[1..], i - 1);
      assert os[1..][i - 1] == os[i];
    }
  }

  /** The collection fails exactly when some value is missing. */
  lemma {:induction false} CollectFails(os: seq<Option<int>>)
    ensures Collect(os).None? <==> exists i :: 0 <= i < |os| && os[i].None?
    decreases |os|
  {
    if |os| > 0 {
      CollectFails(os[1..]);
      if os[0].Some? && Collect(os[1..]).None? {
        var j :| 0 <= j < |os[1..]| && os[1..][j].None?;
        assert os[j + 1].None?;
      }
      if Collect(os).Some? {
        forall i | 0 <= i < |os|
          ensures os[i].Some?
        {
          CollectAt(os, i);
        }
      }
    }
  }

  /** Field `i` of a successful parse is piece `i` read as a `long` and
      truncated to `int`. */
  lemma ParseFieldsAt(parts: seq<string>, i: nat)
    requires ParseFields(parts).Some? && i < |parts|
    ensures ParseInt64(parts[i]).Some?
    ensures ParseFields(parts).value[i] == Wrap32(ParseInt64(parts[i]).value)
  {
    CollectAt(Reads(parts), i);
  }

  /** The parse fails exactly when some piece is not a `long`. */
  lemma ParseFieldsFails(parts: seq<string>)
    ensures ParseFields(parts).None? <==> exists j :: 0 <= j < |parts| && ParseInt64(parts[j]).None?
  {
    var os := Reads(parts);
    CollectFails(os);
    if ParseFields(parts).None? {
      var j :| 0 <= j < |os| && os[j].None?;
      assert ParseInt64(parts[j]).None?;
    } else {
      forall j | 0 <= j < |parts|
        ensures ParseInt64(parts[j]).Some?
      {
        assert os[j].Some?;
      }
    }
  }

  /** The `n` low bytes of `x` in two's complement, least significant first. */
  function LittleEndian(x: int, n: nat): (r: seq<int>)
    ensures |r| == n
    ensures forall i :: 0 <= i < n ==> 0 <= r[i] < 256
    decreases n
  {
    if n == 0 then [] else [x % 256] + LittleEndian(x / 256, n - 1)
  }

  /** `new Guid(a, (short)b, (short)c, (byte)d, …, (byte)k).ToByteArray()`. */
  function GuidBytes(vs: seq<int>): (r: seq<int>)
    requires |vs| == 11
    ensures |r| == 16
    ensures r[..4] == LittleEndian(vs[0], 4)
    ensures r[4..6] == LittleEndian(Wrap16(vs[1]), 2) && r[6..8] == LittleEndian(Wrap16(vs[2]), 2)
    ensures forall i :: 8 <= i < 16 ==> r[i] == LowByte(vs[i - 5])
  {
    LittleEndian(vs[0], 4) + LittleEndian(Wrap16(vs[1]), 2) + LittleEndian(Wrap16(vs[2]), 2)
    + seq(8, i requires 0 <= i < 8 => LowByte(vs[3 + i]))
  }

  /** `ParseGuid`. Only a text that neither starts with `{` nor ends with `}}`
      is turned away before it is cleaned. */
  function ParseGuid(text: string): (r: Option<seq<int>>)
    ensures r.Some? ==> |r.value| == 16
    ensures !StartsWith(text, "{") && !EndsWith(text, "}}") ==> r.None?
    ensures r.Some? ==> |Split(Clean(text), ',')| == 11 && ParseFields(Split(Clean(text), ',')).Some?
    ensures r.Some? ==> r.value == GuidBytes(ParseFields(Split(Clean(text), ',')).value)
    ensures (&& (StartsWith(text, "{") || EndsWith(text, "}}"))
             && |Split(Clean(text), ',')| == 11
             && ParseFields(Split(Clean(text), ',')).Some?) ==> r.Some?
  {
    if !StartsWith(text, "{") && !EndsWith(text, "}}") then None
    else
      var parts := Split(Clean(text), ',');
      if |parts| != 11 then None
      else
        var vs :- ParseFields(parts);
        Some(GuidBytes(vs))
  }

  // ---------------------------------------------------------------------------
  // Round trip with CastXML's initializer
  // ---------------------------------------------------------------------------

  /** The pieces of CastXML's initializer from field `i` on: each number with
      its suffix, separated by `, ` and with the `{` of the byte group before
      the fourth. */
  function Items(vs: seq<int>, i: nat): string
    decreases |vs| - i
  {
    if i >= |vs| then ""
    else
      IntToString(vs[i]) + (if i == 0 then "ul" else "u") + Separator(vs, i) + Items(vs, i + 1)
  }

  /** CastXML's initializer for the fields `vs`. */
  function InitText(vs: seq<int>): string {
    "{" + Items(vs, 0) + "}}"
  }

  /** The numbers of `vs` as text. */
  function Numbers(vs: seq<int>): (r: seq<string>)
    ensures |r| == |vs|
  {
    seq(|vs|, i requires 0 <= i < |vs| => IntToString(vs[i]))
  }

  /** The characters `Clean` removes everywhere. */
  const Removed: set<char> := {'{', 'u', 'U', 'l', 'L', ' '}

  /** `s` without the removed characters. */
  function Strip(s: string): (r: string)
    ensures forall i :: 0 <= i < |r| ==> r[i] !in Removed
    decreases |s|
  {
    if |s| == 0 then "" else (if s[0] in Removed then "" else [s[0]]) + Strip(s[1..])
  }

  /** The removals one after the other. */
  function RemoveEach(s: string): string {
    RemoveSuffixLetters(RemoveChar(s, '{'))
  }

  lemma {:induction false} RemoveCharConcat(a: string, b: string, c: char)
    ensures RemoveChar(a + b, c) == RemoveChar(a, c) + RemoveChar(b, c)
    decreases |a|
  {
    if |a| > 0 {
      RemoveCharConcat(a[1..], b, c);
      assert (a + b)[1..] == a[1..] + b;
    } else {
      assert a + b == b;
    }
  }

  lemma {:induction false} RemoveCharKeeps(s: string, c: char, x: char)
    requires x !in s
    ensures x !in RemoveChar(s, c)
    decreases |s|
  {
    if |s| > 0 {
      RemoveCharKeeps(s[1..], c, x);
    }
  }

  lemma {:induction false} RemoveCharAbsent(s: string, c: char)
    requires c !in s
    ensures RemoveChar(s, c) == s
    decreases |s|
  {
    if |s| > 0 {
      RemoveCharAbsent(s[1..], c);
    }
  }

  lemma RemoveEachConcat(a: string, b: string)
    ensures RemoveEach(a + b) == RemoveEach(a) + RemoveEach(b)
  {
    var a1, b1 := RemoveChar(a, '{'), RemoveChar(b, '{');
    RemoveCharConcat(a, b, '{');
    var a2, b2 := RemoveChar(a1, 'u'), RemoveChar(b1, 'u');
    RemoveCharConcat(a1, b1, 'u');
    var a3, b3 := RemoveChar(a2, 'U'), RemoveChar(b2, 'U');
    RemoveCharConcat(a2, b2, 'U');
    var a4, b4 := RemoveChar(a3, 'l'), RemoveChar(b3, 'l');
    RemoveCharConcat(a3, b3, 'l');
    var a5, b5 := RemoveChar(a4, 'L'), RemoveChar(b4, 'L');
    RemoveCharConcat(a4, b4, 'L');
    RemoveCharConcat(a5, b5, ' ');
  }

  /** Removing the characters one kind at a time is removing them all at once. */
  lemma {:induction false} RemoveEachIsStrip(s: string)
    ensures RemoveEach(s) == Strip(s)
    decreases |s|
  {
    if |s| > 0 {
      RemoveEachIsStrip(s[1..]);
      RemoveEachConcat([s[0]], s[1..]);
      assert [s[0]] + s[1..] == s;
    }
  }

  lemma {:induction false} StripConcat(a: string, b: string)
    ensures Strip(a + b) == Strip(a) + Strip(b)
    decreases |a|
  {
    if |a| > 0 {
      StripConcat(a[1..], b);
      assert (a + b)[1..] == a[1..] + b;
    } else {
      assert a + b == b;
    }
  }

  /** Only digits and a leading minus. */
  predicate NumberText(s: string) {
    forall i :: 0 <= i < |s| ==> s[i] == '-' || IsDigit(s[i])
  }

  lemma NumberTextOfInt(v: int)
    ensures NumberText(IntToString(v))
  {
  }

  lemma {:induction false} StripNumber(s: string)
    requires NumberText(s)
    ensures Strip(s) == s
    decreases |s|
  {
    if |s| > 0 {
      StripNumber(s[1..]);
    }
  }

  lemma StripSeparators()
    ensures Strip("ul") == "" && Strip("u") == ""
    ensures Strip(", ") == "," && Strip(", {") == ","
  {
    assert ", "[1..] == " " && " "[1..] == "";
    assert ", {"[1..] == " {" && " {"[1..] == "{" && "{"[1..] == "";
    assert "ul"[1..] == "l" && "l"[1..] == "";
  }

  /** Stripping the pieces from field `i` on leaves the numbers joined by
      commas. */
  /** The separator after field `i`. */
  function Separator(vs: seq<int>, i: nat): string {
    if i + 1 < |vs| then (if i == 2 then ", {" else ", ") else ""
  }

  /** One number with its suffix and separator strips to the number and, if
      more follow, a comma. */
  lemma StripPiece(v: int, suffix: string, sep: string)
    requires suffix == "ul" || suffix == "u"
    requires sep == ", {" || sep == ", " || sep == ""
    ensures Strip(IntToString(v) + suffix + sep) == IntToString(v) + (if sep == "" then "" else ",")
    ensures '}' !in IntToString(v) + suffix + sep
  {
    var num := IntToString(v);
    NumberTextOfInt(v);
    StripNumber(num);
    StripSeparators();
    StripConcat(num + suffix, sep);
    StripConcat(num, suffix);
    assert Strip(suffix) == "";
    assert Strip(num + suffix) == num;
    assert '}' !in num;
  }

  /** Stripping the pieces from field `i` on leaves the numbers joined by
      commas. */
  lemma {:induction false} StripItems(vs: seq<int>, i: nat)
    requires i < |vs|
    ensures Strip(Items(vs, i)) == Join(Numbers(vs)[i..], ',')
    ensures '}' !in Items(vs, i)
    decreases |vs| - i
  {
    if i + 1 < |vs| {
      StripItems(vs, i + 1);
      StripItemsStep(vs, i);
    } else {
      StripItemsLast(vs, i);
    }
  }

  /** The last field: its number, with nothing after it. */
  lemma StripItemsLast(vs: seq<int>, i: nat)
    requires i + 1 == |vs|
    ensures Strip(Items(vs, i)) == Join(Numbers(vs)[i..], ',')
    ensures '}' !in Items(vs, i)
  {
    var num := IntToString(vs[i]);
    var piece := num + (if i == 0 then "ul" else "u") + "";
    assert Separator(vs, i) == "" && Items(vs, i + 1) == "";
    assert Items(vs, i) == piece + "";
    assert piece + "" == piece;
    StripPiece(vs[i], if i == 0 then "ul" else "u", "");
    assert Numbers(vs)[i..] == [num];
  }

  /** A field followed by more: its number, a comma, then the rest. */
  lemma StripItemsStep(vs: seq<int>, i: nat)
    requires i + 1 < |vs|
    requires Strip(Items(vs, i + 1)) == Join(Numbers(vs)[i + 1..], ',')
    requires '}' !in Items(vs, i + 1)
    ensures Strip(Items(vs, i)) == Join(Numbers(vs)[i..], ',')
    ensures '}' !in Items(vs, i)
  {
    var num := IntToString(vs[i]);
    var piece := num + (if i == 0 then "ul" else "u") + Separator(vs, i);
    var rest := Items(vs, i + 1);
    assert Items(vs, i) == piece + rest;
    StripPiece(vs[i], if i == 0 then "ul" else "u", Separator(vs, i));
    StripConcat(piece, rest);
    var ns := Numbers(vs)[i..];
    assert ns[0] == num && ns[1..] == Numbers(vs)[i + 1..];
    assert Join(ns, ',') == num + [','] + Join(ns[1..], ',');
  }

  /** `TrimEnd` removes exactly a trailing run of the trimmed characters. */
  lemma {:induction false} TrimEndTail(x: string, y: string, chars: set<char>)
    requires forall i :: 0 <= i < |y| ==> y[i] in chars
    requires |x| == 0 || x[|x| - 1] !in chars
    ensures TrimEnd(x + y, chars) == x
    decreases |y|
  {
    if |y| == 0 {
      assert x + y == x;
    } else {
      assert (x + y)[..|x + y| - 1] == x + y[..|y| - 1];
      TrimEndTail(x, y[..|y| - 1], chars);
    }
  }

  /** Removing `{` from `<open>body}}` leaves the body's removal and `}}`. */
  lemma RemoveOpenBrace(open: string, body: string)
    requires open == "" || open == "{"
    ensures RemoveChar(open + body + "}}", '{') == RemoveChar(body, '{') + "}}"
  {
    RemoveCharConcat(open + body, "}}", '{');
    RemoveCharConcat(open, body, '{');
    RemoveCharAbsent("}}", '{');
    assert RemoveChar(open, '{') == "" by {
      if open == "{" { assert open[1..] == ""; }
    }
    assert "" + RemoveChar(body, '{') == RemoveChar(body, '{');
  }

  /** Trimming `}` from a brace-free text followed by `}}` gives the text. */
  lemma TrimClosingBraces(x: string)
    requires '}' !in x
    ensures TrimEnd(x + "}}", {'}'}) == x
  {
    assert |x| == 0 || x[|x| - 1] in x;
    TrimEndTail(x, "}}", {'}'});
  }

  /** `Clean` of a text wrapped as `<open>body}}` with `open` empty or `{`. */
  lemma CleanWrapped(open: string, body: string)
    requires open == "" || open == "{"
    requires '}' !in body
    ensures Clean(open + body + "}}") == Strip(body)
  {
    RemoveEachIsStrip(body);
    RemoveOpenBrace(open, body);
    RemoveCharKeeps(body, '{', '}');
    TrimClosingBraces(RemoveChar(body, '{'));
  }

  /** Each field truncated to 32 bits. */
  function Truncated(vs: seq<int>): (r: seq<int>)
    ensures |r| == |vs|
  {
    seq(|vs|, i requires 0 <= i < |vs| => Wrap32(vs[i]))
  }

  /** The values of options that are all present. */
  function Present(os: seq<Option<int>>): (r: seq<int>)
    requires forall i :: 0 <= i < |os| ==> os[i].Some?
    ensures |r| == |os|
  {
    seq(|os|, i requires 0 <= i < |os| => os[i].value)
  }

  lemma {:induction false} CollectPresent(os: seq<Option<int>>)
    requires forall i :: 0 <= i < |os| ==> os[i].Some?
    ensures Collect(os) == Some(Truncated(Present(os)))
    decreases |os|
  {
    if |os| > 0 {
      CollectPresent(os[1..]);
      var rest := Truncated(Present(os[1..]));
      assert Collect(os) == Some([Wrap32(os[0].value)] + rest);
      assert Truncated(Present(os)) == [Wrap32(os[0].value)] + rest;
    } else {
      assert Truncated(Present(os)) == [];
    }
  }

  lemma ParseFieldsOfNumbers(vs: seq<int>)
    requires forall i :: 0 <= i < |vs| ==> Int64Min <= vs[i] <= Int64Max
    ensures ParseFields(Numbers(vs)) == Some(Truncated(vs))
  {
    var os := Reads(Numbers(vs));
    forall i | 0 <= i < |vs|
      ensures os[i] == Some(vs[i])
    {
      ParseIntegerOfIntToString(vs[i]);
    }
    CollectPresent(os);
    assert Present(os) == vs;
  }

  /** Cleaning and splitting CastXML's initializer gives the numbers back. */
  lemma SplitInitText(vs: seq<int>)
    requires |vs| > 0
    ensures Split(Clean(InitText(vs)), ',') == Numbers(vs)
  {
    var body := Items(vs, 0);
    StripItems(vs, 0);
    CleanWrapped("{", body);
    assert Numbers(vs)[0..] == Numbers(vs);
    forall i | 0 <= i < |vs|
      ensures ',' !in Numbers(vs)[i]
    {
      NumberTextOfInt(vs[i]);
    }
    SplitJoin(Numbers(vs), ',');
  }

  /** Parsing CastXML's initializer gives back the fields, each truncated to
      32 bits as `unchecked((int)value)` does. */
  lemma ParseInitText(vs: seq<int>)
    requires |vs| == 11
    requires forall i :: 0 <= i < 11 ==> Int64Min <= vs[i] <= Int64Max
    ensures ParseGuid(InitText(vs)) == Some(GuidBytes(Truncated(vs)))
  {
    SplitInitText(vs);
    ParseFieldsOfNumbers(vs);
    assert StartsWith(InitText(vs), "{");
  }

  /** With fields that fit in 32 bits, the bytes are those of the fields
      themselves. */
  lemma ParseInitText32(vs: seq<int>)
    requires |vs| == 11
    requires forall i :: 0 <= i < 11 ==> Int32Min <= vs[i] <= Int32Max
    ensures ParseGuid(InitText(vs)) == Some(GuidBytes(vs))
  {
    ParseInitText(vs);
    assert Truncated(vs) == vs;
  }

  /** The guard joins its two tests with `&&`, so an initializer that lost its
      opening brace still parses, to the same GUID. */
  lemma MissingOpenBraceAccepted(vs: seq<int>)
    requires |vs| == 11
    requires forall i :: 0 <= i < 11 ==> Int64Min <= vs[i] <= Int64Max
    ensures ParseGuid(Items(vs, 0) + "}}") == Some(GuidBytes(Truncated(vs)))
  {
    var body := Items(vs, 0);
    MissingOpenBraceClean(vs);
    assert EndsWith(body + "}}", "}}");
    ParseInitText(vs);
    SameCleanSameGuid(body + "}}", InitText(vs));
  }

  lemma MissingOpenBraceClean(vs: seq<int>)
    requires |vs| == 11
    ensures Clean(Items(vs, 0) + "}}") == Clean(InitText(vs))
  {
    StripItems(vs, 0);
    CleanOpenBraceOptional(Items(vs, 0));
  }

  /** Whether the opening brace is present does not change `Clean`. */
  lemma CleanOpenBraceOptional(body: string)
    requires '}' !in body
    ensures Clean(body + "}}") == Clean("{" + body + "}}")
  {
    CleanWrapped("", body);
    CleanWrapped("{", body);
    assert "" + body + "}}" == body + "}}";
  }

  lemma SameCleanSameGuid(a: string, b: string)
    requires StartsWith(a, "{") || EndsWith(a, "}}")
    requires StartsWith(b, "{") || EndsWith(b, "}}")
    requires Clean(a) == Clean(b)
    ensures ParseGuid(a) == ParseGuid(b)
  {
  }

  /** Ten or twelve numbers are not a GUID. */
  lemma WrongFieldCount(vs: seq<int>)
    requires |vs| == 10 || |vs| == 12
    ensures ParseGuid(InitText(vs)) == None
  {
    SplitInitText(vs);
  }
}

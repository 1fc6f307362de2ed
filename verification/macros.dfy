/** `MacroManager` (SharpGen/Parser/MacroManager.cs): a scan of the
    preprocessor's output, line by line, that collects the object-like
    `#define`s of each file the line markers name, then adds them to the C++
    module as `CppDefine`s of the include named after the file. */
module Macros {
  import opened Wrappers
  import opened Text
  import opened CppModel

  // ---------------------------------------------------------------------------
  // The two line patterns
  // ---------------------------------------------------------------------------

  /** `\w`, the word characters of an identifier (ASCII). */
  predicate IsWordChar(c: char) {
    ('a' <= c <= 'z') || ('A' <= c <= 'Z') || ('0' <= c <= '9') || c == '_'
  }

  /** The first position at or after `p` that fails `ok`. */
  function SkipWhile(s: string, p: nat, digits: bool): (r: nat)
    requires p <= |s|
    ensures p <= r <= |s|
    ensures forall j :: p <= j < r ==> (if digits then IsDigit(s[j]) else IsWordChar(s[j]))
    ensures r == |s| || !(if digits then IsDigit(s[r]) else IsWordChar(s[r]))
    decreases |s| - p
  {
    if p < |s| && (if digits then IsDigit(s[p]) else IsWordChar(s[p])) then SkipWhile(s, p + 1, digits) else p
  }

  /** The first `"` at or after `p`. */
  function NextQuote(s: string, p: nat): (r: Option<nat>)
    requires p <= |s|
    ensures r.Some? ==> p <= r.value < |s| && s[r.value] == '"'
    ensures r.Some? ==> forall j :: p <= j < r.value ==> s[j] != '"'
    ensures r.None? ==> forall j :: p <= j < |s| ==> s[j] != '"'
    decreases |s| - p
  {
    if p == |s| then None else if s[p] == '"' then Some(p) else NextQuote(s, p + 1)
  }

  /** The line-marker pattern `^\s*#\s+\d+\s+"([^"]+)"` and its group: the
      path between the quotes. */
  function IncludeMarker(line: string): (r: Option<string>)
    ensures r.Some? ==> |r.value| > 0 && '"' !in r.value
  {
    var p0 := SkipWhiteSpace(line, 0);
    if p0 == |line| || line[p0] != '#' then None
    else
      var p1 := SkipWhiteSpace(line, p0 + 1);
      var p2 := SkipWhile(line, p1, true);
      var p3 := SkipWhiteSpace(line, p2);
      if p1 == p0 + 1 || p2 == p1 || p3 == p2 || p3 == |line| || line[p3] != '"' then None
      else
        match NextQuote(line, p3 + 1)
        case None => None
        case Some(q) => if q == p3 + 1 then None else Some(line[p3 + 1..q])
  }

  /** The define pattern `^\s*#define\s+([a-zA-Z_][\w_]*)\s+(.*)` and its two
      groups: the name, and the rest of the line after the blanks. */
  function DefineLine(line: string): (r: Option<(string, string)>)
    ensures r.Some? ==> |r.value.0| > 0 && !IsDigit(r.value.0[0])
    ensures r.Some? ==> forall i :: 0 <= i < |r.value.0| ==> IsWordChar(r.value.0[i])
  {
    var p0 := SkipWhiteSpace(line, 0);
    if !StartsWith(line[p0..], "#define") then None
    else
      var p1 := SkipWhiteSpace(line, p0 + 7);
      if p1 == p0 + 7 || p1 == |line| || !IsWordChar(line[p1]) || IsDigit(line[p1]) then None
      else
        var p2 := SkipWhile(line, p1, false);
        var p3 := SkipWhiteSpace(line, p2);
        if p3 == p2 then None
        else Some((line[p1..p2], line[p3..LineEnd(line, p3)]))
  }

  // ---------------------------------------------------------------------------
  // The scanner state
  // ---------------------------------------------------------------------------

  /** The defines collected for one file, keyed by the file name. */
  datatype Bucket = Bucket(file: string, macros: seq<CppDefine>)

  /** `_mapIncludeToMacros` (in insertion order), `_currentMacros` as an index
      into it, and `_includedFiles`. */
  datatype MacroManager = MacroManager(buckets: seq<Bucket>, current: Option<nat>, includedFiles: seq<string>)

  const Empty := MacroManager([], None, [])

  /** No two names of `macros` are equal. */
  ghost predicate UniqueNames(macros: seq<CppDefine>) {
    forall i, j :: 0 <= i < j < |macros| ==> macros[i].name != macros[j].name
  }

  /** No two strings are equal ignoring case. */
  ghost predicate UniqueIgnoringCase(names: seq<string>) {
    forall i, j :: 0 <= i < j < |names| ==> !EqualsIgnoreCase(names[i], names[j])
  }

  function Files(buckets: seq<Bucket>): (r: seq<string>)
    ensures |r| == |buckets|
    ensures forall i :: 0 <= i < |buckets| ==> r[i] == buckets[i].file
  {
    if |buckets| == 0 then [] else [buckets[0].file] + Files(buckets[1..])
  }

  /** What the scanner keeps true: the dictionaries ignore case in file
      names and paths, a dictionary holds a name once, and the current one
      exists. */
  ghost predicate Valid(m: MacroManager) {
    && UniqueIgnoringCase(Files(m.buckets))
    && UniqueIgnoringCase(m.includedFiles)
    && (forall i :: 0 <= i < |m.buckets| ==> UniqueNames(m.buckets[i].macros))
    && (m.current.Some? ==> m.current.value < |m.buckets|)
  }

  /** The first of `names` equal to `name` ignoring case. */
  function IndexIgnoringCase(names: seq<string>, name: string): (r: Option<nat>)
    ensures r.Some? ==> r.value < |names| && EqualsIgnoreCase(names[r.value], name)
    ensures r.None? <==> forall i :: 0 <= i < |names| ==> !EqualsIgnoreCase(names[i], name)
    decreases |names|
  {
    if |names| == 0 then None
    else if EqualsIgnoreCase(names[0], name) then Some(0)
    else match IndexIgnoringCase(names[1..], name)
      case None => assert forall i :: 1 <= i < |names| ==> names[i] == names[1..][i - 1]; None
      case Some(i) => Some(i + 1)
  }

  /** `HashSet.Add` with a case-insensitive comparer. */
  function AddIgnoringCase(names: seq<string>, name: string): (r: seq<string>)
    requires UniqueIgnoringCase(names)
    ensures UniqueIgnoringCase(r)
    ensures exists i :: 0 <= i < |r| && EqualsIgnoreCase(r[i], name)
    ensures forall i :: 0 <= i < |names| ==> i < |r| && r[i] == names[i]
  {
    if IndexIgnoringCase(names, name).Some? then names
    else
      var r := names + [name];
      assert r[|names|] == name;
      r
  }

  /** The position of `name` among the defines. */
  function IndexOfName(macros: seq<CppDefine>, name: string): (r: Option<nat>)
    ensures r.Some? ==> r.value < |macros| && macros[r.value].name == name
    ensures r.None? ==> forall i :: 0 <= i < |macros| ==> macros[i].name != name
    decreases |macros|
  {
    if |macros| == 0 then None
    else if macros[|macros| - 1].name == name then Some(|macros| - 1)
    else IndexOfName(macros[..|macros| - 1], name)
  }

  /** `Remove(name)` then `Add(name, value)`: the freed entry is refilled at
      once, so a redefinition keeps its place and takes the new value. */
  function Define(macros: seq<CppDefine>, name: string, value: string): (r: seq<CppDefine>)
    requires UniqueNames(macros)
    ensures UniqueNames(r)
    ensures forall i :: 0 <= i < |r| ==> (r[i].name == name <==> r[i] == CppDefine(name, value))
    ensures exists i :: 0 <= i < |r| && r[i] == CppDefine(name, value)
    ensures forall i :: 0 <= i < |macros| && macros[i].name != name ==> i < |r| && r[i] == macros[i]
    ensures |r| == |macros| || |r| == |macros| + 1
  {
    match IndexOfName(macros, name)
    case Some(i) =>
      var r := macros[i := CppDefine(name, value)];
      assert r[i] == CppDefine(name, value);
      r
    case None =>
      var r := macros + [CppDefine(name, value)];
      assert r[|macros|] == CppDefine(name, value);
      r
  }

  /** A marker line for `path`. */
  function OnMarker(m: MacroManager, path: string): (r: MacroManager)
    requires Valid(m)
    ensures Valid(r)
  {
    if StartsWith(path, "<") then m.(current := None)
    else SelectBucket(m, FileName(path), AddIgnoringCase(m.includedFiles, Replace(path, "\\\\", "\\")))
  }

  /** The bucket of file `name` becomes current, created empty at the end
      when no bucket has that name in any case. */
  function SelectBucket(m: MacroManager, name: string, files: seq<string>): (r: MacroManager)
    requires Valid(m) && UniqueIgnoringCase(files)
    ensures Valid(r) && r.includedFiles == files
    ensures r.current.Some? && EqualsIgnoreCase(r.buckets[r.current.value].file, name)
    ensures IndexIgnoringCase(Files(m.buckets), name).Some? ==> r.buckets == m.buckets
    ensures IndexIgnoringCase(Files(m.buckets), name).None? ==> r.buckets == m.buckets + [Bucket(name, [])]
  {
    match IndexIgnoringCase(Files(m.buckets), name)
    case Some(i) => m.(current := Some(i), includedFiles := files)
    case None =>
      var buckets := m.buckets + [Bucket(name, [])];
      assert Files(buckets) == Files(m.buckets) + [name];
      MacroManager(buckets, Some(|m.buckets|), files)
  }

  /** A `#define` of `name` with the raw value text, in the current bucket. */
  function OnDefine(m: MacroManager, name: string, raw: string): (r: MacroManager)
    requires Valid(m) && m.current.Some?
    ensures Valid(r)
  {
    var value := TrimEndWhiteSpace(raw);
    if value == "" then m
    else
      var i := m.current.value;
      var b := m.buckets[i];
      var buckets := m.buckets[i := b.(macros := Define(b.macros, name, value))];
      assert Files(buckets) == Files(m.buckets);
      m.(buckets := buckets)
  }

  /** `ParseLine`. */
  function ParseLine(m: MacroManager, line: string): (r: MacroManager)
    requires Valid(m)
    ensures Valid(r)
  {
    if line == "" then m
    else if IncludeMarker(line).Some? then OnMarker(m, IncludeMarker(line).value)
    else if m.current.None? || DefineLine(line).None? then m
    else OnDefine(m, DefineLine(line).value.0, DefineLine(line).value.1)
  }

  /** The preprocessor's output, fed line by line. */
  function ParseLines(m: MacroManager, lines: seq<string>): (r: MacroManager)
    requires Valid(m)
    ensures Valid(r)
    decreases |lines|
  {
    if |lines| == 0 then m else ParseLines(ParseLine(m, lines[0]), lines[1..])
  }

  /** The defines of a bucket as include elements, in order. */
  function DefineElements(macros: seq<CppDefine>): (r: seq<CppElement>)
    ensures |r| == |macros|
    ensures forall i :: 0 <= i < |macros| ==> r[i] == DefineElement(macros[i])
  {
    if |macros| == 0 then [] else [DefineElement(macros[0])] + DefineElements(macros[1..])
  }

  /** The include id of each bucket: its file name without extension. */
  function IncludeIds(buckets: seq<Bucket>): (r: seq<string>)
    ensures |r| == |buckets|
    ensures forall i :: 0 <= i < |buckets| ==> r[i] == FileNameWithoutExtension(buckets[i].file)
  {
    if |buckets| == 0 then [] else [FileNameWithoutExtension(buckets[0].file)] + IncludeIds(buckets[1..])
  }

  /** One bucket's defines added to the include `id`, found ignoring case or
      appended. */
  function AddBucket(group: CppModule, id: string, macros: seq<CppDefine>): (r: CppModule)
    ensures IncludesKept(group, r)
    ensures |r.includes| <= |group.includes| + 1
  {
    var found := FindOrAddInclude(group, id);
    AddElements(found.0, found.1, DefineElements(macros))
  }

  function AddBuckets(group: CppModule, buckets: seq<Bucket>, ids: seq<string>): (r: CppModule)
    requires |ids| == |buckets|
    ensures IncludesKept(group, r)
    ensures |r.includes| <= |group.includes| + |buckets|
    decreases |buckets|
  {
    if |buckets| == 0 then group
    else
      var next := AddBucket(group, ids[0], buckets[0].macros);
      var r := AddBuckets(next, buckets[1..], ids[1..]);
      IncludesKeptTransitive(group, next, r);
      r
  }

  /** `Parse`: the lines of one preprocessed file, then every bucket collected
      so far added to the module. */
  function Parse(m: MacroManager, lines: seq<string>, group: CppModule): (r: (MacroManager, CppModule))
    requires Valid(m)
    ensures Valid(r.0)
    ensures IncludesKept(group, r.1)
    ensures |r.1.includes| <= |group.includes| + |r.0.buckets|
  {
    var scanned := ParseLines(m, lines);
    (scanned, AddBuckets(group, scanned.buckets, IncludeIds(scanned.buckets)))
  }

  // ---------------------------------------------------------------------------
  // Properties
  // ---------------------------------------------------------------------------

  /** A marker for a path not in angle brackets makes the bucket of its file
      name current (found ignoring case, or appended), and records the path
      with doubled backslashes collapsed. */
  lemma MarkerSelectsBucket(m: MacroManager, path: string)
    requires Valid(m) && !StartsWith(path, "<")
    ensures OnMarker(m, path).current.Some?
    ensures EqualsIgnoreCase(OnMarker(m, path).buckets[OnMarker(m, path).current.value].file, FileName(path))
    ensures exists i :: 0 <= i < |OnMarker(m, path).includedFiles|
              && EqualsIgnoreCase(OnMarker(m, path).includedFiles[i], Replace(path, "\\\\", "\\"))
    ensures |m.buckets| <= |OnMarker(m, path).buckets|
    ensures forall i :: 0 <= i < |m.buckets| ==> OnMarker(m, path).buckets[i] == m.buckets[i]
  {
    var r := OnMarker(m, path);
    if IndexIgnoringCase(Files(m.buckets), FileName(path)).None? {
      assert r.buckets[|m.buckets|].file == FileName(path);
    }
  }

  /** A marker for a system header (`<…>`) stops collecting until the next
      marker. */
  lemma SystemMarkerStops(m: MacroManager, line: string)
    requires Valid(m)
    requires line != "" && IncludeMarker(line).Some? && StartsWith(IncludeMarker(line).value, "<")
    ensures ParseLine(m, line) == m.(current := None)
  {
  }

  /** With no current bucket, any line that is not a marker changes nothing. */
  lemma IgnoredWithoutBucket(m: MacroManager, line: string)
    requires Valid(m) && m.current.None? && IncludeMarker(line).None?
    ensures ParseLine(m, line) == m
  {
  }

  /** A define with a value is recorded in the current bucket, replacing any
      earlier value of the name; the other buckets are untouched. */
  lemma DefineRecorded(m: MacroManager, name: string, raw: string)
    requires Valid(m) && m.current.Some? && TrimEndWhiteSpace(raw) != ""
    ensures OnDefine(m, name, raw).current == m.current
    ensures var ms := OnDefine(m, name, raw).buckets[m.current.value].macros;
      forall k :: 0 <= k < |ms| ==> (ms[k].name == name <==> ms[k] == CppDefine(name, TrimEndWhiteSpace(raw)))
    ensures var ms := OnDefine(m, name, raw).buckets[m.current.value].macros;
      exists k :: 0 <= k < |ms| && ms[k] == CppDefine(name, TrimEndWhiteSpace(raw))
    ensures forall j :: 0 <= j < |m.buckets| && j != m.current.value ==> OnDefine(m, name, raw).buckets[j] == m.buckets[j]
  {
  }

  /** A define whose value is blank is not recorded. */
  lemma BlankDefineIgnored(m: MacroManager, name: string, raw: string)
    requires Valid(m) && m.current.Some? && TrimEndWhiteSpace(raw) == ""
    ensures OnDefine(m, name, raw) == m
  {
  }

  /** A function-like define does not match: `(` follows the name. */
  lemma FunctionLikeSkipped()
    ensures DefineLine("#define F(x) x").None?
  {
    var f := "#define F(x) x";
    assert f[0..] == f && StartsWith(f, "#define");
    assert SkipWhiteSpace(f, 7) == 8;
    assert SkipWhile(f, 8, false) == 9;
    assert SkipWhiteSpace(f, 9) == 9;
    DefineLineNoValue(f, 0, 8, 9);
  }

  /** A define with nothing after its name does not match. */
  lemma ValuelessSkipped()
    ensures DefineLine("#define EMPTY").None?
  {
    var e := "#define EMPTY";
    assert e[0..] == e && StartsWith(e, "#define");
    assert SkipWhiteSpace(e, 7) == 8;
    assert SkipWhile(e, 8, false) == 13;
    DefineLineNoValue(e, 0, 8, 13);
  }

  /** A name not followed by blanks: no match. */
  lemma DefineLineNoValue(line: string, p0: nat, p1: nat, p2: nat)
    requires p0 <= |line| && p0 + 7 <= |line| && p1 < |line|
    requires SkipWhiteSpace(line, 0) == p0 && StartsWith(line[p0..], "#define")
    requires SkipWhiteSpace(line, p0 + 7) == p1 && p1 != p0 + 7
    requires IsWordChar(line[p1]) && !IsDigit(line[p1])
    requires SkipWhile(line, p1, false) == p2 && SkipWhiteSpace(line, p2) == p2
    ensures DefineLine(line).None?
  {
  }

  /** The name, blanks, and the value up to the end of the line: a match. */
  lemma DefineLineMatch(line: string, p0: nat, p1: nat, p2: nat, p3: nat)
    requires p0 <= |line| && p0 + 7 <= |line| && p1 < |line|
    requires SkipWhiteSpace(line, 0) == p0 && StartsWith(line[p0..], "#define")
    requires SkipWhiteSpace(line, p0 + 7) == p1 && p1 != p0 + 7
    requires IsWordChar(line[p1]) && !IsDigit(line[p1])
    requires SkipWhile(line, p1, false) == p2 && p2 <= |line|
    requires SkipWhiteSpace(line, p2) == p3 && p3 != p2
    ensures DefineLine(line) == Some((line[p1..p2], line[p3..LineEnd(line, p3)]))
  {
  }

  /** Leading blanks and the blanks after the name are skipped; the value
      keeps its trailing blanks until `TrimEnd`. */
  lemma DefineExample()
    ensures DefineLine(" #define  N 42 ") == Some(("N", "42 "))
  {
    var a := " #define  N 42 ";
    DefineExampleHead(a);
    DefineLineMatch(a, 1, 10, 11, 12);
    DefineExampleTail(a);
  }

  lemma DefineExampleHead(a: string)
    requires a == " #define  N 42 "
    ensures SkipWhiteSpace(a, 0) == 1 && StartsWith(a[1..], "#define")
    ensures SkipWhiteSpace(a, 8) == 10 && IsWordChar(a[10]) && !IsDigit(a[10])
    ensures SkipWhile(a, 10, false) == 11 && SkipWhiteSpace(a, 11) == 12
  {
    assert a[1..][..7] == "#define";
    assert a[10] == 'N';
  }

  lemma DefineExampleTail(a: string)
    requires a == " #define  N 42 "
    ensures LineEnd(a, 12) == 15 && a[10..11] == "N" && a[12..15] == "42 "
  {
  }

  /** The line CastXML's preprocessor writes for a header, `# 1 "…"`. */
  lemma MarkerExample()
    ensures IncludeMarker("# 1 \"d/a.h\"") == Some("d/a.h")
  {
    var s := "# 1 \"d/a.h\"";
    assert |s| == 11 && s[4] == '"' && s[10] == '"';
    assert SkipWhiteSpace(s, 0) == 0;
    assert SkipWhiteSpace(s, 1) == 2;
    assert SkipWhile(s, 2, true) == 3;
    assert SkipWhiteSpace(s, 3) == 4;
    assert s[5..10] == "d/a.h";
    assert forall j :: 5 <= j < 10 ==> s[j] != '"';
  }

  /** The include a bucket's defines go to is there afterwards. */
  lemma AddBucketHasInclude(group: CppModule, id: string, macros: seq<CppDefine>)
    ensures HasInclude(AddBucket(group, id, macros), id)
  {
    var found := FindOrAddInclude(group, id);
    assert AddBucket(group, id, macros).includes[found.1].name == found.0.includes[found.1].name;
  }

  /** Every bucket has, afterwards, an include named after it, ignoring
      case. */
  lemma {:induction false} BucketIncludeExists(group: CppModule, buckets: seq<Bucket>, ids: seq<string>, i: nat)
    requires |ids| == |buckets| && i < |buckets|
    ensures HasInclude(AddBuckets(group, buckets, ids), ids[i])
    decreases |buckets|
  {
    var next := AddBucket(group, ids[0], buckets[0].macros);
    if i == 0 {
      AddBucketHasInclude(group, ids[0], buckets[0].macros);
      HasIncludeStays(next, AddBuckets(next, buckets[1..], ids[1..]), ids[0]);
    } else {
      assert ids[1..][i - 1] == ids[i];
      BucketIncludeExists(next, buckets[1..], ids[1..], i - 1);
    }
  }

  /** After `Parse`, every file the scan collected defines for has an include
      named after the file without its extension. */
  lemma ParsedFileHasInclude(m: MacroManager, lines: seq<string>, group: CppModule, i: nat)
    requires Valid(m) && i < |ParseLines(m, lines).buckets|
    ensures HasInclude(Parse(m, lines, group).1, FileNameWithoutExtension(ParseLines(m, lines).buckets[i].file))
  {
    var scanned := ParseLines(m, lines);
    BucketIncludeExists(group, scanned.buckets, IncludeIds(scanned.buckets), i);
  }

  /** A bucket whose include exists adds no include, and its defines follow
      that include's elements, one per name. */
  lemma ExistingIncludeReused(group: CppModule, id: string, macros: seq<CppDefine>)
    requires FindIncludeIndex(group, id).Some?
    ensures var at := FindIncludeIndex(group, id).value;
      && |AddBucket(group, id, macros).includes| == |group.includes|
      && AddBucket(group, id, macros).includes[at].elements == group.includes[at].elements + DefineElements(macros)
  {
  }
}

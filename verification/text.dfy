/** The .NET string, number and path operations the modelled code relies on,
    written over `seq<char>`. Case handling is ASCII only. */
module Text {
  import opened Wrappers

  // ---------------------------------------------------------------------------
  // Prefixes, suffixes, containment
  // ---------------------------------------------------------------------------

  /** `s.StartsWith(prefix)` (ordinal). */
  predicate StartsWith(s: string, prefix: string) {
    |prefix| <= |s| && s[..|prefix|] == prefix
  }

  /** `s.EndsWith(suffix)` (ordinal). */
  predicate EndsWith(s: string, suffix: string) {
    |suffix| <= |s| && s[|s| - |suffix|..] == suffix
  }

  /** `s.Contains(sub)` (ordinal). */
  predicate Contains(s: string, sub: string)
    decreases |s|
  {
    StartsWith(s, sub) || (|s| > 0 && Contains(s[1..], sub))
  }

  /** `s.Substring(0, s.Length - suffix.Length)` after a successful `EndsWith`. */
  function DropSuffix(s: string, suffix: string): (r: string)
    requires EndsWith(s, suffix)
    ensures r + suffix == s
  {
    s[..|s| - |suffix|]
  }

  /** `string.IsNullOrEmpty` on an attribute that may be missing. */
  predicate IsNullOrEmpty(s: Option<string>) {
    s.None? || s.value == ""
  }

  // ---------------------------------------------------------------------------
  // Whitespace
  // ---------------------------------------------------------------------------

  /** `char.IsWhiteSpace`, which is also the class `\s` of .NET regular expressions. */
  predicate IsWhiteSpace(c: char) {
    || c == ' '
    || ('\t' <= c <= '\r')
    || c == '\U{0085}' || c == '\U{00A0}' || c == '\U{1680}'
    || ('\U{2000}' <= c <= '\U{200A}')
    || c == '\U{2028}' || c == '\U{2029}' || c == '\U{202F}' || c == '\U{205F}' || c == '\U{3000}'
  }

  /** `string.IsNullOrWhiteSpace`. */
  predicate IsNullOrWhiteSpace(s: Option<string>) {
    s.None? || forall i :: 0 <= i < |s.value| ==> IsWhiteSpace(s.value[i])
  }

  /** The first position at or after `p` that is not white space (`\s`). */
  function SkipWhiteSpace(s: string, p: nat): (r: nat)
    requires p <= |s|
    ensures p <= r <= |s|
    ensures r == |s| || !IsWhiteSpace(s[r])
    ensures forall j :: p <= j < r ==> IsWhiteSpace(s[j])
    decreases |s| - p
  {
    if p < |s| && IsWhiteSpace(s[p]) then SkipWhiteSpace(s, p + 1) else p
  }

  /** The end of the line holding position `p`: the first `\n` at or after
      `p`, or the end of the text; `.` in a .NET pattern stops there. */
  function LineEnd(s: string, p: nat): (r: nat)
    requires p <= |s|
    ensures p <= r <= |s|
    ensures r == |s| || s[r] == '\n'
    ensures forall j :: p <= j < r ==> s[j] != '\n'
    decreases |s| - p
  {
    if p == |s| || s[p] == '\n' then p else LineEnd(s, p + 1)
  }

  /** The blanks `NumberStyles.Integer` accepts around a number. */
  predicate IsNumberSpace(c: char) {
    c == ' ' || ('\t' <= c <= '\r')
  }

  // ---------------------------------------------------------------------------
  // Trimming
  // ---------------------------------------------------------------------------

  /** `s.TrimEnd(chars)`. */
  function TrimEnd(s: string, chars: set<char>): (r: string)
    ensures |r| <= |s| && r == s[..|r|]
    ensures |r| == 0 || r[|r| - 1] !in chars
    ensures forall i :: |r| <= i < |s| ==> s[i] in chars
  {
    if |s| > 0 && s[|s| - 1] in chars then TrimEnd(s[..|s| - 1], chars) else s
  }

  /** `s.TrimEnd()`: trailing white space removed. */
  function TrimEndWhiteSpace(s: string): (r: string)
    ensures |r| <= |s| && r == s[..|r|]
    ensures |r| == 0 || !IsWhiteSpace(r[|r| - 1])
    ensures forall i :: |r| <= i < |s| ==> IsWhiteSpace(s[i])
  {
    if |s| > 0 && IsWhiteSpace(s[|s| - 1]) then TrimEndWhiteSpace(s[..|s| - 1]) else s
  }

  /** `s.TrimStart(chars)`. */
  function TrimStart(s: string, chars: set<char>): (r: string)
    ensures |r| <= |s| && r == s[|s| - |r|..]
    ensures |r| == 0 || r[0] !in chars
    ensures forall i :: 0 <= i < |s| - |r| ==> s[i] in chars
  {
    if |s| > 0 && s[0] in chars then TrimStart(s[1..], chars) else s
  }

  /** `s.Trim(chars)`. */
  function Trim(s: string, chars: set<char>): string {
    TrimEnd(TrimStart(s, chars), chars)
  }

  // ---------------------------------------------------------------------------
  // Splitting, joining, replacing
  // ---------------------------------------------------------------------------

  /** `s.Split(sep)`: every separator splits, so empty pieces are kept. */
  function Split(s: string, sep: char): (parts: seq<string>)
    ensures |parts| >= 1
    ensures forall i :: 0 <= i < |parts| ==> sep !in parts[i]
    decreases |s|
  {
    if |s| == 0 then [""]
    else if s[0] == sep then [""] + Split(s[1..], sep)
    else
      var rest := Split(s[1..], sep);
      [[s[0]] + rest[0]] + rest[1..]
  }

  /** `string.Join(sep, parts)`. */
  function Join(parts: seq<string>, sep: char): string
    requires |parts| >= 1
  {
    if |parts| == 1 then parts[0] else parts[0] + [sep] + Join(parts[1..], sep)
  }

  /** Splitting loses nothing: joining the pieces gives the text back. */
  lemma {:induction false} JoinSplit(s: string, sep: char)
    ensures Join(Split(s, sep), sep) == s
    decreases |s|
  {
    if |s| == 0 {
    } else if s[0] == sep {
      JoinSplit(s[1..], sep);
      assert s == [sep] + s[1..];
    } else {
      JoinSplit(s[1..], sep);
      var rest := Split(s[1..], sep);
      if |rest| == 1 {
        assert Join(rest, sep) == rest[0];
      } else {
        assert Join(rest, sep) == rest[0] + [sep] + Join(rest[1..], sep);
      }
      assert s == [s[0]] + s[1..];
    }
  }

  /** A text without the separator is one piece. */
  lemma {:induction false} SplitWithoutSeparator(s: string, sep: char)
    requires sep !in s
    ensures Split(s, sep) == [s]
    decreases |s|
  {
    if |s| > 0 {
      SplitWithoutSeparator(s[1..], sep);
      assert s == [s[0]] + s[1..];
    }
  }

  /** A separator-free word followed by a separator is the first piece. */
  lemma {:induction false} SplitAfterWord(a: string, rest: string, sep: char)
    requires sep !in a
    ensures Split(a + [sep] + rest, sep) == [a] + Split(rest, sep)
    decreases |a|
  {
    var s := a + [sep] + rest;
    if |a| == 0 {
      assert s == [sep] + rest;
      assert s[1..] == rest;
    } else {
      assert s[1..] == a[1..] + [sep] + rest;
      SplitAfterWord(a[1..], rest, sep);
      assert [s[0]] + a[1..] == a;
    }
  }

  /** Joining separator-free pieces and splitting again gives the pieces back. */
  lemma {:induction false} SplitJoin(parts: seq<string>, sep: char)
    requires |parts| >= 1
    requires forall i :: 0 <= i < |parts| ==> sep !in parts[i]
    ensures Split(Join(parts, sep), sep) == parts
    decreases |parts|
  {
    if |parts| == 1 {
      SplitWithoutSeparator(parts[0], sep);
    } else {
      SplitJoin(parts[1..], sep);
      SplitAfterWord(parts[0], Join(parts[1..], sep), sep);
      assert parts == [parts[0]] + parts[1..];
    }
  }

  /** `s.Replace(c.ToString(), "")`. */
  function RemoveChar(s: string, c: char): (r: string)
    ensures |r| <= |s|
  {
    if |s| == 0 then ""
    else if s[0] == c then RemoveChar(s[1..], c)
    else [s[0]] + RemoveChar(s[1..], c)
  }

  /** `s.Replace(pattern, replacement)`: left-to-right, non-overlapping, ordinal. */
  function Replace(s: string, pattern: string, replacement: string): string
    requires |pattern| > 0
    decreases |s|
  {
    if |s| == 0 then ""
    else if StartsWith(s, pattern) then replacement + Replace(s[|pattern|..], pattern, replacement)
    else [s[0]] + Replace(s[1..], pattern, replacement)
  }

  // ---------------------------------------------------------------------------
  // Case (ASCII)
  // ---------------------------------------------------------------------------

  function LowerChar(c: char): char {
    if 'A' <= c <= 'Z' then (c as int - 'A' as int + 'a' as int) as char else c
  }

  function UpperChar(c: char): char {
    if 'a' <= c <= 'z' then (c as int - 'a' as int + 'A' as int) as char else c
  }

  /** The key a case-insensitive dictionary files `s` under. */
  function Fold(s: string): (r: string)
    ensures |r| == |s|
    ensures forall i :: 0 <= i < |s| ==> r[i] == LowerChar(s[i])
  {
    seq(|s|, i requires 0 <= i < |s| => LowerChar(s[i]))
  }

  /** `s.ToUpper()`. */
  function ToUpper(s: string): (r: string)
    ensures |r| == |s|
    ensures forall i :: 0 <= i < |s| ==> r[i] == UpperChar(s[i])
  {
    seq(|s|, i requires 0 <= i < |s| => UpperChar(s[i]))
  }

  /** `string.Equals(a, b, StringComparison.InvariantCultureIgnoreCase)`. */
  predicate EqualsIgnoreCase(a: string, b: string) {
    Fold(a) == Fold(b)
  }

  // ---------------------------------------------------------------------------
  // Numbers
  // ---------------------------------------------------------------------------

  predicate IsDigit(c: char) {
    '0' <= c <= '9'
  }

  predicate AllDigits(s: string) {
    forall i :: 0 <= i < |s| ==> IsDigit(s[i])
  }

  function DigitChar(d: nat): char
    requires d < 10
  {
    ('0' as int + d) as char
  }

  /** The decimal value of a run of digits. */
  function DigitsValue(s: string): nat
    requires AllDigits(s)
  {
    if |s| == 0 then 0 else DigitsValue(s[..|s| - 1]) * 10 + (s[|s| - 1] as int - '0' as int)
  }

  /** `n.ToString()` for a non-negative number. */
  function NatToString(n: nat): (r: string)
    ensures |r| >= 1 && AllDigits(r)
  {
    if n < 10 then [DigitChar(n)] else NatToString(n / 10) + [DigitChar(n % 10)]
  }

  /** `i.ToString()`. */
  function IntToString(i: int): string {
    if i < 0 then "-" + NatToString(-i) else NatToString(i)
  }

  lemma {:induction false} DigitsValueOfNatToString(n: nat)
    ensures DigitsValue(NatToString(n)) == n
  {
    if n >= 10 {
      DigitsValueOfNatToString(n / 10);
      var s := NatToString(n);
      assert s[..|s| - 1] == NatToString(n / 10);
    }
  }

  /** The value of `s` read with `NumberStyles.Integer` (blanks, one optional
      sign, at least one digit), before any range check. */
  function ParseInteger(s: string): Option<int> {
    var t := TrimEnd(TrimStart(s, NumberSpaces), NumberSpaces);
    if |t| > 0 && (t[0] == '-' || t[0] == '+') then
      var ds := t[1..];
      if |ds| > 0 && AllDigits(ds) then
        var v: int := DigitsValue(ds);
        Some(if t[0] == '-' then -v else v)
      else None
    else if |t| > 0 && AllDigits(t) then Some(DigitsValue(t))
    else None
  }

  const NumberSpaces: set<char> := {' ', '\t', '\n', '\U{000B}', '\U{000C}', '\r'}

  /** Printing and parsing a number are inverse. */
  lemma ParseIntegerOfIntToString(i: int)
    ensures ParseInteger(IntToString(i)) == Some(i)
  {
    var s := IntToString(i);
    var digits := if i < 0 then NatToString(-i) else NatToString(i);
    DigitsValueOfNatToString(if i < 0 then -i else i);
    assert s[|s| - 1] == digits[|digits| - 1];
    assert IsDigit(s[|s| - 1]) && s[|s| - 1] !in NumberSpaces;
    assert s[0] == '-' || IsDigit(s[0]);
    assert s[0] !in NumberSpaces;
    assert TrimStart(s, NumberSpaces) == s;
    assert TrimEnd(s, NumberSpaces) == s;
    if i < 0 {
      assert s[1..] == digits;
    }
  }

  const Int32Min: int := -0x8000_0000
  const Int32Max: int := 0x7FFF_FFFF
  const Int64Min: int := -0x8000_0000_0000_0000
  const Int64Max: int := 0x7FFF_FFFF_FFFF_FFFF
  const UInt64Max: int := 0xFFFF_FFFF_FFFF_FFFF

  /** `int.TryParse` / `int.Parse`: `None` where the latter throws. */
  function ParseInt32(s: string): (r: Option<int>)
    ensures r.Some? ==> Int32Min <= r.value <= Int32Max && ParseInteger(s) == r
    ensures ParseInteger(s).Some? && Int32Min <= ParseInteger(s).value <= Int32Max ==> r.Some?
  {
    match ParseInteger(s)
    case Some(v) => if Int32Min <= v <= Int32Max then Some(v) else None
    case None => None
  }

  /** `long.TryParse`. */
  function ParseInt64(s: string): (r: Option<int>)
    ensures r.Some? ==> Int64Min <= r.value <= Int64Max && ParseInteger(s) == r
    ensures ParseInteger(s).Some? && Int64Min <= ParseInteger(s).value <= Int64Max ==> r.Some?
  {
    match ParseInteger(s)
    case Some(v) => if Int64Min <= v <= Int64Max then Some(v) else None
    case None => None
  }

  /** `ulong.TryParse` ("-0" reads as 0, any other negative fails). */
  function ParseUInt64(s: string): (r: Option<int>)
    ensures r.Some? ==> 0 <= r.value <= UInt64Max && ParseInteger(s) == r
    ensures ParseInteger(s).Some? && 0 <= ParseInteger(s).value <= UInt64Max ==> r.Some?
  {
    match ParseInteger(s)
    case Some(v) => if 0 <= v <= UInt64Max then Some(v) else None
    case None => None
  }

  /** `unchecked((int)x)`: two's-complement truncation to 32 bits. */
  function Wrap32(x: int): (r: int)
    ensures Int32Min <= r <= Int32Max
    ensures (r - x) % 0x1_0000_0000 == 0
    ensures Int32Min <= x <= Int32Max ==> r == x
  {
    (x + 0x8000_0000) % 0x1_0000_0000 - 0x8000_0000
  }

  /** `unchecked((short)x)`. */
  function Wrap16(x: int): (r: int)
    ensures -0x8000 <= r <= 0x7FFF
    ensures (r - x) % 0x1_0000 == 0
    ensures -0x8000 <= x <= 0x7FFF ==> r == x
  {
    (x + 0x8000) % 0x1_0000 - 0x8000
  }

  /** `unchecked((byte)x)`. */
  function LowByte(x: int): (r: int)
    ensures 0 <= r < 256
    ensures (r - x) % 256 == 0
    ensures 0 <= x < 256 ==> r == x
  {
    x % 256
  }

  // ---------------------------------------------------------------------------
  // Paths (Windows rules: both separators and a drive root)
  // ---------------------------------------------------------------------------

  predicate IsSeparator(c: char) {
    c == '/' || c == '\\'
  }

  /** The length of a drive root `X:` at the start of a path, else 0. */
  function DriveRootLength(path: string): (r: nat)
    ensures r <= |path|
  {
    if |path| >= 2 && path[1] == ':' && (('a' <= path[0] <= 'z') || ('A' <= path[0] <= 'Z')) then 2 else 0
  }

  /** The part of `path` after its last directory separator. */
  function LastSegment(path: string): string {
    if |path| == 0 then ""
    else if IsSeparator(path[|path| - 1]) then ""
    else LastSegment(path[..|path| - 1]) + [path[|path| - 1]]
  }

  /** `Path.GetFileName` on Windows: the part after the last directory
      separator, never reaching into a drive root. */
  function FileName(path: string): string {
    LastSegment(path[DriveRootLength(path)..])
  }

  /** The file name is a separator-free suffix of the path. When shorter than
      the path it follows a separator or the drive root; a path with neither
      is its own file name. */
  lemma FileNameFacts(path: string)
    ensures EndsWith(path, FileName(path))
    ensures forall i :: 0 <= i < |FileName(path)| ==> !IsSeparator(FileName(path)[i])
    ensures DriveRootLength(path) == 0 && (forall i :: 0 <= i < |path| ==> !IsSeparator(path[i])) ==>
              FileName(path) == path
    ensures |FileName(path)| < |path| ==>
              |path| - |FileName(path)| == DriveRootLength(path) || IsSeparator(path[|path| - |FileName(path)| - 1])
  {
    var k := DriveRootLength(path);
    var rest := path[k..];
    LastSegmentSuffix(rest);
    LastSegmentNoSeparator(rest);
    var r := LastSegment(rest);
    assert path[|path| - |r|..] == rest[|rest| - |r|..];
    if |r| < |rest| {
      assert path[|path| - |r| - 1] == rest[|rest| - |r| - 1];
    }
    if k == 0 && forall i :: 0 <= i < |path| ==> !IsSeparator(path[i]) {
      assert rest == path;
      LastSegmentWhole(path);
    }
  }

  /** A drive-relative name and a rooted Windows path. */
  lemma FileNameExamples()
    ensures FileName("C:foo.h") == "foo.h"
    ensures FileName("C:\\inc\\a.h") == "a.h"
    ensures FileName("inc/sub\\b.h") == "b.h"
  {
    assert "C:foo.h"[2..] == "foo.h";
    assert "C:\\inc\\a.h"[2..] == "\\inc\\a.h";
    LastSegmentWhole("foo.h");
    assert "\\inc\\a.h" == "\\inc\\" + "a.h";
    LastSegmentAfter("\\inc\\", "a.h");
    assert "inc/sub\\b.h"[0..] == "inc/sub\\" + "b.h";
    LastSegmentAfter("inc/sub\\", "b.h");
  }

  /** What follows a final separator is the last segment. */
  lemma {:induction false} LastSegmentAfter(dir: string, name: string)
    requires |dir| > 0 && IsSeparator(dir[|dir| - 1])
    requires forall i :: 0 <= i < |name| ==> !IsSeparator(name[i])
    ensures LastSegment(dir + name) == name
    decreases |name|
  {
    if |name| == 0 {
      assert dir + name == dir;
    } else {
      var init := name[..|name| - 1];
      var p := dir + name;
      assert p[..|p| - 1] == dir + init;
      assert p[|p| - 1] == name[|name| - 1];
      LastSegmentAfter(dir, init);
      assert init + [name[|name| - 1]] == name;
    }
  }

  /** The last segment is the end of the path, right after a separator when
      it is not all of it. */
  lemma {:induction false} LastSegmentSuffix(path: string)
    ensures EndsWith(path, LastSegment(path))
    ensures |LastSegment(path)| < |path| ==> IsSeparator(path[|path| - |LastSegment(path)| - 1])
    decreases |path|
  {
    if |path| > 0 && !IsSeparator(path[|path| - 1]) {
      var init := path[..|path| - 1];
      LastSegmentSuffix(init);
      var r := LastSegment(init);
      assert init[|init| - |r|..] == r;
      assert path[|path| - |r| - 1..] == r + [path[|path| - 1]];
      if |r| < |init| {
        assert path[|path| - |r| - 2] == init[|init| - |r| - 1];
      }
    }
  }

  lemma {:induction false} LastSegmentNoSeparator(path: string)
    ensures forall i :: 0 <= i < |LastSegment(path)| ==> !IsSeparator(LastSegment(path)[i])
    decreases |path|
  {
    if |path| > 0 && !IsSeparator(path[|path| - 1]) {
      LastSegmentNoSeparator(path[..|path| - 1]);
    }
  }

  lemma {:induction false} LastSegmentWhole(path: string)
    requires forall i :: 0 <= i < |path| ==> !IsSeparator(path[i])
    ensures LastSegment(path) == path
    decreases |path|
  {
    if |path| > 0 {
      var init := path[..|path| - 1];
      assert forall i :: 0 <= i < |init| ==> init[i] == path[i];
      LastSegmentWhole(init);
      assert init + [path[|path| - 1]] == path;
    }
  }

  /** `Path.GetFileNameWithoutExtension`: the file name up to its last '.'. */
  function FileNameWithoutExtension(path: string): string {
    var name := FileName(path);
    match LastIndexOf(name, '.')
    case Some(i) => name[..i]
    case None => name
  }

  /** The result is the file name cut at its last '.', or the whole file name
      when it has none. */
  lemma FileNameWithoutExtensionFacts(path: string)
    ensures StartsWith(FileName(path), FileNameWithoutExtension(path))
    ensures '.' in FileName(path) ==>
              var r := FileNameWithoutExtension(path);
              |r| < |FileName(path)| && FileName(path)[|r|] == '.' && '.' !in FileName(path)[|r| + 1..]
    ensures '.' !in FileName(path) ==> FileNameWithoutExtension(path) == FileName(path)
  {
    LastIndexOfFacts(FileName(path), '.');
  }

  function LastIndexOf(s: string, c: char): (r: Option<nat>)
    ensures r.Some? ==> r.value < |s|
  {
    if |s| == 0 then None
    else if s[|s| - 1] == c then Some(|s| - 1)
    else LastIndexOf(s[..|s| - 1], c)
  }

  /** The index found holds `c` and nothing after it does; none is found
      exactly when `c` does not occur. */
  lemma {:induction false} LastIndexOfFacts(s: string, c: char)
    ensures LastIndexOf(s, c).Some? ==>
              var k := LastIndexOf(s, c).value;
              k < |s| && s[k] == c && c !in s[k + 1..]
    ensures LastIndexOf(s, c).None? ==> c !in s
    decreases |s|
  {
    if |s| > 0 && s[|s| - 1] != c {
      var init := s[..|s| - 1];
      LastIndexOfFacts(init, c);
      assert s == init + [s[|s| - 1]];
      var r := LastIndexOf(init, c);
      if r.Some? {
        assert s[r.value + 1..] == init[r.value + 1..] + [s[|s| - 1]];
      }
    }
  }
}

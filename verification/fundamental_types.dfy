/** `CppParser.ConvertFundamentalType` (SharpGen.Platform/CppParser.cs): the
    short C spelling of a CastXML fundamental type name such as
    "long long unsigned int". */
module FundamentalTypes {
  import opened Text

  /** What the word scan has seen so far. */
  datatype Tally = Tally(isUnsigned: bool, output: string, shortCount: nat, longCount: nat)

  /** The words that name a type on their own. */
  predicate IsBaseWord(w: string) {
    w == "bool" || w == "void" || w == "char" || w == "double"
    || w == "int" || w == "float" || w == "wchar_t"
  }

  /** One word of the scan; an unknown word is only logged. */
  function Step(t: Tally, w: string): (r: Tally)
    ensures r.isUnsigned <==> t.isUnsigned || w == "unsigned"
    ensures r.longCount == t.longCount + (if w == "long" then 1 else 0)
    ensures r.shortCount == t.shortCount + (if w == "short" then 1 else 0)
    ensures r.output == (if w == "signed" then "int" else if IsBaseWord(w) then w else t.output)
  {
    if w == "unsigned" then t.(isUnsigned := true)
    else if w == "signed" then t.(output := "int")
    else if w == "long" then t.(longCount := t.longCount + 1)
    else if w == "short" then t.(shortCount := t.shortCount + 1)
    else if IsBaseWord(w) then t.(output := w)
    else t
  }

  /** The scan over all words, left to right. */
  function Scan(words: seq<string>): Tally
    decreases |words|
  {
    if |words| == 0 then Tally(false, "", 0, 0)
    else Step(Scan(words[..|words| - 1]), words[|words| - 1])
  }

  function Count(words: seq<string>, w: string): (n: nat)
    ensures n <= |words|
  {
    if |words| == 0 then 0
    else Count(words[..|words| - 1], w) + (if words[|words| - 1] == w then 1 else 0)
  }

  /** The type the last type-naming word names: "signed" stands for "int". */
  function LastBase(words: seq<string>): string {
    if |words| == 0 then ""
    else
      var w := words[|words| - 1];
      if w == "signed" then "int"
      else if IsBaseWord(w) then w
      else LastBase(words[..|words| - 1])
  }

  /** The scan counts "long" and "short", notices "unsigned", and keeps the
      last type-naming word. */
  lemma {:induction false} ScanCounts(words: seq<string>)
    ensures Scan(words).longCount == Count(words, "long")
    ensures Scan(words).shortCount == Count(words, "short")
    ensures Scan(words).isUnsigned <==> "unsigned" in words
    ensures Scan(words).output == LastBase(words)
    decreases |words|
  {
    if |words| > 0 {
      var prefix := words[..|words| - 1];
      ScanCounts(prefix);
      assert words == prefix + [words[|words| - 1]];
      assert "unsigned" in words <==> "unsigned" in prefix || words[|words| - 1] == "unsigned";
    }
  }

  /** The decisions after the scan, as the code makes them: a single "long"
      overwrites the type before the "long double" test looks at it. */
  function FinishAsWritten(t: Tally): (r: string)
    ensures t.longCount == 1 && t.shortCount != 1 && !t.isUnsigned ==> r == "long"
    ensures t.longCount == 2 && t.shortCount != 1 && !t.isUnsigned ==> r == "long long"
    ensures t.shortCount == 1 && !t.isUnsigned ==> r == "short"
    ensures t.longCount != 1 && t.longCount != 2 && t.shortCount != 1 && !t.isUnsigned ==> r == t.output
  {
    var o1 := if t.longCount == 1 then "long" else t.output;
    var o2 := if t.longCount == 1 && o1 == "double" then "long double" else o1;
    var o3 := if t.longCount == 2 then "long long" else o2;
    var o4 := if t.shortCount == 1 then "short" else o3;
    if t.isUnsigned then "unsigned " + o4 else o4
  }

  /** The same decisions with the "long double" test made on the scanned type. */
  function Finish(t: Tally): (r: string)
    ensures t.longCount == 1 && t.output == "double" && t.shortCount != 1 && !t.isUnsigned ==> r == "long double"
    ensures t.longCount == 1 && t.output != "double" && t.shortCount != 1 && !t.isUnsigned ==> r == "long"
    ensures t.longCount == 2 && t.shortCount != 1 && !t.isUnsigned ==> r == "long long"
    ensures t.shortCount == 1 && !t.isUnsigned ==> r == "short"
    ensures t.longCount != 1 && t.longCount != 2 && t.shortCount != 1 && !t.isUnsigned ==> r == t.output
  {
    var o2 := if t.longCount == 1 then (if t.output == "double" then "long double" else "long") else t.output;
    var o3 := if t.longCount == 2 then "long long" else o2;
    var o4 := if t.shortCount == 1 then "short" else o3;
    if t.isUnsigned then "unsigned " + o4 else o4
  }

  /** `ConvertFundamentalType` as written. */
  function ConvertAsWritten(typeName: string): string {
    FinishAsWritten(Scan(Split(typeName, ' ')))
  }

  /** `ConvertFundamentalType` with "long double" kept. */
  function Convert(typeName: string): string {
    Finish(Scan(Split(typeName, ' ')))
  }

  /** The conversion in terms of the words of the name: how many "long" and
      "short" there are, whether "unsigned" is one of them, and which
      type-naming word comes last. */
  lemma ConvertMeaning(typeName: string)
    ensures var words := Split(typeName, ' ');
      var longs := Count(words, "long");
      var shorts := Count(words, "short");
      var body := if shorts == 1 then "short"
                  else if longs == 2 then "long long"
                  else if longs == 1 then (if LastBase(words) == "double" then "long double" else "long")
                  else LastBase(words);
      Convert(typeName) == (if "unsigned" in words then "unsigned " + body else body)
  {
    ScanCounts(Split(typeName, ' '));
  }

  /** The conversion the code runs, in terms of the words of the name: as
      `ConvertMeaning`, except that one "long" always gives "long". */
  lemma ConvertAsWrittenMeaning(typeName: string)
    ensures var words := Split(typeName, ' ');
      var longs := Count(words, "long");
      var shorts := Count(words, "short");
      var body := if shorts == 1 then "short"
                  else if longs == 2 then "long long"
                  else if longs == 1 then "long"
                  else LastBase(words);
      ConvertAsWritten(typeName) == (if "unsigned" in words then "unsigned " + body else body)
  {
    ScanCounts(Split(typeName, ' '));
  }

  /** The two readings differ only on a lone "long" together with "double". */
  lemma ConvertDiffersOnlyOnLongDouble(typeName: string)
    ensures ConvertAsWritten(typeName) != Convert(typeName) ==>
              var words := Split(typeName, ' ');
              Count(words, "long") == 1 && LastBase(words) == "double"
  {
    var words := Split(typeName, ' ');
    ScanCounts(words);
    FinishDiffersOnlyOnLongDouble(Scan(words));
  }

  lemma FinishDiffersOnlyOnLongDouble(t: Tally)
    ensures FinishAsWritten(t) != Finish(t) ==> t.longCount == 1 && t.output == "double"
  {
  }

  lemma TwoWords(a: string, b: string)
    requires ' ' !in a && ' ' !in b
    ensures Split(a + " " + b, ' ') == [a, b]
  {
    SplitAfterWord(a, b, ' ');
    SplitWithoutSeparator(b, ' ');
  }

  lemma ThreeWords(a: string, b: string, c: string)
    requires ' ' !in a && ' ' !in b && ' ' !in c
    ensures Split(a + " " + b + " " + c, ' ') == [a, b, c]
  {
    assert a + " " + b + " " + c == a + [' '] + (b + " " + c);
    SplitAfterWord(a, b + " " + c, ' ');
    TwoWords(b, c);
  }

  lemma FourWords(a: string, b: string, c: string, d: string)
    requires ' ' !in a && ' ' !in b && ' ' !in c && ' ' !in d
    ensures Split(a + " " + b + " " + c + " " + d, ' ') == [a, b, c, d]
  {
    assert a + " " + b + " " + c + " " + d == a + [' '] + (b + " " + c + " " + d);
    SplitAfterWord(a, b + " " + c + " " + d, ' ');
    ThreeWords(b, c, d);
  }

  /** The scan of a few words, one step at a time. */
  lemma ScanTwo(a: string, b: string)
    ensures Scan([a, b]) == Step(Step(Tally(false, "", 0, 0), a), b)
  {
    assert [a, b][..1] == [a] && [a][..0] == [];
    assert Scan([a]) == Step(Tally(false, "", 0, 0), a);
  }

  lemma ScanThree(a: string, b: string, c: string)
    ensures Scan([a, b, c]) == Step(Step(Step(Tally(false, "", 0, 0), a), b), c)
  {
    assert [a, b, c][..2] == [a, b];
    ScanTwo(a, b);
  }

  lemma ScanFour(a: string, b: string, c: string, d: string)
    ensures Scan([a, b, c, d]) == Step(Step(Step(Step(Tally(false, "", 0, 0), a), b), c), d)
  {
    assert [a, b, c, d][..3] == [a, b, c];
    ScanThree(a, b, c);
  }

  /** What each word of the examples does to the tally. */
  lemma StepWords(t: Tally)
    ensures Step(t, "long") == t.(longCount := t.longCount + 1)
    ensures Step(t, "short") == t.(shortCount := t.shortCount + 1)
    ensures Step(t, "unsigned") == t.(isUnsigned := true)
    ensures Step(t, "signed") == t.(output := "int")
    ensures Step(t, "int") == t.(output := "int")
    ensures Step(t, "double") == t.(output := "double")
    ensures Step(t, "char") == t.(output := "char")
  {
  }

  /** An unsigned tally finishes as "unsigned " before the signed answer. */
  lemma FinishUnsigned(t: Tally, signed: string, full: string)
    requires t.isUnsigned && full == "unsigned " + signed
    requires Finish(t.(isUnsigned := false)) == signed && FinishAsWritten(t.(isUnsigned := false)) == signed
    ensures Finish(t) == full && FinishAsWritten(t) == full
  {
  }

  /** Both conversions of a name, from its words, their tally and the answer. */
  lemma ConvertBy(name: string, ws: seq<string>, t: Tally, out: string)
    requires Split(name, ' ') == ws && Scan(ws) == t && Finish(t) == out && FinishAsWritten(t) == out
    ensures Convert(name) == out && ConvertAsWritten(name) == out
  {
  }

  /** "long double" loses its "double" in the code as written. */
  lemma LongDoubleAsWritten()
    ensures ConvertAsWritten("long double") == "long"
  {
    LongDoubleScan();
    assert FinishAsWritten(Tally(false, "double", 0, 1)) == "long";
  }

  lemma LongDoubleCorrected()
    ensures Convert("long double") == "long double"
  {
    LongDoubleScan();
    assert Finish(Tally(false, "double", 0, 1)) == "long double";
  }

  lemma LongDoubleScan()
    ensures Scan(Split("long double", ' ')) == Tally(false, "double", 0, 1)
  {
    LongDoubleWords();
    ScanTwo("long", "double");
    var t0 := Tally(false, "", 0, 0);
    StepWords(t0);
    StepWords(Step(t0, "long"));
  }

  lemma LongDoubleWords()
    ensures Split("long double", ' ') == ["long", "double"]
  {
    assert "long double" == "long" + " " + "double";
    TwoWords("long", "double");
  }

  /** The documented conversions. */
  lemma ShortUnsignedInt()
    ensures Convert("short unsigned int") == "unsigned short" && ConvertAsWritten("short unsigned int") == "unsigned short"
  {
    ShortUnsignedIntWords();
    ShortUnsignedIntScan();
    ShortUnsignedIntFinish();
    ConvertBy("short unsigned int", ["short", "unsigned", "int"], Tally(true, "int", 1, 0), "unsigned short");
  }

  lemma ShortUnsignedIntFinish()
    ensures Finish(Tally(true, "int", 1, 0)) == "unsigned short" && FinishAsWritten(Tally(true, "int", 1, 0)) == "unsigned short"
  {
    FinishUnsigned(Tally(true, "int", 1, 0), "short", "unsigned short");
  }

  lemma ShortUnsignedIntWords()
    ensures Split("short unsigned int", ' ') == ["short", "unsigned", "int"]
  {
    assert "short unsigned int" == "short" + " " + "unsigned" + " " + "int";
    ThreeWords("short", "unsigned", "int");
  }

  lemma ShortUnsignedIntScan()
    ensures Scan(["short", "unsigned", "int"]) == Tally(true, "int", 1, 0)
  {
    ScanThree("short", "unsigned", "int");
    var t0 := Tally(false, "", 0, 0);
    StepWords(t0);
    StepWords(Step(t0, "short"));
    StepWords(Step(Step(t0, "short"), "unsigned"));
  }

  lemma LongLongUnsignedInt()
    ensures Convert("long long unsigned int") == "unsigned long long" && ConvertAsWritten("long long unsigned int") == "unsigned long long"
  {
    LongLongUnsignedIntWords();
    LongLongUnsignedIntScan();
    LongLongUnsignedIntFinish();
    ConvertBy("long long unsigned int", ["long", "long", "unsigned", "int"], Tally(true, "int", 0, 2), "unsigned long long");
  }

  lemma LongLongUnsignedIntFinish()
    ensures Finish(Tally(true, "int", 0, 2)) == "unsigned long long" && FinishAsWritten(Tally(true, "int", 0, 2)) == "unsigned long long"
  {
    FinishUnsigned(Tally(true, "int", 0, 2), "long long", "unsigned long long");
  }

  lemma LongLongUnsignedIntWords()
    ensures Split("long long unsigned int", ' ') == ["long", "long", "unsigned", "int"]
  {
    assert "long long unsigned int" == "long" + " " + "long" + " " + "unsigned" + " " + "int";
    FourWords("long", "long", "unsigned", "int");
  }

  lemma LongLongUnsignedIntScan()
    ensures Scan(["long", "long", "unsigned", "int"]) == Tally(true, "int", 0, 2)
  {
    ScanFour("long", "long", "unsigned", "int");
    var t0 := Tally(false, "", 0, 0);
    StepWords(t0);
    StepWords(Step(t0, "long"));
    StepWords(Step(Step(t0, "long"), "long"));
    StepWords(Step(Step(Step(t0, "long"), "long"), "unsigned"));
  }

  lemma LongInt()
    ensures Convert("long int") == "long" && ConvertAsWritten("long int") == "long"
  {
    LongIntScan();
    assert Finish(Tally(false, "int", 0, 1)) == "long" && FinishAsWritten(Tally(false, "int", 0, 1)) == "long";
  }

  lemma LongIntScan()
    ensures Scan(Split("long int", ' ')) == Tally(false, "int", 0, 1)
  {
    assert "long int" == "long" + " " + "int";
    TwoWords("long", "int");
    ScanTwo("long", "int");
    var t0 := Tally(false, "", 0, 0);
    StepWords(t0);
    StepWords(Step(t0, "long"));
  }

  /** The documentation promises "unsigned int"; the code answers "unsigned long". */
  lemma LongUnsignedInt()
    ensures Convert("long unsigned int") == "unsigned long" && ConvertAsWritten("long unsigned int") == "unsigned long"
  {
    LongUnsignedIntWords();
    LongUnsignedIntScan();
    LongUnsignedIntFinish();
    ConvertBy("long unsigned int", ["long", "unsigned", "int"], Tally(true, "int", 0, 1), "unsigned long");
  }

  lemma LongUnsignedIntFinish()
    ensures Finish(Tally(true, "int", 0, 1)) == "unsigned long" && FinishAsWritten(Tally(true, "int", 0, 1)) == "unsigned long"
  {
    FinishUnsigned(Tally(true, "int", 0, 1), "long", "unsigned long");
  }

  lemma LongUnsignedIntWords()
    ensures Split("long unsigned int", ' ') == ["long", "unsigned", "int"]
  {
    assert "long unsigned int" == "long" + " " + "unsigned" + " " + "int";
    ThreeWords("long", "unsigned", "int");
  }

  lemma LongUnsignedIntScan()
    ensures Scan(["long", "unsigned", "int"]) == Tally(true, "int", 0, 1)
  {
    ScanThree("long", "unsigned", "int");
    var t0 := Tally(false, "", 0, 0);
    StepWords(t0);
    StepWords(Step(t0, "long"));
    StepWords(Step(Step(t0, "long"), "unsigned"));
  }

  lemma SignedChar()
    ensures Convert("signed char") == "char" && ConvertAsWritten("signed char") == "char"
  {
    SignedCharScan();
    assert Finish(Tally(false, "char", 0, 0)) == "char" && FinishAsWritten(Tally(false, "char", 0, 0)) == "char";
  }

  lemma SignedCharScan()
    ensures Scan(Split("signed char", ' ')) == Tally(false, "char", 0, 0)
  {
    assert "signed char" == "signed" + " " + "char";
    TwoWords("signed", "char");
    ScanTwo("signed", "char");
    var t0 := Tally(false, "", 0, 0);
    StepWords(t0);
    StepWords(Step(t0, "signed"));
  }
}

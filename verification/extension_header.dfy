/** `CppExtensionHeaderGenerator` (SharpGen/Parser/CppExtensionHeaderGenerator.cs):
    the C++ text written for the macros a configuration turns into enums and
    constants, so that CastXML sees them as declarations. A macro name is
    suffixed so the parser can tell these declarations apart and strip the
    suffix again; each suffixed name is written at most once per generator. */
module ExtensionHeader {
  import opened Wrappers
  import opened Text
  import opened CppModel

  /** The suffix of an enum item made from a macro. */
  const EnumItemSuffix: string := "__sharpgen_enumitem__"

  /** The suffix of a variable made from a macro. */
  const VariableSuffix: string := "__sharpgen_var__"

  /** `CppElementFinder.Find<CppDefine>(pattern)` under the current contexts.
      The finder searches the C++ module, which is not part of this model; it
      is given as a function of the contexts and the macro pattern. */
  type Finder = (seq<string>, string) -> seq<CppDefine>

  /** The extension rules the generator looks at. `description` is the text
      the rule's `ToString` gives. */
  datatype Rule =
    | CreateEnumRule(description: string, enumName: string, macro: string)
    | ConstantRule(description: string, typeName: string, cppType: Option<string>,
                   cppCast: Option<string>, macro: string)
      /** A rule that generates header text but is neither of the above. */
    | OtherHeaderRule
    | ClearContextRule
    | ContextRule(contextSetId: Option<string>, ids: seq<string>)
      /** Any rule that neither generates header text nor sets contexts. */
    | OtherRule

  /** `GeneratesExtensionHeader()`. */
  predicate GeneratesHeader(rule: Rule) {
    rule.CreateEnumRule? || rule.ConstantRule? || rule.OtherHeaderRule?
  }

  /** The generator's dictionary of suffixed macro names already written, and
      the finder's current contexts. `newLine` is what `AppendLine` ends a
      line with (`Environment.NewLine`). */
  datatype Generator = Generator(defined: map<string, string>, contexts: seq<string>, newLine: string)

  /** The names that a rule's defines contribute once suffixed. */
  function Suffixed(defs: seq<CppDefine>, suffix: string): (r: set<string>)
    ensures forall i :: 0 <= i < |defs| ==> defs[i].name + suffix in r
    ensures forall n :: n in r ==> exists i :: 0 <= i < |defs| && n == defs[i].name + suffix
  {
    set i | 0 <= i < |defs| :: defs[i].name + suffix
  }

  /** The once-only scan shared by both macro kinds: the defines whose
      suffixed name is not yet in `defined`, each kept the first time it is
      seen, and the dictionary with them added. The enum scan records a
      define's value, the variable scan its name. */
  function Scan(defined: map<string, string>, suffix: string, recordValue: bool, defs: seq<CppDefine>)
    : (r: (map<string, string>, seq<CppDefine>))
    ensures |r.1| <= |defs|
    ensures forall i :: 0 <= i < |r.1| ==> r.1[i] in defs
    ensures defined.Keys <= r.0.Keys
    decreases |defs|
  {
    if |defs| == 0 then (defined, [])
    else
      var d := defs[0];
      var name := d.name + suffix;
      if name in defined then Scan(defined, suffix, recordValue, defs[1..])
      else
        var rest := Scan(defined[name := if recordValue then d.value else d.name], suffix, recordValue, defs[1..]);
        (rest.0, [d] + rest.1)
  }

  /** The dictionary afterwards holds what it held, plus every suffixed name
      found. */
  lemma {:induction false} ScanRecords(defined: map<string, string>, suffix: string, v: bool, defs: seq<CppDefine>)
    ensures Scan(defined, suffix, v, defs).0.Keys == defined.Keys + Suffixed(defs, suffix)
    decreases |defs|
  {
    if |defs| > 0 {
      var d := defs[0];
      var name := d.name + suffix;
      SuffixedCons(defs, suffix);
      if name in defined {
        ScanRecords(defined, suffix, v, defs[1..]);
      } else {
        ScanRecords(defined[name := if v then d.value else d.name], suffix, v, defs[1..]);
      }
    }
  }

  lemma SuffixedCons(defs: seq<CppDefine>, suffix: string)
    requires |defs| > 0
    ensures Suffixed(defs, suffix) == {defs[0].name + suffix} + Suffixed(defs[1..], suffix)
  {
    assert forall i :: 1 <= i < |defs| ==> defs[i] == defs[1..][i - 1];
  }

  /** What the dictionary held keeps its value. */
  lemma {:induction false} ScanKeepsValues(defined: map<string, string>, suffix: string, v: bool, defs: seq<CppDefine>, k: string)
    requires k in defined
    ensures Scan(defined, suffix, v, defs).0[k] == defined[k]
    decreases |defs|
  {
    if |defs| > 0 {
      var d := defs[0];
      var name := d.name + suffix;
      if name in defined {
        ScanKeepsValues(defined, suffix, v, defs[1..], k);
      } else {
        ScanKeepsValues(defined[name := if v then d.value else d.name], suffix, v, defs[1..], k);
      }
    }
  }

  /** Everything written is new to the dictionary, and nothing is written
      twice. */
  lemma {:induction false} ScanFresh(defined: map<string, string>, suffix: string, v: bool, defs: seq<CppDefine>)
    ensures forall i :: 0 <= i < |Scan(defined, suffix, v, defs).1| ==>
              Scan(defined, suffix, v, defs).1[i].name + suffix !in defined
    ensures forall i, j :: 0 <= i < j < |Scan(defined, suffix, v, defs).1| ==>
              Scan(defined, suffix, v, defs).1[i].name != Scan(defined, suffix, v, defs).1[j].name
    decreases |defs|
  {
    if |defs| > 0 {
      var d := defs[0];
      var name := d.name + suffix;
      if name in defined {
        ScanFresh(defined, suffix, v, defs[1..]);
      } else {
        var m := defined[name := if v then d.value else d.name];
        ScanFresh(m, suffix, v, defs[1..]);
        var rest := Scan(m, suffix, v, defs[1..]);
        assert Scan(defined, suffix, v, defs) == (rest.0, [d] + rest.1);
        assert name in m;
        assert forall j :: 0 <= j < |rest.1| ==> rest.1[j].name + suffix != name;
        forall j | 0 <= j < |rest.1| ensures rest.1[j].name != d.name {
          AppendInjective(rest.1[j].name, d.name, suffix);
        }
      }
    }
  }

  lemma AppendInjective(a: string, b: string, suffix: string)
    ensures a + suffix == b + suffix <==> a == b
  {
    if a + suffix == b + suffix {
    assert a == (a + suffix)[..|a|];
    assert b == (b + suffix)[..|b|];
    }
  }

  /** Every define found whose suffixed name is new is written. */
  lemma {:induction false} ScanComplete(defined: map<string, string>, suffix: string, v: bool, defs: seq<CppDefine>, i: nat)
    requires i < |defs| && defs[i].name + suffix !in defined
    ensures exists j :: 0 <= j < |Scan(defined, suffix, v, defs).1| && Scan(defined, suffix, v, defs).1[j].name == defs[i].name
    decreases |defs|
  {
    var d := defs[0];
    var name := d.name + suffix;
    if name in defined {
      assert i != 0;
      assert defs[1..][i - 1] == defs[i];
      assert Scan(defined, suffix, v, defs) == Scan(defined, suffix, v, defs[1..]);
      ScanComplete(defined, suffix, v, defs[1..], i - 1);
    } else if i == 0 || d.name == defs[i].name {
      assert Scan(defined, suffix, v, defs).1[0] == d;
    } else {
      var m := defined[name := if v then d.value else d.name];
      assert defs[1..][i - 1] == defs[i];
      AppendInjective(d.name, defs[i].name, suffix);
      ScanComplete(m, suffix, v, defs[1..], i - 1);
      WrittenAfterFirst(d, Scan(m, suffix, v, defs[1..]).1, defs[i].name);
      assert Scan(defined, suffix, v, defs).1 == [d] + Scan(m, suffix, v, defs[1..]).1;
    }
  }

  /** A name written after the first item is still written. */
  lemma WrittenAfterFirst(d: CppDefine, rest: seq<CppDefine>, n: string)
    requires exists j :: 0 <= j < |rest| && rest[j].name == n
    ensures exists j :: 0 <= j < |[d] + rest| && ([d] + rest)[j].name == n
  {
    var j :| 0 <= j < |rest| && rest[j].name == n;
    assert ([d] + rest)[j + 1] == rest[j];
  }

  /** `"\t {name} = {value},\n"` for one enum item. */
  function EnumItemLine(d: CppDefine): string {
    "\t " + d.name + EnumItemSuffix + " = " + d.value + ",\n"
  }

  /** `extern "C" {type} {name} = {cast}{macro};\n` for one constant. */
  function VariableLine(rule: Rule, d: CppDefine): string
    requires rule.ConstantRule?
  {
    "extern \"C\" " + rule.cppType.GetOr(rule.typeName) + " " + d.name + VariableSuffix
      + " = " + rule.cppCast.GetOr("") + d.name + ";\n"
  }

  function EnumItemLines(defs: seq<CppDefine>): string {
    if |defs| == 0 then "" else EnumItemLine(defs[0]) + EnumItemLines(defs[1..])
  }

  function VariableLines(rule: Rule, defs: seq<CppDefine>): string
    requires rule.ConstantRule?
  {
    if |defs| == 0 then "" else VariableLine(rule, defs[0]) + VariableLines(rule, defs[1..])
  }

  /** `items` are taken from `found` at the increasing positions `pos`, and
      each is the first define found under its name. */
  ghost predicate FirstOccurrencesAt(found: seq<CppDefine>, items: seq<CppDefine>, pos: seq<nat>) {
    && |pos| == |items|
    && (forall i :: 0 <= i < |pos| ==> pos[i] < |found| && found[pos[i]] == items[i])
    && (forall i, j :: 0 <= i < j < |pos| ==> pos[i] < pos[j])
    && (forall i, j :: 0 <= i < |pos| && 0 <= j < pos[i] ==> found[j].name != items[i].name)
  }

  /** `items` are the defines a once-only pass over `found` writes: each was
      found and its suffixed name was new, no name is written twice, every
      found define whose suffixed name was new is written, and they come in
      the order found, each the first define of its name. */
  ghost predicate WritesExactlyNew(defined: map<string, string>, suffix: string, found: seq<CppDefine>, items: seq<CppDefine>) {
    && (forall i :: 0 <= i < |items| ==> items[i] in found && items[i].name + suffix !in defined)
    && (forall i, j :: 0 <= i < j < |items| ==> items[i].name != items[j].name)
    && (forall i :: 0 <= i < |found| && found[i].name + suffix !in defined ==>
          exists j :: 0 <= j < |items| && items[j].name == found[i].name)
    && (exists pos :: FirstOccurrencesAt(found, items, pos))
  }

  /** Each position one further on. */
  function ShiftPositions(p: seq<nat>): (r: seq<nat>)
    ensures |r| == |p|
    ensures forall i :: 0 <= i < |p| ==> r[i] == p[i] + 1
  {
    seq(|p|, i requires 0 <= i < |p| => p[i] + 1)
  }

  /** The scan writes the defines in the order found, each the first of its
      name: the positions it takes them from. */
  lemma {:induction false} ScanOrder(defined: map<string, string>, suffix: string, v: bool, defs: seq<CppDefine>)
    returns (pos: seq<nat>)
    ensures FirstOccurrencesAt(defs, Scan(defined, suffix, v, defs).1, pos)
    decreases |defs|
  {
    if |defs| == 0 {
      pos := [];
    } else {
      var d := defs[0];
      var name := d.name + suffix;
      if name in defined {
        var p := ScanOrder(defined, suffix, v, defs[1..]);
        ScanFresh(defined, suffix, v, defs[1..]);
        assert Scan(defined, suffix, v, defs).1 == Scan(defined, suffix, v, defs[1..]).1;
        pos := OrderSkip(defs, Scan(defined, suffix, v, defs[1..]).1, p, defined, suffix);
      } else {
        var m := defined[name := if v then d.value else d.name];
        var p := ScanOrder(m, suffix, v, defs[1..]);
        ScanFresh(m, suffix, v, defs[1..]);
        assert Scan(defined, suffix, v, defs).1 == [d] + Scan(m, suffix, v, defs[1..]).1;
        pos := OrderKeep(defs, Scan(m, suffix, v, defs[1..]).1, p, m, suffix);
      }
    }
  }

  /** A first define whose name was already written adds no item. */
  lemma OrderSkip(defs: seq<CppDefine>, items: seq<CppDefine>, p: seq<nat>, defined: map<string, string>, suffix: string)
    returns (pos: seq<nat>)
    requires |defs| > 0 && defs[0].name + suffix in defined
    requires FirstOccurrencesAt(defs[1..], items, p)
    requires forall i :: 0 <= i < |items| ==> items[i].name + suffix !in defined
    ensures FirstOccurrencesAt(defs, items, pos)
  {
    var tail := defs[1..];
    pos := ShiftPositions(p);
    forall i | 0 <= i < |pos| ensures pos[i] < |defs| && defs[pos[i]] == items[i] {
      assert defs[pos[i]] == tail[p[i]];
    }
    forall i, j | 0 <= i < |pos| && 0 <= j < pos[i] ensures defs[j].name != items[i].name {
      if j > 0 {
        assert defs[j] == tail[j - 1];
      } else {
        assert items[i].name + suffix !in defined;
      }
    }
  }

  /** A first define whose name is new is the first item. */
  lemma OrderKeep(defs: seq<CppDefine>, rest: seq<CppDefine>, p: seq<nat>, m: map<string, string>, suffix: string)
    returns (pos: seq<nat>)
    requires |defs| > 0 && defs[0].name + suffix in m
    requires FirstOccurrencesAt(defs[1..], rest, p)
    requires forall i :: 0 <= i < |rest| ==> rest[i].name + suffix !in m
    ensures FirstOccurrencesAt(defs, [defs[0]] + rest, pos)
  {
    var tail := defs[1..];
    var items := [defs[0]] + rest;
    pos := [0] + ShiftPositions(p);
    forall i | 0 <= i < |pos| ensures pos[i] < |defs| && defs[pos[i]] == items[i] {
      if i > 0 {
        assert pos[i] == p[i - 1] + 1 && items[i] == rest[i - 1];
        assert defs[pos[i]] == tail[p[i - 1]];
      }
    }
    forall i, j | 0 <= i < j < |pos| ensures pos[i] < pos[j] {
      if i > 0 {
        assert pos[i] == p[i - 1] + 1 && pos[j] == p[j - 1] + 1;
      }
    }
    forall i, j | 0 <= i < |pos| && 0 <= j < pos[i] ensures defs[j].name != items[i].name {
      assert i > 0 && pos[i] == p[i - 1] + 1 && items[i] == rest[i - 1];
      if j > 0 {
        assert defs[j] == tail[j - 1];
      } else {
        assert rest[i - 1].name + suffix !in m;
      }
    }
  }

  /** The scan writes exactly the new defines. */
  lemma ScanWritesExactlyNew(defined: map<string, string>, suffix: string, v: bool, defs: seq<CppDefine>)
    ensures WritesExactlyNew(defined, suffix, defs, Scan(defined, suffix, v, defs).1)
  {
    ScanFresh(defined, suffix, v, defs);
    var pos := ScanOrder(defined, suffix, v, defs);
    forall i | 0 <= i < |defs| && defs[i].name + suffix !in defined
      ensures exists j :: 0 <= j < |Scan(defined, suffix, v, defs).1| && Scan(defined, suffix, v, defs).1[j].name == defs[i].name
    {
      ScanComplete(defined, suffix, v, defs, i);
    }
  }

  /** The dictionary after a scan: the old entries unchanged, plus every
      found name with the suffix. */
  lemma ScanExtends(defined: map<string, string>, suffix: string, v: bool, defs: seq<CppDefine>)
    ensures Scan(defined, suffix, v, defs).0.Keys == defined.Keys + Suffixed(defs, suffix)
    ensures forall k :: k in defined ==> Scan(defined, suffix, v, defs).0[k] == defined[k]
  {
    ScanRecords(defined, suffix, v, defs);
    forall k | k in defined ensures Scan(defined, suffix, v, defs).0[k] == defined[k] {
      ScanKeepsValues(defined, suffix, v, defs, k);
    }
  }

  /** `CreateEnumFromMacro`: a comment line, the enum's opening line, one item
      per define not written before, and the closing line. */
  function CreateEnumFromMacro(g: Generator, find: Finder, rule: Rule): (r: (Generator, string))
    requires rule.CreateEnumRule?
    ensures r.0.contexts == g.contexts && r.0.newLine == g.newLine
    ensures r.0.defined.Keys == g.defined.Keys + Suffixed(find(g.contexts, rule.macro), EnumItemSuffix)
    ensures forall k :: k in g.defined ==> r.0.defined[k] == g.defined[k]
    ensures exists items :: WritesExactlyNew(g.defined, EnumItemSuffix, find(g.contexts, rule.macro), items)
              && r.1 == "// Enum created from: " + rule.description + g.newLine
                        + "enum " + rule.enumName + " {" + g.newLine
                        + EnumItemLines(items) + "};" + g.newLine
  {
    var s := Scan(g.defined, EnumItemSuffix, true, find(g.contexts, rule.macro));
    ScanExtends(g.defined, EnumItemSuffix, true, find(g.contexts, rule.macro));
    ScanWritesExactlyNew(g.defined, EnumItemSuffix, true, find(g.contexts, rule.macro));
    (g.(defined := s.0),
     "// Enum created from: " + rule.description + g.newLine + "enum " + rule.enumName + " {" + g.newLine
       + EnumItemLines(s.1) + "};" + g.newLine)
  }

  /** `CreateVariableFromMacro`: a comment line, then one declaration per
      define not written before. */
  function CreateVariableFromMacro(g: Generator, find: Finder, rule: Rule): (r: (Generator, string))
    requires rule.ConstantRule?
    ensures r.0.contexts == g.contexts && r.0.newLine == g.newLine
    ensures r.0.defined.Keys == g.defined.Keys + Suffixed(find(g.contexts, rule.macro), VariableSuffix)
    ensures forall k :: k in g.defined ==> r.0.defined[k] == g.defined[k]
    ensures exists items :: WritesExactlyNew(g.defined, VariableSuffix, find(g.contexts, rule.macro), items)
              && r.1 == "// Variable created from: " + rule.description + g.newLine + VariableLines(rule, items)
  {
    var s := Scan(g.defined, VariableSuffix, false, find(g.contexts, rule.macro));
    ScanExtends(g.defined, VariableSuffix, false, find(g.contexts, rule.macro));
    ScanWritesExactlyNew(g.defined, VariableSuffix, false, find(g.contexts, rule.macro));
    (g.(defined := s.0), "// Variable created from: " + rule.description + g.newLine + VariableLines(rule, s.1))
  }

  /** `CreateCppFromMacro`: any other header rule gives no text. */
  function CreateCppFromMacro(g: Generator, find: Finder, rule: Rule): (r: (Generator, string))
    requires GeneratesHeader(rule)
    ensures rule.OtherHeaderRule? ==> r == (g, "")
    ensures r.0.contexts == g.contexts && r.0.newLine == g.newLine
    ensures g.defined.Keys <= r.0.defined.Keys
  {
    match rule
    case CreateEnumRule(_, _, _) => CreateEnumFromMacro(g, find, rule)
    case ConstantRule(_, _, _, _, _) => CreateVariableFromMacro(g, find, rule)
    case _ => (g, "")
  }

  /** `HandleContextRule`: a clear rule empties the contexts; any other adds
      the contexts of its context set, when it names one the configuration
      has, then its own ids. */
  function HandleContextRule(g: Generator, contextSets: map<string, seq<string>>, rule: Rule): (r: Generator)
    requires rule.ClearContextRule? || rule.ContextRule?
    ensures r.defined == g.defined && r.newLine == g.newLine
    ensures rule.ClearContextRule? ==> r.contexts == []
    ensures rule.ContextRule? ==>
              r.contexts == g.contexts + SetContexts(contextSets, rule.contextSetId) + rule.ids
  {
    if rule.ClearContextRule? then g.(contexts := [])
    else
      var fromSet :=
        if !IsNullOrEmpty(rule.contextSetId) && rule.contextSetId.value in contextSets
        then contextSets[rule.contextSetId.value] else [];
      g.(contexts := g.contexts + fromSet + rule.ids)
  }

  /** The contexts of the set a context rule names: none when it names no set
      or one the configuration does not have. */
  function SetContexts(contextSets: map<string, seq<string>>, id: Option<string>): (r: seq<string>)
    ensures IsNullOrEmpty(id) ==> r == []
    ensures id.Some? && id.value !in contextSets ==> r == []
  {
    if !IsNullOrEmpty(id) && id.value in contextSets then contextSets[id.value] else []
  }

  /** The text of one extension file: each header rule's text, in order, while
      context rules steer the finder. */
  function WriteRules(g: Generator, find: Finder, contextSets: map<string, seq<string>>, rules: seq<Rule>)
    : (r: (Generator, string))
    ensures r.0.newLine == g.newLine
    ensures g.defined.Keys <= r.0.defined.Keys
    decreases |rules|
  {
    if |rules| == 0 then (g, "")
    else
      var step :=
        if GeneratesHeader(rules[0]) then CreateCppFromMacro(g, find, rules[0])
        else if rules[0].ClearContextRule? || rules[0].ContextRule? then (HandleContextRule(g, contextSets, rules[0]), "")
        else (g, "");
      var rest := WriteRules(step.0, find, contextSets, rules[1..]);
      (rest.0, step.1 + rest.1)
  }

  /** What `GenerateExtensionHeaders` needs of a configuration file. */
  datatype ConfigFile = ConfigFile(
    extensionFileName: string,
    hasExtensions: bool,
    updated: bool,
    contextSets: map<string, seq<string>>,
    extension: seq<Rule>)

  /** `GenerateExtensionHeaders`: the files written, by name and text, for the
      configurations that have extensions and were updated. The finder starts
      without contexts; the dictionary lives as long as the generator. */
  function GenerateExtensionHeaders(defined: map<string, string>, newLine: string, find: Finder, configs: seq<ConfigFile>)
    : (r: (map<string, string>, seq<(string, string)>))
    ensures |r.1| <= |configs|
    ensures defined.Keys <= r.0.Keys
    ensures (forall i :: 0 <= i < |configs| ==> !(configs[i].hasExtensions && configs[i].updated)) ==>
              r == (defined, [])
  {
    GenerateFrom(Generator(defined, [], newLine), find, configs)
  }

  function GenerateFrom(g: Generator, find: Finder, configs: seq<ConfigFile>)
    : (r: (map<string, string>, seq<(string, string)>))
    ensures |r.1| <= |configs|
    ensures g.defined.Keys <= r.0.Keys
    ensures (forall i :: 0 <= i < |configs| ==> !(configs[i].hasExtensions && configs[i].updated)) ==>
              r == (g.defined, [])
    decreases |configs|
  {
    if |configs| == 0 then (g.defined, [])
    else
      var c := configs[0];
      assert forall i :: 1 <= i < |configs| ==> configs[1..][i - 1] == configs[i];
      if c.hasExtensions && c.updated then
        var w := WriteRules(g, find, c.contextSets, c.extension);
        var rest := GenerateFrom(w.0, find, configs[1..]);
        (rest.0, [(c.extensionFileName, w.1)] + rest.1)
      else GenerateFrom(g, find, configs[1..])
  }

  // ---------------------------------------------------------------------------
  // Properties
  // ---------------------------------------------------------------------------

  /** Once only: a second scan, after the first, writes none of the macros the
      first wrote, whatever it finds. */
  lemma ScanOnceOnly(defined: map<string, string>, suffix: string, v1: bool, v2: bool,
                     defs1: seq<CppDefine>, defs2: seq<CppDefine>, i: nat, j: nat)
    requires i < |Scan(defined, suffix, v1, defs1).1|
    requires j < |Scan(Scan(defined, suffix, v1, defs1).0, suffix, v2, defs2).1|
    ensures Scan(defined, suffix, v1, defs1).1[i].name
            != Scan(Scan(defined, suffix, v1, defs1).0, suffix, v2, defs2).1[j].name
  {
    var first := Scan(defined, suffix, v1, defs1);
    ScanRecords(defined, suffix, v1, defs1);
    ScanFresh(first.0, suffix, v2, defs2);
    var d := first.1[i];
    var k :| 0 <= k < |defs1| && defs1[k] == d;
    assert d.name + suffix in Suffixed(defs1, suffix);
  }

  /** Across two enum rules, no item is written twice. */
  lemma EnumRulesWriteOnce(g: Generator, find: Finder, rule1: Rule, rule2: Rule)
    requires rule1.CreateEnumRule? && rule2.CreateEnumRule?
    ensures var g1 := CreateEnumFromMacro(g, find, rule1).0;
      var first := Scan(g.defined, EnumItemSuffix, true, find(g.contexts, rule1.macro)).1;
      var second := Scan(g1.defined, EnumItemSuffix, true, find(g1.contexts, rule2.macro)).1;
      forall i, j :: 0 <= i < |first| && 0 <= j < |second| ==> first[i].name != second[j].name
  {
    var defs1 := find(g.contexts, rule1.macro);
    var defs2 := find(g.contexts, rule2.macro);
    forall i, j | 0 <= i < |Scan(g.defined, EnumItemSuffix, true, defs1).1|
                  && 0 <= j < |Scan(Scan(g.defined, EnumItemSuffix, true, defs1).0, EnumItemSuffix, true, defs2).1|
      ensures Scan(g.defined, EnumItemSuffix, true, defs1).1[i].name
              != Scan(Scan(g.defined, EnumItemSuffix, true, defs1).0, EnumItemSuffix, true, defs2).1[j].name
    {
      ScanOnceOnly(g.defined, EnumItemSuffix, true, true, defs1, defs2, i, j);
    }
  }

  /** A define is written by a scan exactly when its suffixed name was not
      written before. */
  lemma ScanWritesNew(defined: map<string, string>, suffix: string, v: bool, defs: seq<CppDefine>, d: CppDefine)
    requires d in defs
    ensures (exists j :: 0 <= j < |Scan(defined, suffix, v, defs).1| && Scan(defined, suffix, v, defs).1[j] == d)
            ==> d.name + suffix !in defined
    ensures d.name + suffix !in defined ==>
              exists j :: 0 <= j < |Scan(defined, suffix, v, defs).1| && Scan(defined, suffix, v, defs).1[j].name == d.name
  {
    var i :| 0 <= i < |defs| && defs[i] == d;
    ScanFresh(defined, suffix, v, defs);
    if d.name + suffix !in defined {
      ScanComplete(defined, suffix, v, defs, i);
    }
  }

  /** The same macro found twice in one rule is written once. */
  lemma DuplicateWrittenOnce(defined: map<string, string>, suffix: string, v: bool, d: CppDefine)
    requires d.name + suffix !in defined
    ensures Scan(defined, suffix, v, [d, d]).1 == [d]
  {
    var name := d.name + suffix;
    var m := defined[name := if v then d.value else d.name];
    assert [d, d][1..] == [d];
    assert Scan(m, suffix, v, [d]).1 == [] by {
      assert [d][1..] == [];
    }
  }

  /** A clear rule followed by a context rule leaves exactly that rule's
      contexts. */
  lemma ClearThenContext(g: Generator, contextSets: map<string, seq<string>>, id: Option<string>, ids: seq<string>)
    ensures HandleContextRule(HandleContextRule(g, contextSets, ClearContextRule), contextSets, ContextRule(id, ids)).contexts
            == SetContexts(contextSets, id) + ids
  {
  }

  /** An enum rule with no defines found writes only its frame. */
  lemma EmptyEnum(g: Generator, find: Finder, rule: Rule)
    requires rule.CreateEnumRule? && find(g.contexts, rule.macro) == []
    ensures CreateEnumFromMacro(g, find, rule)
            == (g, "// Enum created from: " + rule.description + g.newLine
                   + "enum " + rule.enumName + " {" + g.newLine + "};" + g.newLine)
  {
    var s := Scan(g.defined, EnumItemSuffix, true, find(g.contexts, rule.macro));
    assert s == (g.defined, []);
    assert EnumItemLines(s.1) == "";
    assert g.(defined := s.0) == g;
    var head := "// Enum created from: " + rule.description + g.newLine + "enum " + rule.enumName + " {" + g.newLine;
    assert CreateEnumFromMacro(g, find, rule).1 == head + "" + "};" + g.newLine;
    assert head + "" == head;
  }
}

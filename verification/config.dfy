/** `CppParser.Initialize` (SharpGen.Platform/CppParser.cs): what the loaded
    configuration files tell the parser before it reads any CastXML: the bound
    type names, the includes to process, which of them are attached fully or
    partially, and the types a partially attached include attaches. Include
    ids are compared ignoring case, so the sets and maps are keyed by `Fold`. */
module Config {
  import opened Wrappers
  import opened Text

  /** An `<include>` rule: its id, its `attach` flag (absent = null) and its
      `<attach>` type names. */
  datatype IncludeRule = IncludeRule(id: string, attach: Option<bool>, attachTypes: seq<string>)

  /** One loaded configuration file: the `From` of its bindings, its include
      rules, its extension id, and whether one of its extension rules
      generates an extension header. */
  datatype ConfigFile = ConfigFile(
    bindings: seq<string>,
    includes: seq<IncludeRule>,
    extensionId: string,
    generatesExtensionHeader: bool)

  /** The parser's configuration state after `Initialize`. */
  datatype Settings = Settings(
    boundTypes: set<string>,
    includeToProcess: set<string>,
    includeIsAttached: map<string, bool>,
    includeAttachedTypes: map<string, set<string>>)

  const NoSettings: Settings := Settings({}, {}, map[], map[])

  /** The configuration read in order: every include rule of a file, then its
      extension header when it generates one. */
  datatype Event = IncludeEvent(rule: IncludeRule) | ExtensionEvent(id: string)

  function FileEvents(c: ConfigFile): (r: seq<Event>)
    ensures |r| == |c.includes| + (if c.generatesExtensionHeader then 1 else 0)
  {
    seq(|c.includes|, i requires 0 <= i < |c.includes| => IncludeEvent(c.includes[i]))
    + (if c.generatesExtensionHeader then [ExtensionEvent(c.extensionId)] else [])
  }

  function Events(configs: seq<ConfigFile>): seq<Event>
    decreases |configs|
  {
    if |configs| == 0 then [] else Events(configs[..|configs| - 1]) + FileEvents(configs[|configs| - 1])
  }

  function BoundTypes(configs: seq<ConfigFile>): (r: set<string>)
    ensures forall i, j :: 0 <= i < |configs| && 0 <= j < |configs[i].bindings| ==> configs[i].bindings[j] in r
    ensures forall t :: t in r ==> exists i, j :: 0 <= i < |configs| && 0 <= j < |configs[i].bindings| && configs[i].bindings[j] == t
  {
    set i, j | 0 <= i < |configs| && 0 <= j < |configs[i].bindings| :: configs[i].bindings[j]
  }

  /** One include rule (the body of the inner loop). */
  function ApplyRule(s: Settings, rule: IncludeRule): Settings {
    var key := Fold(rule.id);
    var full := rule.attach.GetOr(false);
    var s1 := s.(includeToProcess := s.includeToProcess + {key});
    if !(full || |rule.attachTypes| > 0) then s1
    else
      var attached :=
        if key !in s1.includeIsAttached then s1.includeIsAttached[key := full]
        else if full then s1.includeIsAttached[key := true]
        else s1.includeIsAttached;
      var types :=
        if |rule.attachTypes| > 0 then
          var known := if key in s1.includeAttachedTypes then s1.includeAttachedTypes[key] else {};
          s1.includeAttachedTypes[key := known + (set t | t in rule.attachTypes)]
        else s1.includeAttachedTypes;
      s1.(includeIsAttached := attached, includeAttachedTypes := types)
  }

  /** An extension header: processed, and fully attached unless already known. */
  function ApplyExtension(s: Settings, id: string): Settings {
    var key := Fold(id);
    s.(includeToProcess := s.includeToProcess + {key},
       includeIsAttached := if key in s.includeIsAttached then s.includeIsAttached else s.includeIsAttached[key := true])
  }

  function Apply(s: Settings, e: Event): Settings {
    match e
    case IncludeEvent(rule) => ApplyRule(s, rule)
    case ExtensionEvent(id) => ApplyExtension(s, id)
  }

  function ApplyAll(s: Settings, es: seq<Event>): (r: Settings)
    ensures r.boundTypes == s.boundTypes
    decreases |es|
  {
    if |es| == 0 then s else Apply(ApplyAll(s, es[..|es| - 1]), es[|es| - 1])
  }

  /** `Initialize`. */
  function Initialize(configs: seq<ConfigFile>): (r: Settings)
    ensures r.boundTypes == BoundTypes(configs)
  {
    ApplyAll(NoSettings.(boundTypes := BoundTypes(configs)), Events(configs))
  }

  // ---------------------------------------------------------------------------
  // What Initialize guarantees
  // ---------------------------------------------------------------------------

  /** Every include known to be partially attached has its attach-type set,
      which is what the lookup of the element filter relies on. */
  ghost predicate PartialHasTypes(s: Settings) {
    forall k :: k in s.includeIsAttached && !s.includeIsAttached[k] ==> k in s.includeAttachedTypes
  }

  /** Every attached include is also processed. */
  ghost predicate AttachedIsProcessed(s: Settings) {
    forall k :: k in s.includeIsAttached ==> k in s.includeToProcess
  }

  lemma ApplyKeepsInvariants(s: Settings, e: Event)
    requires PartialHasTypes(s) && AttachedIsProcessed(s)
    ensures PartialHasTypes(Apply(s, e)) && AttachedIsProcessed(Apply(s, e))
  {
  }

  lemma {:induction false} ApplyAllKeepsInvariants(s: Settings, es: seq<Event>)
    requires PartialHasTypes(s) && AttachedIsProcessed(s)
    ensures PartialHasTypes(ApplyAll(s, es)) && AttachedIsProcessed(ApplyAll(s, es))
    decreases |es|
  {
    if |es| > 0 {
      ApplyAllKeepsInvariants(s, es[..|es| - 1]);
      ApplyKeepsInvariants(ApplyAll(s, es[..|es| - 1]), es[|es| - 1]);
    }
  }

  lemma InitializeInvariants(configs: seq<ConfigFile>)
    ensures PartialHasTypes(Initialize(configs))
    ensures AttachedIsProcessed(Initialize(configs))
  {
    ApplyAllKeepsInvariants(NoSettings.(boundTypes := BoundTypes(configs)), Events(configs));
  }

  /** Once processed, attached, or fully attached, an include stays so, and
      an attach-type once registered is never dropped. */
  ghost predicate Grows(s: Settings, t: Settings) {
    && s.boundTypes == t.boundTypes
    && s.includeToProcess <= t.includeToProcess
    && (forall k :: k in s.includeIsAttached ==> k in t.includeIsAttached)
    && (forall k :: k in s.includeIsAttached && s.includeIsAttached[k] ==> t.includeIsAttached[k])
    && (forall k :: k in s.includeAttachedTypes ==>
          k in t.includeAttachedTypes && s.includeAttachedTypes[k] <= t.includeAttachedTypes[k])
  }

  lemma {:induction false} ApplyAllGrows(s: Settings, es: seq<Event>)
    ensures Grows(s, ApplyAll(s, es))
    decreases |es|
  {
    if |es| > 0 {
      ApplyAllGrows(s, es[..|es| - 1]);
    }
  }

  /** The effect of one include rule: its include is processed; a rule with
      `attach="true"` makes it fully attached; a rule with attach types makes
      it attached (partially unless already full) and registers the types; a
      rule with neither leaves the attachment alone. */
  lemma ApplyRuleEffect(s: Settings, rule: IncludeRule)
    ensures var r := ApplyRule(s, rule);
      var key := Fold(rule.id);
      && key in r.includeToProcess
      && (rule.attach == Some(true) ==> key in r.includeIsAttached && r.includeIsAttached[key])
      && (|rule.attachTypes| > 0 ==>
            key in r.includeIsAttached && key in r.includeAttachedTypes
            && (forall t :: t in rule.attachTypes ==> t in r.includeAttachedTypes[key]))
      && (rule.attach != Some(true) && |rule.attachTypes| == 0 ==>
            r.includeIsAttached == s.includeIsAttached && r.includeAttachedTypes == s.includeAttachedTypes)
  {
  }

  /** An extension header never downgrades an include to partial. */
  lemma ApplyExtensionEffect(s: Settings, id: string)
    ensures var r := ApplyExtension(s, id);
      && Fold(id) in r.includeToProcess && Fold(id) in r.includeIsAttached
      && (Fold(id) !in s.includeIsAttached ==> r.includeIsAttached[Fold(id)])
      && (Fold(id) in s.includeIsAttached ==> r.includeIsAttached == s.includeIsAttached)
  {
  }

  /** A partial rule followed by a full one for the same include ends fully
      attached, and the other order too. */
  lemma FullWinsInEitherOrder(s: Settings, id: string, types: seq<string>)
    requires |types| > 0
    ensures var partial := IncludeRule(id, Some(false), types);
      var full := IncludeRule(id, Some(true), []);
      ApplyRule(ApplyRule(s, partial), full).includeIsAttached[Fold(id)]
      && ApplyRule(ApplyRule(s, full), partial).includeIsAttached[Fold(id)]
  {
  }
}

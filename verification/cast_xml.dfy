/** The CastXML document the parser reads, and the index `CppParser.Parse`
    builds over it (SharpGen.Platform/CppParser.cs, Parse and
    AdjustTypeNamesFromTypedefs): id -> element, file -> elements, and the
    re-parenting of every element that names a `context`. */
module CastXml {
  import opened Wrappers
  import opened Text

  /** The element kinds (XML local names) of the CastXML schema. */
  datatype Tag =
    | Namespace | Typedef | FundamentalType | PointerType | ArrayType | ReferenceType
    | CvQualifiedType | FunctionType | Function | Method | Argument | Class | Struct
    | Union | Enumeration | EnumValue | Field | Variable | File
    | OtherTag(localName: string)

  function TagName(t: Tag): string {
    match t
    case Namespace => "Namespace"
    case Typedef => "Typedef"
    case FundamentalType => "FundamentalType"
    case PointerType => "PointerType"
    case ArrayType => "ArrayType"
    case ReferenceType => "ReferenceType"
    case CvQualifiedType => "CvQualifiedType"
    case FunctionType => "FunctionType"
    case Function => "Function"
    case Method => "Method"
    case Argument => "Argument"
    case Class => "Class"
    case Struct => "Struct"
    case Union => "Union"
    case Enumeration => "Enumeration"
    case EnumValue => "EnumValue"
    case Field => "Field"
    case Variable => "Variable"
    case File => "File"
    case OtherTag(n) => n
  }

  /** One XML element: its kind, its attributes, and the children it has in the
      document itself (the arguments of a function, the values of an enum). */
  datatype Element = Element(tag: Tag, attrs: map<string, string>, nested: seq<Element>)

  /** `XElement.AttributeValue(name)`: null when the attribute is absent. */
  function Attr(e: Element, name: string): Option<string> {
    if name in e.attrs then Some(e.attrs[name]) else None
  }

  /** `XElement.SetAttributeValue(name, value)`: a null value removes the attribute. */
  function SetAttr(e: Element, name: string, value: Option<string>): (r: Element)
    ensures r.tag == e.tag && r.nested == e.nested
    ensures Attr(r, name) == value
    ensures forall other :: other != name ==> Attr(r, other) == Attr(e, other)
  {
    match value
    case Some(v) => e.(attrs := e.attrs[name := v])
    case None => e.(attrs := e.attrs - {name})
  }

  /** The elements declared in one file, in document order. */
  datatype FileBucket = FileBucket(file: string, ids: seq<string>)

  /** `_mapIdToXElement`, `_mapFileToXElement` and the re-parenting: `attached[c]`
      lists, in document order, the ids moved under the element with id `c`. */
  datatype Index = Index(
    byId: map<string, Element>,
    order: seq<string>,
    files: seq<FileBucket>,
    attached: map<string, seq<string>>)

  /** Every id the index mentions resolves. */
  ghost predicate Valid(ix: Index) {
    && (forall i :: 0 <= i < |ix.order| ==> ix.order[i] in ix.byId)
    && (forall b, x :: b in ix.files && x in b.ids ==> x in ix.byId)
    && (forall c, x :: c in ix.attached && x in ix.attached[c] ==> x in ix.byId)
  }

  /** `_mapIdToXElement[id]` on an attribute value: a missing attribute is a
      null key, an unknown id a missing key. */
  function Lookup(ix: Index, id: Option<string>): (r: Result<Element>)
    ensures r.Success? <==> id.Some? && id.value in ix.byId
    ensures r.Success? ==> r.value == ix.byId[id.value]
  {
    match id
    case None => Failure(NullKey("id"))
    case Some(k) => if k in ix.byId then Success(ix.byId[k]) else Failure(MissingNode(k))
  }

  /** The elements of `ids` that are in the index, in order. */
  function LookupAll(byId: map<string, Element>, ids: seq<string>): (r: seq<Element>)
    ensures |r| <= |ids|
    ensures (forall i :: 0 <= i < |ids| ==> ids[i] in byId) ==>
              |r| == |ids| && forall i :: 0 <= i < |ids| ==> r[i] == byId[ids[i]]
  {
    if |ids| == 0 then []
    else if ids[0] in byId then [byId[ids[0]]] + LookupAll(byId, ids[1..])
    else LookupAll(byId, ids[1..])
  }

  /** `xElement.Elements()` after re-parenting: the element's own children,
      then the elements whose `context` is this element, in document order. */
  function Children(ix: Index, e: Element): seq<Element> {
    var moved := match Attr(e, "id")
                 case Some(id) => if id in ix.attached then ix.attached[id] else []
                 case None => [];
    e.nested + LookupAll(ix.byId, moved)
  }

  // ---------------------------------------------------------------------------
  // CppParser.Parse: indexing
  // ---------------------------------------------------------------------------

  /** Adds `id` to the bucket of `file`; bucket names compare ignoring case and
      keep the spelling first seen. */
  function AddToFiles(files: seq<FileBucket>, file: string, id: string): (r: seq<FileBucket>)
    ensures forall b, x :: b in r && x in b.ids ==> x == id || exists b0 :: b0 in files && x in b0.ids
    ensures exists b :: b in r && EqualsIgnoreCase(b.file, file) && id in b.ids
  {
    if |files| == 0 then [FileBucket(file, [id])]
    else if EqualsIgnoreCase(files[0].file, file) then
      [files[0].(ids := files[0].ids + [id])] + files[1..]
    else
      var rest := AddToFiles(files[1..], file, id);
      assert forall b :: b in files[1..] ==> b in files;
      [files[0]] + rest
  }

  /** The first pass of `Parse`: every top-level element by id, and by file,
      in document order. An element without an id throws, a repeated id makes
      `Dictionary.Add` throw; the first offending element decides the error. */
  function IndexElements(doc: seq<Element>): (r: Result<Index>)
    ensures r.Success? ==> Indexes(r.value, doc)
  {
    if |doc| == 0 then Success(Index(map[], [], [], map[]))
    else
      var prefix := IndexElements(doc[..|doc| - 1]);
      if prefix.Failure? then Failure(prefix.error)
      else
        var r := AddElement(prefix.value, doc[|doc| - 1]);
        IndexesStep(doc, prefix.value, r);
        r
  }

  /** `ix` indexes the top-level elements `doc`, in order, and nothing else. */
  ghost predicate Indexes(ix: Index, doc: seq<Element>) {
    && Valid(ix) && ix.attached == map[]
    && |ix.order| == |doc|
    && (forall i :: 0 <= i < |doc| ==> Attr(doc[i], "id") == Some(ix.order[i]))
    && (forall i :: 0 <= i < |doc| ==> ix.byId[ix.order[i]] == doc[i])
    && (forall k :: k in ix.byId ==> k in ix.order)
  }

  lemma IndexesStep(doc: seq<Element>, ix: Index, r: Result<Index>)
    requires |doc| > 0 && Indexes(ix, doc[..|doc| - 1])
    requires r == AddElement(ix, doc[|doc| - 1])
    ensures r.Success? ==> Indexes(r.value, doc)
  {
    if r.Success? {
      var prefix := doc[..|doc| - 1];
      forall i | 0 <= i < |doc| - 1
        ensures Attr(doc[i], "id") == Some(r.value.order[i])
        ensures r.value.byId[r.value.order[i]] == doc[i]
      {
        assert doc[i] == prefix[i];
        assert ix.order[i] in ix.byId;
      }
    }
  }

  /** One step of the first pass: `e` indexed under its id and its file. */
  function AddElement(ix: Index, e: Element): (r: Result<Index>)
    requires Valid(ix) && ix.attached == map[]
    requires forall k :: k in ix.byId ==> k in ix.order
    ensures r.Success? <==> Attr(e, "id").Some? && Attr(e, "id").value !in ix.byId
    ensures r.Success? ==> Valid(r.value) && r.value.attached == map[]
    ensures r.Success? ==> r.value.order == ix.order + [Attr(e, "id").value]
    ensures r.Success? ==> r.value.byId == ix.byId[Attr(e, "id").value := e]
    ensures r.Success? ==> forall k :: k in r.value.byId ==> k in r.value.order
  {
    match Attr(e, "id")
    case None => Failure(NullReference("id"))
    case Some(id) =>
      if id in ix.byId then Failure(DuplicateKey(id))
      else
        var files := match Attr(e, "file")
                     case Some(f) => AddToFiles(ix.files, f, id)
                     case None => ix.files;
        Success(Index(ix.byId[id := e], ix.order + [id], files, map[]))
  }

  /** Two top-level elements with the same id make the parse fail. */
  lemma {:induction false} DuplicateIdFails(doc: seq<Element>, i: nat, j: nat)
    requires i < j < |doc|
    requires Attr(doc[i], "id").Some? && Attr(doc[i], "id") == Attr(doc[j], "id")
    ensures IndexElements(doc).Failure?
  {
    var prefix := doc[..|doc| - 1];
    if j < |doc| - 1 {
      assert prefix[i] == doc[i] && prefix[j] == doc[j];
      DuplicateIdFails(prefix, i, j);
    } else {
      var ix := IndexElements(prefix);
      if ix.Success? {
        assert prefix[i] == doc[i];
        assert ix.value.order[i] in ix.value.byId;
      }
    }
  }

  // ---------------------------------------------------------------------------
  // CppParser.AdjustTypeNamesFromTypedefs
  // ---------------------------------------------------------------------------

  /** A tag name a typedef gives its own name to: `tagXXX`, `_XXX` or empty. */
  predicate IsAnonymousTagName(name: string) {
    StartsWith(name, "tag") || StartsWith(name, "_") || name == ""
  }

  predicate IsRenamedByTypedef(t: Tag) {
    t == Struct || t == Union || t == Enumeration
  }

  /** One typedef of the renaming pass: the aliased struct, union or enum takes
      the typedef's name when its own looks anonymous. A missing target throws;
      so does a target with no name at all (`StartsWith` on null). */
  function RenameFromTypedef(byId: map<string, Element>, typedef: Element): (r: Result<map<string, Element>>)
    ensures r.Success? ==> r.value.Keys == byId.Keys
    ensures r.Success? ==> forall k :: k in byId ==>
              r.value[k].tag == byId[k].tag && r.value[k].nested == byId[k].nested
              && forall a :: a != "name" ==> Attr(r.value[k], a) == Attr(byId[k], a)
    ensures r.Success? ==> forall k :: k in byId && Attr(typedef, "type") != Some(k) ==> r.value[k] == byId[k]
    ensures r.Success? && Attr(typedef, "type").Some? && Attr(typedef, "type").value in byId ==>
              var k := Attr(typedef, "type").value;
              var target := byId[k];
              Attr(r.value[k], "name") ==
                (if IsRenamedByTypedef(target.tag) && Attr(target, "name").Some?
                    && IsAnonymousTagName(Attr(target, "name").value)
                 then Attr(typedef, "name") else Attr(target, "name"))
  {
    match Attr(typedef, "type")
    case None => Failure(NullKey("type"))
    case Some(k) =>
      if k !in byId then Failure(MissingNode(k))
      else
        var target := byId[k];
        if !IsRenamedByTypedef(target.tag) then Success(byId)
        else
          match Attr(target, "name")
          case None => Failure(NullReference("name"))
          case Some(structName) =>
            if IsAnonymousTagName(structName) then
              Success(byId[k := SetAttr(target, "name", Attr(typedef, "name"))])
            else Success(byId)
  }

  /** The whole renaming pass over the typedefs of the document, in document order. */
  function NormalizeTypedefNames(byId: map<string, Element>, doc: seq<Element>): (r: Result<map<string, Element>>)
    ensures r.Success? ==> r.value.Keys == byId.Keys
    ensures r.Success? ==> forall k :: k in byId ==>
              r.value[k].tag == byId[k].tag && r.value[k].nested == byId[k].nested
              && forall a :: a != "name" ==> Attr(r.value[k], a) == Attr(byId[k], a)
    decreases |doc|
  {
    if |doc| == 0 then Success(byId)
    else if doc[0].tag != Typedef then NormalizeTypedefNames(byId, doc[1..])
    else
      match RenameFromTypedef(byId, doc[0])
      case Failure(f) => Failure(f)
      case Success(next) => NormalizeTypedefNames(next, doc[1..])
  }

  // ---------------------------------------------------------------------------
  // CppParser.Parse: re-parenting
  // ---------------------------------------------------------------------------

  function Append(attached: map<string, seq<string>>, c: string, id: string): (r: map<string, seq<string>>)
    ensures r.Keys == attached.Keys + {c}
    ensures r[c] == (if c in attached then attached[c] else []) + [id]
    ensures forall k :: k in attached && k != c ==> r[k] == attached[k]
  {
    attached[c := (if c in attached then attached[c] else []) + [id]]
  }

  /** Every element with a `context` moves under that element, in document
      order; an unknown context id throws. */
  function Reparent(byId: map<string, Element>, ids: seq<string>, attached: map<string, seq<string>>): (r: Result<map<string, seq<string>>>)
    requires forall i :: 0 <= i < |ids| ==> ids[i] in byId
    requires forall c, x :: c in attached && x in attached[c] ==> x in byId
    requires forall c :: c in attached ==> c in byId
    ensures r.Success? ==> forall c, x :: c in r.value && x in r.value[c] ==> x in byId
    ensures r.Success? ==> forall c :: c in r.value ==> c in byId
    ensures r.Success? ==> forall c, x :: c in attached && x in attached[c] ==> c in r.value && x in r.value[c]
    ensures r.Success? ==> forall i :: 0 <= i < |ids| && Attr(byId[ids[i]], "context").Some? ==>
              var c := Attr(byId[ids[i]], "context").value;
              c in r.value && ids[i] in r.value[c]
    ensures (forall i :: 0 <= i < |ids| && Attr(byId[ids[i]], "context").Some? ==>
               Attr(byId[ids[i]], "context").value in byId) ==> r.Success?
    decreases |ids|
  {
    if |ids| == 0 then Success(attached)
    else
      match Attr(byId[ids[0]], "context")
      case None =>
        var r := Reparent(byId, ids[1..], attached);
        assert forall i :: 1 <= i < |ids| ==> ids[1..][i - 1] == ids[i];
        r
      case Some(c) =>
        if c !in byId then Failure(MissingNode(c))
        else
          var next := Append(attached, c, ids[0]);
          assert forall k, x :: k in attached && x in attached[k] ==> k in next && x in next[k] by {
            forall k, x | k in attached && x in attached[k] ensures k in next && x in next[k] {
              if k == c { assert next[k] == attached[k] + [ids[0]]; }
            }
          }
          assert ids[0] in next[c];
          var r := Reparent(byId, ids[1..], next);
          assert forall i :: 1 <= i < |ids| ==> ids[1..][i - 1] == ids[i];
          r
  }

  // ---------------------------------------------------------------------------
  // CppParser.Parse
  // ---------------------------------------------------------------------------

  /** `CppParser.Parse` up to the element walk: index, rename, re-parent. */
  function Parse(doc: seq<Element>): (r: Result<Index>)
    ensures r.Success? ==> |r.value.order| == |doc|
  {
    var ix :- IndexElements(doc);
    var byId :- NormalizeTypedefNames(ix.byId, doc);
    var attached :- Reparent(byId, ix.order, map[]);
    Success(ix.(byId := byId, attached := attached))
  }

  /** What a successful parse guarantees: every id resolves, the order is the
      document order, the elements are the document's except for typedef
      renaming, and every element with a context sits under it. */
  lemma ParseIsFaithful(doc: seq<Element>)
    requires Parse(doc).Success?
    ensures var ix := Parse(doc).value;
      && Valid(ix)
      && (forall i :: 0 <= i < |doc| ==> Attr(doc[i], "id") == Some(ix.order[i]))
      && (forall k :: k in ix.byId <==> k in ix.order)
      && (forall i :: 0 <= i < |doc| ==>
            var e := ix.byId[ix.order[i]];
            e.tag == doc[i].tag && e.nested == doc[i].nested
            && (forall a :: a != "name" ==> Attr(e, a) == Attr(doc[i], a)))
      && (forall i :: 0 <= i < |doc| && Attr(doc[i], "context").Some? ==>
            var c := Attr(doc[i], "context").value;
            c in ix.attached && ix.order[i] in ix.attached[c])
  {
    var ix0 := IndexElements(doc).value;
    var byId := NormalizeTypedefNames(ix0.byId, doc).value;
    var attached := Reparent(byId, ix0.order, map[]).value;
    var ix := Parse(doc).value;
    assert ix == ix0.(byId := byId, attached := attached);
    forall i | 0 <= i < |doc| && Attr(doc[i], "context").Some?
      ensures Attr(byId[ix0.order[i]], "context") == Attr(doc[i], "context")
    {
      assert ix0.byId[ix0.order[i]] == doc[i];
    }
  }

  /** Parsing succeeds when indexing and renaming succeed and every context an
      element names is in the document. */
  lemma ParseSucceedsWhenContextsResolve(doc: seq<Element>)
    requires IndexElements(doc).Success?
    requires NormalizeTypedefNames(IndexElements(doc).value.byId, doc).Success?
    requires forall i :: 0 <= i < |doc| && Attr(doc[i], "context").Some? ==>
               exists j :: 0 <= j < |doc| && Attr(doc[j], "id") == Attr(doc[i], "context")
    ensures Parse(doc).Success?
  {
    var ix := IndexElements(doc).value;
    var byId := NormalizeTypedefNames(ix.byId, doc).value;
    forall i | 0 <= i < |ix.order| && Attr(byId[ix.order[i]], "context").Some?
      ensures Attr(byId[ix.order[i]], "context").value in byId
    {
      ContextResolves(doc, ix, byId, i);
    }
    assert Reparent(byId, ix.order, map[]).Success?;
  }

  lemma ContextResolves(doc: seq<Element>, ix: Index, byId: map<string, Element>, i: nat)
    requires IndexElements(doc) == Success(ix)
    requires NormalizeTypedefNames(ix.byId, doc) == Success(byId)
    requires forall i :: 0 <= i < |doc| && Attr(doc[i], "context").Some? ==>
               exists j :: 0 <= j < |doc| && Attr(doc[j], "id") == Attr(doc[i], "context")
    requires i < |ix.order| && Attr(byId[ix.order[i]], "context").Some?
    ensures Attr(byId[ix.order[i]], "context").value in byId
  {
    assert ix.byId[ix.order[i]] == doc[i];
    assert Attr(byId[ix.order[i]], "context") == Attr(doc[i], "context");
    var j :| 0 <= j < |doc| && Attr(doc[j], "id") == Attr(doc[i], "context");
    assert ix.order[j] in ix.byId;
  }

  /** A struct named `tagFOO` aliased by `typedef ... FOO_T` is named `FOO_T`. */
  lemma TypedefRenamesTagStruct(s: Element, t: Element)
    requires s == Element(Struct, map["id" := "s1", "name" := "tagFOO"], [])
    requires t == Element(Typedef, map["id" := "t1", "name" := "FOO_T", "type" := "s1"], [])
    ensures var r := NormalizeTypedefNames(map["s1" := s, "t1" := t], [s, t]);
      r.Success? && Attr(r.value["s1"], "name") == Some("FOO_T")
  {
    var m := map["s1" := s, "t1" := t];
    var renamed := m["s1" := SetAttr(s, "name", Some("FOO_T"))];
    assert StartsWith("tagFOO", "tag");
    RenameAnonymous(m, t, "s1");
    NormalizeTwo(m, s, t, renamed);
  }

  /** Two typedefs of one anonymous struct: the first renames it, and the new
      name no longer looks anonymous, so the second leaves it alone. */
  lemma FirstTypedefNameWins(s: Element, a: Element, b: Element)
    requires s == Element(Struct, map["id" := "s1", "name" := "_FOO"], [])
    requires a == Element(Typedef, map["id" := "t1", "name" := "A", "type" := "s1"], [])
    requires b == Element(Typedef, map["id" := "t2", "name" := "B", "type" := "s1"], [])
    ensures var r := NormalizeTypedefNames(map["s1" := s, "t1" := a, "t2" := b], [s, a, b]);
      r.Success? && Attr(r.value["s1"], "name") == Some("A")
  {
    var m0 := map["s1" := s, "t1" := a, "t2" := b];
    var m1 := m0["s1" := SetAttr(s, "name", Some("A"))];
    assert StartsWith("_FOO", "_");
    RenameAnonymous(m0, a, "s1");
    assert "A"[..1] == "A";
    assert !StartsWith("A", "tag") && !StartsWith("A", "_");
    RenameNamed(m1, b, "s1");
    NormalizeThree(m0, s, a, b, m1, m1);
  }

  /** A typedef of an anonymous tag type gives the tag type its own name. */
  lemma RenameAnonymous(byId: map<string, Element>, t: Element, k: string)
    requires Attr(t, "type") == Some(k) && k in byId
    requires IsRenamedByTypedef(byId[k].tag)
    requires Attr(byId[k], "name").Some? && IsAnonymousTagName(Attr(byId[k], "name").value)
    ensures RenameFromTypedef(byId, t) == Success(byId[k := SetAttr(byId[k], "name", Attr(t, "name"))])
  {
  }

  /** A typedef of a named tag type changes nothing. */
  lemma RenameNamed(byId: map<string, Element>, t: Element, k: string)
    requires Attr(t, "type") == Some(k) && k in byId
    requires Attr(byId[k], "name").Some? && !IsAnonymousTagName(Attr(byId[k], "name").value)
    ensures RenameFromTypedef(byId, t) == Success(byId)
  {
  }

  lemma NormalizeTwo(m0: map<string, Element>, x: Element, a: Element, m1: map<string, Element>)
    requires x.tag != Typedef && a.tag == Typedef
    requires RenameFromTypedef(m0, a) == Success(m1)
    ensures NormalizeTypedefNames(m0, [x, a]) == Success(m1)
  {
    var d: seq<Element> := [];
    assert [a][1..] == d && [x, a][1..] == [a];
    assert NormalizeTypedefNames(m1, d) == Success(m1);
    assert NormalizeTypedefNames(m0, [a]) == NormalizeTypedefNames(m1, d);
  }

  lemma NormalizeThree(m0: map<string, Element>, x: Element, a: Element, b: Element,
                       m1: map<string, Element>, m2: map<string, Element>)
    requires x.tag != Typedef && a.tag == Typedef && b.tag == Typedef
    requires RenameFromTypedef(m0, a) == Success(m1) && RenameFromTypedef(m1, b) == Success(m2)
    ensures NormalizeTypedefNames(m0, [x, a, b]) == Success(m2)
  {
    var d: seq<Element> := [];
    assert [b][1..] == d && [a, b][1..] == [b] && [x, a, b][1..] == [a, b];
    assert NormalizeTypedefNames(m2, d) == Success(m2);
    assert NormalizeTypedefNames(m1, [b]) == NormalizeTypedefNames(m2, d);
    assert NormalizeTypedefNames(m0, [a, b]) == NormalizeTypedefNames(m1, [b]);
  }
}

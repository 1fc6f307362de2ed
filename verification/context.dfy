/** What every builder of `CppParser` (SharpGen.Platform/CppParser.cs) reads:
    the CastXML index, the settings `Initialize` computed, and the set of file
    paths that exist on disk (the only thing `GetIncludeIdFromFileId` asks of
    the file system). */
module ParserContext {
  import opened Wrappers
  import opened Text
  import opened CastXml
  import opened Config

  datatype Context = Context(ix: Index, settings: Settings, existingFiles: set<string>)

  /** `GetIncludeIdFromFileId`: the file element's path without directory
      and extension, or "" when the file does not exist. A file id that is
      not in the index throws. */
  function IncludeIdOfFile(ctx: Context, fileId: Option<string>): (r: Result<string>)
    ensures r.Success? <==> fileId.Some? && fileId.value in ctx.ix.byId
  {
    var file :- Lookup(ctx.ix, fileId);
    match Attr(file, "name")
    case Some(path) => if path in ctx.existingFiles then Success(FileNameWithoutExtension(path)) else Success("")
    case None => Success("")
  }

  /** The include id of a known file: its name without directory and
      extension when the file exists on disk, and `""` otherwise. */
  lemma IncludeIdOfFileValue(ctx: Context, fileId: string)
    requires fileId in ctx.ix.byId
    ensures var path := Attr(ctx.ix.byId[fileId], "name");
            IncludeIdOfFile(ctx, Some(fileId)).value
            == (if path.Some? && path.value in ctx.existingFiles then FileNameWithoutExtension(path.value) else "")
  {
  }

  /** `IsTypeFromIncludeToProcess`: a type without a `file` attribute is not. */
  function FromIncludeToProcess(ctx: Context, e: Element): (r: Result<bool>)
    ensures Attr(e, "file").None? ==> r == Success(false)
    ensures Attr(e, "file").Some? ==>
              (r.Success? <==> IncludeIdOfFile(ctx, Attr(e, "file")).Success?)
    ensures Attr(e, "file").Some? && r.Success? ==>
              r.value == (Fold(IncludeIdOfFile(ctx, Attr(e, "file")).value) in ctx.settings.includeToProcess)
  {
    match Attr(e, "file")
    case None => Success(false)
    case Some(_) =>
      var inc :- IncludeIdOfFile(ctx, Attr(e, "file"));
      Success(Fold(inc) in ctx.settings.includeToProcess)
  }

  /** `IsTypeBinded`: from an include to process, or named by a binding. The
      include test comes first, so its failure wins. */
  function IsTypeBound(ctx: Context, e: Element): (r: Result<bool>)
    ensures r.Success? <==> FromIncludeToProcess(ctx, e).Success?
    ensures r.Success? ==>
              r.value == (FromIncludeToProcess(ctx, e).value
                          || (Attr(e, "name").Some? && Attr(e, "name").value in ctx.settings.boundTypes))
  {
    var fromInclude :- FromIncludeToProcess(ctx, e);
    Success(fromInclude || (Attr(e, "name").Some? && Attr(e, "name").value in ctx.settings.boundTypes))
  }
}

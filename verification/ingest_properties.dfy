/** What `ingest_file` promises about each of its outcomes: which check fails
    first, what each branch answers and what it writes to the store. */
module IngestionProperties {
  import opened Wrappers
  import Text
  import Errors
  import ContentTypes
  import Fragments
  import opened Ingestion

  /** Kind and detail of an error response, `None` for any other response. */
  function ErrorOf(o: Outcome): Option<(Errors.ErrorKind, string)> {
    if o.response.Error? then Errors.Parse(o.response.msg) else None
  }

  /** The checks run in a fixed order, each error names what failed, and no
      error writes anything. The uninitialised store wins over every other
      condition, a missing collection over the file checks, a missing file over
      reading. */
  lemma ErrorPrecedence(env: Env, req: Request)
    ensures var o := Ingest(env, req);
      && (o.response.Error? ==> o.writes == [])
      && (ErrorOf(o) == Some((Errors.StoreUninitialized, [])) <==> !env.storeReady)
      && (ErrorOf(o) == Some((Errors.CollectionNotFound, req.collectionName)) <==>
            env.storeReady && req.collectionName !in env.collections)
      && (ErrorOf(o) == Some((Errors.FileNotFound, req.filePath)) <==>
            env.storeReady && req.collectionName in env.collections && !env.pathExists)
      && (ErrorOf(o).Some? && ErrorOf(o).value.0 == Errors.IngestionError <==>
            Admitted(env, req)
            && (env.readFault.Some? || (!ContentTypes.IsImage(TypeOf(env, req)) && env.addFault.Some?)))
  {
  }

  /** An image type answers with the file's bytes inline, names the subtype after
      the last '/', reports the byte count and writes nothing. */
  lemma ImageBranch(env: Env, req: Request)
    ensures var o := Ingest(env, req);
      var ct := TypeOf(env, req);
      && (o.response.ImageResult? <==> Admitted(env, req) && env.readFault.None? && ContentTypes.IsImage(ct))
      && (o.response.ImageResult? ==>
            && o.writes == []
            && o.response.data == env.data
            && o.response.size == |env.data|
            && o.response.contentType == ct
            && '/' !in o.response.format
            && Text.EndsWith(ct, "/" + o.response.format))
  {
  }

  /** Decodable text: exactly one `add` call, even for zero chunks, whose
      documents are the chunker's fragments in order, each with its own position,
      the common total, the resolved path, the resolved type and the i-th fresh
      id; the response reports the character count and the number of chunks. */
  lemma TextBranch(env: Env, req: Request, text: string)
    requires Admitted(env, req) && env.readFault.None? && env.addFault.None?
    requires !ContentTypes.IsImage(TypeOf(env, req))
    requires env.decoded == Some(text)
    ensures var o := Ingest(env, req);
      var ct := TypeOf(env, req);
      var chunks := env.chunker(ChunkSize, text);
      && o.response == Ok(Text.Preview(text), ct, |text|, |chunks|)
      && |o.writes| == 1
      && o.writes[0].collection == req.collectionName
      && o.writes[0].documents == chunks
      && Fragments.Indexed(o.writes[0], env.resolvedPath, ct)
      && (forall x: nat :: x in Fragments.ChunkIndexSet(o.writes[0].metadatas) <==> x < |chunks|)
      && (forall i :: 0 <= i < |chunks| ==> o.writes[0].ids[i] == env.freshId(i))
  {
    var ct := TypeOf(env, req);
    Fragments.ChunkIndicesArePositions(req.collectionName, env.resolvedPath, ct,
                                       env.chunker(ChunkSize, text), env.freshId);
  }

  /** Undecodable, non-image content: exactly one `add` call holding the one
      binary placeholder of line 108, from which the type and byte size can be
      read back; the
      response reports the byte count and one chunk created. */
  lemma BinaryBranch(env: Env, req: Request)
    requires Admitted(env, req) && env.readFault.None? && env.addFault.None?
    requires !ContentTypes.IsImage(TypeOf(env, req))
    requires env.decoded.None?
    ensures var o := Ingest(env, req);
      var ct := TypeOf(env, req);
      && |o.writes| == 1
      && |o.writes[0].documents| == 1
      && o.writes[0].Aligned()
      && o.writes[0].metadatas == [Fragments.BinaryMeta(env.resolvedPath, ct)]
      && o.writes[0].ids == [env.freshId(0)]
      && o.writes[0].documents == [Fragments.Placeholder(ct, |env.data|)]
      && Fragments.ParsePlaceholder(o.writes[0].documents[0]) == Some((ct, |env.data|))
      && o.response == Ok(Text.Preview(o.writes[0].documents[0]), ct, |env.data|, 1)
  {
  }

  /** A summary response comes exactly from a successful write, and the number of
      chunks it reports is the number of documents written; the preview is never
      longer than 103 characters. */
  lemma SummaryMatchesWrite(env: Env, req: Request)
    ensures var o := Ingest(env, req);
      && (o.response.Ok? <==>
            Admitted(env, req) && env.readFault.None? && env.addFault.None?
            && !ContentTypes.IsImage(TypeOf(env, req)))
      && (o.response.Ok? ==>
            && o.response.chunksCreated == |o.writes[0].documents|
            && |o.response.preview| <= Text.PreviewLimit + |Text.Ellipsis|)
  {
  }

  /** A PNG file with no override: the extension table's "image/png" is used, the
      bytes come back inline tagged "png", and nothing is written. */
  lemma PngScenario(env: Env, req: Request)
    requires Admitted(env, req) && env.readFault.None?
    requires req.contentType.None? && env.guessedType == Some("image/png")
    ensures Ingest(env, req) == Outcome(ImageResult(env.data, "png", "image/png", |env.data|), [])
  {
  }
}

/** `ingest_file` (main.py lines 18-135) as a pure function of the request and of
    an environment that stands for everything the function asks the outside
    world: the store handle, the filesystem, the extension table, the UTF-8
    decoder, the chunker and the id generator. */
module Ingestion {
  import opened Wrappers
  import Text
  import Errors
  import ContentTypes
  import Fragments

  newtype Byte = x: int | 0 <= x < 256

  /** Fragment size the chunker is configured with (main.py line 71). */
  const ChunkSize: nat := 1024

  /** The arguments of one call. `contentType` is the optional MIME override. */
  datatype Request = Request(filePath: string, collectionName: string, contentType: Option<string>)

  /** What the outside world answers during one call.
      - `storeReady`: the module-level store handle has been opened.
      - `collections`: names for which `get_collection` succeeds.
      - `resolvedPath`: `str(Path(file_path).expanduser().resolve())`; `pathExists` its existence.
      - `guessedType`: first component of `mimetypes.guess_type(resolvedPath)`.
      - `data`: the file's bytes; `decoded`: the text read in UTF-8 mode, or `None`
        when reading raised `UnicodeDecodeError`.
      - `readFault`: the text of another exception raised when opening or reading the file.
      - `addFault`: the text of an exception raised by the store's `add` call.
      - `chunker`: the external recursive chunker, given its size limit and the text.
      - `freshId`: the id `uuid4` supplies for the i-th fragment of this call. */
  datatype Env = Env(
    storeReady: bool,
    collections: set<string>,
    resolvedPath: string,
    pathExists: bool,
    guessedType: Option<string>,
    data: seq<Byte>,
    decoded: Option<string>,
    readFault: Option<string>,
    addFault: Option<string>,
    chunker: (nat, string) -> seq<string>,
    freshId: nat -> string)

  /** The response dictionary. */
  datatype Response =
    | Error(msg: string)
    | ImageResult(data: seq<Byte>, format: string, contentType: string, size: nat)
    | Ok(preview: string, contentType: string, size: nat, chunksCreated: nat)

  /** A response together with the `add` calls the store accepted during the call. */
  datatype Outcome = Outcome(response: Response, writes: seq<Fragments.AddCall>)

  /** An error response; nothing has been written. */
  function Fail(kind: Errors.ErrorKind, detail: string): (o: Outcome)
    ensures o.response.Error? && o.writes == []
    ensures Errors.Parse(o.response.msg) == Some((kind, Errors.Carried(kind, detail)))
  {
    Errors.ParseMessage(kind, detail);
    Outcome(Error(Errors.Message(kind, detail)), [])
  }

  /** The store and file checks of lines 36-52 all pass. */
  predicate Admitted(env: Env, req: Request) {
    env.storeReady && req.collectionName in env.collections && env.pathExists
  }

  /** The content type the call works with (lines 55-57). */
  function TypeOf(env: Env, req: Request): string {
    ContentTypes.Resolve(req.contentType, env.guessedType)
  }

  /** Hands `call` to the store (main.py lines 100-102 and 111-123). The log gains
      the call exactly when the store accepts it, and then the branch's summary is
      the answer; a refused call leaves the log untouched and turns into the
      catch-all error of line 135, carrying the store's exception text. */
  function Store(env: Env, call: Fragments.AddCall, response: Response): (o: Outcome)
    requires !response.Error?
    ensures |o.writes| <= 1
    ensures o.writes != [] <==> !o.response.Error?
    ensures o.writes != [] <==> env.addFault.None?
    ensures o.writes != [] ==> o.writes[0] == call && o.response == response
    ensures o.response.Error? ==>
      Errors.Parse(o.response.msg) == Some((Errors.IngestionError, env.addFault.value))
  {
    match env.addFault
    case Some(e) => Fail(Errors.IngestionError, e)
    case None => Outcome(response, [call])
  }

  /** The write log of `o` holds at most one `add` call, made exactly when the
      response is a summary, into `collection` with aligned lists whose records
      all name `sourceFile` and `contentType`. */
  predicate LogWellFormed(o: Outcome, collection: string, sourceFile: string, contentType: string) {
    && |o.writes| <= 1
    && (o.writes != [] <==> o.response.Ok?)
    && forall w :: w in o.writes ==>
         && w.collection == collection
         && w.Aligned()
         && forall m :: m in w.metadatas ==> m.sourceFile == sourceFile && m.contentType == contentType
  }

  /** The text and binary branches (lines 71-132), for a type that is not an image. */
  function StoreContent(env: Env, req: Request, ct: string): (o: Outcome)
    ensures LogWellFormed(o, req.collectionName, env.resolvedPath, ct)
    ensures o.response.Error? ==> Errors.KindOf(o.response.msg) == Some(Errors.IngestionError)
    ensures !o.response.ImageResult?
    ensures o.response.Ok? ==> o.response.contentType == ct
  {
    match env.decoded
    case Some(text) =>
      var chunks := env.chunker(ChunkSize, text);
      Fragments.ChunkIndicesArePositions(req.collectionName, env.resolvedPath, ct, chunks, env.freshId);
      var call := Fragments.ChunkBatch(req.collectionName, env.resolvedPath, ct, chunks, env.freshId);
      Store(env, call, Ok(Text.Preview(text), ct, |text|, |chunks|))
    case None =>
      var call := Fragments.BinaryBatch(req.collectionName, env.resolvedPath, ct, |env.data|, env.freshId);
      Store(env, call, Ok(Text.Preview(call.documents[0]), ct, |env.data|, 1))
  }

  function Ingest(env: Env, req: Request): (o: Outcome)
    ensures LogWellFormed(o, req.collectionName, env.resolvedPath, TypeOf(env, req))
    ensures o.writes != [] ==> req.collectionName in env.collections
    ensures o.response.Error? ==> Errors.KindOf(o.response.msg).Some?
    ensures !o.response.Error? ==> Admitted(env, req) && o.response.contentType == TypeOf(env, req)
  {
    if !env.storeReady then Fail(Errors.StoreUninitialized, [])
    else if req.collectionName !in env.collections then Fail(Errors.CollectionNotFound, req.collectionName)
    else if !env.pathExists then Fail(Errors.FileNotFound, req.filePath)
    else
      var ct := TypeOf(env, req);
      if env.readFault.Some? then Fail(Errors.IngestionError, env.readFault.value)
      else if ContentTypes.IsImage(ct) then
        Outcome(ImageResult(env.data, ContentTypes.ImageFormat(ct), ct, |env.data|), [])
      else StoreContent(env, req, ct)
  }
}

/** The four error responses of `ingest_file` (main.py lines 36-52 and 134-135).
    The response carries free text only; `Parse` shows that the text still tells
    the kinds apart and keeps the detail each message embeds. */
module Errors {
  import opened Wrappers
  import Text

  datatype ErrorKind =
    | StoreUninitialized   // no store handle (line 37)
    | CollectionNotFound   // `get_collection` raised ValueError (lines 41-44)
    | FileNotFound         // resolved path does not exist (line 52)
    | IngestionError       // any other exception while reading or storing (line 135)

  const UninitializedText: string := "Chroma client not initialized"
  const CollectionHead: string := "Collection '"
  const CollectionTail: string := "' does not exist. Please create it first."
  const FileNotFoundHead: string := "File not found: "
  const IngestionHead: string := "Error reading file: "

  /** The message text for `kind`. `detail` is the collection name, the path as
      the caller wrote it, or the exception text; the uninitialised-store message
      embeds none. */
  function Message(kind: ErrorKind, detail: string): string {
    match kind
    case StoreUninitialized => UninitializedText
    case CollectionNotFound => CollectionHead + detail + CollectionTail
    case FileNotFound => FileNotFoundHead + detail
    case IngestionError => IngestionHead + detail
  }

  /** The detail a message of `kind` actually carries. */
  function Carried(kind: ErrorKind, detail: string): string {
    if kind == StoreUninitialized then [] else detail
  }

  /** Recovers kind and detail from a message text. */
  function Parse(msg: string): Option<(ErrorKind, string)> {
    if msg == UninitializedText then Some((StoreUninitialized, []))
    else if Text.StartsWith(msg, CollectionHead) && Text.EndsWith(msg, CollectionTail)
            && |CollectionHead| + |CollectionTail| <= |msg|
    then Some((CollectionNotFound, msg[|CollectionHead|..|msg| - |CollectionTail|]))
    else if Text.StartsWith(msg, FileNotFoundHead) then Some((FileNotFound, msg[|FileNotFoundHead|..]))
    else if Text.StartsWith(msg, IngestionHead) then Some((IngestionError, msg[|IngestionHead|..]))
    else None
  }

  /** Every message parses back to its own kind and the detail it carries, so no
      two kinds share a message. */
  lemma ParseMessage(kind: ErrorKind, detail: string)
    ensures Parse(Message(kind, detail)) == Some((kind, Carried(kind, detail)))
  {
    var msg := Message(kind, detail);
    match kind
    case StoreUninitialized =>
    case CollectionNotFound =>
      assert msg[1] == 'o' && UninitializedText[1] == 'h';
      assert msg[..|CollectionHead|] == CollectionHead;
      assert msg[|msg| - |CollectionTail|..] == CollectionTail;
      assert msg[|CollectionHead|..|msg| - |CollectionTail|] == detail;
    case FileNotFound =>
      assert msg[0] == 'F';
      assert msg[..|FileNotFoundHead|] == FileNotFoundHead;
      assert msg[|FileNotFoundHead|..] == detail;
    case IngestionError =>
      assert msg[0] == 'E';
      assert msg[..|IngestionHead|] == IngestionHead;
      assert msg[|IngestionHead|..] == detail;
  }

  /** Kind of a message produced by `Message`. */
  function KindOf(msg: string): Option<ErrorKind> {
    match Parse(msg)
    case Some(p) => Some(p.0)
    case None => None
  }
}

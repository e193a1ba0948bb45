/** The records `ingest_file` hands to the store's `add` call: fragment documents,
    their metadata and their ids (main.py lines 81-123). */
module Fragments {
  import opened Wrappers
  import Text

  /** Metadata attached to a stored fragment. A text fragment records its position
      among the fragments of its ingest; the single binary placeholder carries
      `is_binary = True` and no position at all. */
  datatype Metadata =
    | ChunkMeta(sourceFile: string, contentType: string, chunkIndex: nat, totalChunks: nat)
    | BinaryMeta(sourceFile: string, contentType: string)
  {
    predicate IsBinary() {
      BinaryMeta?
    }
  }

  /** One `collection.add(documents=…, metadatas=…, ids=…)` call. */
  datatype AddCall = AddCall(
    collection: string,
    documents: seq<string>,
    metadatas: seq<Metadata>,
    ids: seq<string>)
  {
    /** The three sequences are positionally aligned. */
    predicate Aligned() {
      |documents| == |metadatas| == |ids|
    }
  }

  /** Chunk metadata of every record of `call` is the position of the record, the
      total is the record count, and all records share one source and one type. */
  predicate Indexed(call: AddCall, sourceFile: string, contentType: string) {
    && call.Aligned()
    && forall i :: 0 <= i < |call.metadatas| ==>
         call.metadatas[i] == ChunkMeta(sourceFile, contentType, i, |call.metadatas|)
  }

  /** The batch written for the text branch: fragment `i` is chunk `i` of the
      chunker's output with the `i`-th fresh id. */
  function ChunkBatch(collection: string, sourceFile: string, contentType: string,
                      chunks: seq<string>, freshId: nat -> string): (call: AddCall)
  {
    AddCall(
      collection,
      chunks,
      seq(|chunks|, i requires 0 <= i < |chunks| => ChunkMeta(sourceFile, contentType, i, |chunks|)),
      seq(|chunks|, i requires 0 <= i < |chunks| => freshId(i)))
  }

  /** The loop of main.py lines 82-98, appending one document, one metadata record
      and one id per chunk. */
  method BuildChunkBatch(collection: string, sourceFile: string, contentType: string,
                         chunks: seq<string>, freshId: nat -> string) returns (call: AddCall)
    ensures call == ChunkBatch(collection, sourceFile, contentType, chunks, freshId)
    ensures call.documents == chunks
    ensures Indexed(call, sourceFile, contentType)
  {
    var documents: seq<string> := [];
    var metadatas: seq<Metadata> := [];
    var ids: seq<string> := [];
    var i := 0;
    while i < |chunks|
      invariant 0 <= i <= |chunks|
      invariant documents == chunks[..i]
      invariant |metadatas| == i && |ids| == i
      invariant forall j :: 0 <= j < i ==> metadatas[j] == ChunkMeta(sourceFile, contentType, j, |chunks|)
      invariant forall j :: 0 <= j < i ==> ids[j] == freshId(j)
    {
      documents := documents + [chunks[i]];
      metadatas := metadatas + [ChunkMeta(sourceFile, contentType, i, |chunks|)];
      ids := ids + [freshId(i)];
      i := i + 1;
    }
    assert documents == chunks;
    call := AddCall(collection, documents, metadatas, ids);
  }

  /** The `chunk_index` values present among `metadatas`. */
  function ChunkIndexSet(metadatas: seq<Metadata>): set<nat> {
    set m | m in metadatas && m.ChunkMeta? :: m.chunkIndex
  }

  /** Chunk indices of a text batch are exactly `0 .. n-1`, each once, and every
      record reports the same total `n`. */
  lemma ChunkIndicesArePositions(collection: string, sourceFile: string, contentType: string,
                                 chunks: seq<string>, freshId: nat -> string)
    ensures var call := ChunkBatch(collection, sourceFile, contentType, chunks, freshId);
      && call.Aligned()
      && Indexed(call, sourceFile, contentType)
      && (forall x: nat :: x in ChunkIndexSet(call.metadatas) <==> x < |chunks|)
      && (forall m :: m in call.metadatas ==> !m.IsBinary() && m.totalChunks == |chunks|)
  {
    var call := ChunkBatch(collection, sourceFile, contentType, chunks, freshId);
    var indices := ChunkIndexSet(call.metadatas);
    forall x: nat | x < |chunks|
      ensures x in indices
    {
      assert call.metadatas[x].chunkIndex == x;
    }
  }

  // ---------------------------------------------------------------------------
  // Binary fallback (main.py lines 104-123)

  const PlaceholderHead: string := "<Binary data of type "
  const SizeTag: string := ", size "
  const PlaceholderTail: string := " bytes>"

  /** The document stored in place of undecodable content. */
  function Placeholder(contentType: string, size: nat): string {
    PlaceholderHead + contentType + SizeTag + Text.Decimal(size) + PlaceholderTail
  }

  /** Reads the content type and byte size back out of a placeholder document.
      The size is the final digit run, so a content type that itself contains
      ", size " or ends in digits is still recovered intact. */
  function ParsePlaceholder(doc: string): Option<(string, nat)> {
    if !(Text.StartsWith(doc, PlaceholderHead) && Text.EndsWith(doc, PlaceholderTail)
         && |PlaceholderHead| + |PlaceholderTail| <= |doc|)
    then None
    else
      var middle := doc[|PlaceholderHead|..|doc| - |PlaceholderTail|];
      var k := Text.TrailingDigits(middle);
      var rest := middle[..|middle| - k];
      if k == 0 || !Text.EndsWith(rest, SizeTag) then None
      else Some((rest[..|rest| - |SizeTag|], Text.ParseDecimal(middle[|middle| - k..])))
  }

  /** The placeholder keeps both facts it embeds. */
  lemma PlaceholderRoundTrip(contentType: string, size: nat)
    ensures ParsePlaceholder(Placeholder(contentType, size)) == Some((contentType, size))
  {
    var digits := Text.Decimal(size);
    var doc := Placeholder(contentType, size);
    var rest := PlaceholderHead + contentType + SizeTag;
    var middle := contentType + SizeTag + digits;
    assert doc == rest + digits + PlaceholderTail;
    assert Text.StartsWith(doc, PlaceholderHead) by {
      assert doc[..|PlaceholderHead|] == PlaceholderHead;
    }
    assert Text.EndsWith(doc, PlaceholderTail) by {
      assert doc[|doc| - |PlaceholderTail|..] == PlaceholderTail;
    }
    assert doc[|PlaceholderHead|..|doc| - |PlaceholderTail|] == middle;
    var prefix := contentType + SizeTag;
    assert middle == prefix + digits;
    assert prefix[|prefix| - 1] == ' ';
    Text.TrailingDigitsOfAppend(prefix, digits);
    assert middle[..|middle| - |digits|] == prefix;
    assert middle[|middle| - |digits|..] == digits;
    assert prefix[|prefix| - |SizeTag|..] == SizeTag;
    assert prefix[..|prefix| - |SizeTag|] == contentType;
    Text.DecimalRoundTrip(size);
  }

  /** The one-record batch written for undecodable content. */
  function BinaryBatch(collection: string, sourceFile: string, contentType: string,
                       size: nat, freshId: nat -> string): (call: AddCall)
    ensures call.Aligned() && |call.documents| == 1
    ensures call.metadatas[0].IsBinary()
    ensures call.metadatas[0].sourceFile == sourceFile && call.metadatas[0].contentType == contentType
    ensures call.documents == [Placeholder(contentType, size)]
    ensures ParsePlaceholder(call.documents[0]) == Some((contentType, size))
  {
    PlaceholderRoundTrip(contentType, size);
    AddCall(collection, [Placeholder(contentType, size)], [BinaryMeta(sourceFile, contentType)], [freshId(0)])
  }
}

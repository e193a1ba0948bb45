# doc-builder-mcp: the `ingest_file` pipeline in Dafny

This project models `ingest_file` from `main.py` of the DocBuilder MCP server.
The function ingests one local file into a named Chroma collection. It checks
that the store handle is open and that the collection exists. It then resolves
the path and checks that it exists, and resolves the content type. After that
it takes one of three branches:

- image types are returned inline and never stored;
- UTF-8 text is cut into fragments by the external recursive chunker and
  written in one `add` call, with per-fragment metadata and ids;
- content that fails to decode is written as one binary placeholder record.

It answers with a preview of the content cut to 100 characters, the type, the
size and the number of fragments created.

The model is one pure function, `Ingestion.Ingest(env, req)`. Everything the
Python code asks the outside world is a field of `env`:

- the store handle;
- the set of existing collections;
- the resolved path and whether it exists;
- the extension-table guess;
- the file's bytes and their UTF-8 decoding;
- the chunker and the id source;
- optional exception texts for reading the file and for the store's `add` call.

The result is the response together with the log of `add` calls the store
accepted.

Modules:

- `Text`: the Python string operations the function uses. These are
  `startswith`, `split("/")[-1]`, `str(int)` and the preview slice.
- `ContentTypes`: how the override and the guess resolve to a type, and the
  image test.
- `Errors`: the four error messages, with a parser showing that they stay
  distinguishable.
- `Fragments`: metadata records, the `add` batches of the text and binary
  branches, and the placeholder document with its parser.
- `Ingestion`: the environment, request, response and `Ingest`.
- `IngestionProperties`: error precedence and one characterisation lemma for
  each branch.

Facts about main.py that the model keeps:

- If the chunker returns no chunks, the code still calls `add` with three empty
  lists (main.py:82-102). The summary with `chunks_created` 0 comes back only if
  the store accepts that call (`env.addFault` is None).
- The code checks the store handle (main.py:36-37) before the collection.
- Errors are free text, not error codes. `Errors.ParseMessage` shows that the
  text still identifies the kind and carries the collection name, the path as
  the caller typed it, or the exception text.
- A guessed type that is the empty string also falls back to
  `application/octet-stream`, because Python's `or` treats it as false
  (main.py:57).

## Model

| member | source | states |
|---|---|---|
| Text.AfterLast | main.py:64 | the result is the suffix of the type after its last '/', holds no '/', and is the whole string when there is no '/' |
| Text.Decimal | main.py:108 | the byte count is written as a non-empty run of decimal digits with no leading zero unless it is 0 |
| Text.DecimalRoundTrip | main.py:108 | reading the decimal spelling back gives the original byte count |
| Text.Preview | main.py:126 | the preview is at most 103 characters and starts with the first min(n, 100) characters of the content; content of 100 characters or fewer is echoed verbatim, longer content gets exactly 100 characters plus "..." |
| Text.PreviewDeterminesShortContent | main.py:126 | two contents with the same preview are equal if either has at most 100 characters, and otherwise agree on their first 100 characters |
| ContentTypes.Resolve | main.py:55-57 | a non-empty override is used verbatim, otherwise a non-empty guess, otherwise application/octet-stream; the resolved type is never empty |
| ContentTypes.EmptyOverrideIsAbsent | main.py:55 | an empty-string override resolves exactly like no override |
| ContentTypes.ResolveIdempotent | main.py:55-57 | passing a resolved type back as the override yields the same type whatever the guess |
| ContentTypes.ImageFormat | main.py:60-64 | the image format has no '/' and the type ends with '/' followed by it |
| Errors.ParseMessage | main.py:36-52 | each error message (uninitialised store, missing collection, missing file, and the "Error reading file" catch-all of line 135) parses back to its own kind and the detail it embeds |
| Fragments.BuildChunkBatch | main.py:82-98 | the loop appends chunk i as document i, metadata with chunk_index i and total_chunks n, and the i-th fresh id; the result equals the reference batch `ChunkBatch` |
| Fragments.ChunkIndicesArePositions | main.py:87-97 | the three lists are aligned; the chunk_index values are exactly 0..n-1, each at its own position; every record has total_chunks n, one source file and one content type, and none is binary |
| Fragments.PlaceholderRoundTrip | main.py:108 | the placeholder text gives back both the content type and the byte size it embeds, even when the type itself contains ", size " or ends in digits |
| Fragments.BinaryBatch | main.py:111-123 | the binary batch is one aligned record: the placeholder text of line 108, which parses back to (type, size), and metadata marked binary with the resolved path and type |
| Ingestion.Store | main.py:100-102 | the log holds at most one call; it gains the call exactly when the store raises nothing, and then the answer is the branch's summary; otherwise the log stays empty and the answer is the "Error reading file" error carrying the store's exception text |
| Ingestion.StoreContent | main.py:71-132 | for a non-image type, the log holds at most one `add` call, made exactly when the response is a summary, into the requested collection with aligned lists naming the resolved path and type; the only error is the "Error reading file" catch-all; no image response |
| Ingestion.Ingest | main.py:18-135 | at most one `add` call, made exactly when the response is a summary; it goes to the requested, existing collection with aligned lists, and every record has the resolved path and type; every error is a recognisable message; a non-error response means all checks passed and carries the resolved type |
| IngestionProperties.ErrorPrecedence | main.py:36-52 | uninitialised store, missing collection and missing file errors each occur exactly when that check is the first to fail, with the collection name and the original file path as details; the catch-all error occurs exactly on a read fault or a store fault in a storing branch; no error writes anything |
| IngestionProperties.ImageBranch | main.py:59-69 | an image response occurs exactly when the checks pass, the file reads and the type starts with "image/"; it returns the bytes, their count, the type and the text after the last '/', and writes nothing |
| IngestionProperties.TextBranch | main.py:73-102 | for decodable text: exactly one `add` call, even for zero chunks; its documents are the chunker's output for size 1024; metadata and ids are indexed by position; the response has the preview, the character count and chunks_created n |
| IngestionProperties.BinaryBranch | main.py:104-123 | for undecodable non-image content: exactly one `add` call whose one document is the placeholder text of line 108, which parses back to type and byte size, binary metadata and the first fresh id; the response reports the byte count, the placeholder's preview and chunks_created 1 |
| IngestionProperties.SummaryMatchesWrite | main.py:125-132 | a summary response occurs exactly when the checks pass, nothing faults and the type is not an image; its chunks_created equals the number of documents written and its preview is at most 103 characters |
| IngestionProperties.PngScenario | main.py:55-69 | with no override and a guess of image/png, the bytes come back inline with format "png" and type image/png, and nothing is written |

## Left out

- The chunking algorithm: `RecursiveChunker` from the `chonkie` library (main.py:8, 71, 79) is not part of this model. It is the uninterpreted `env.chunker`, called with the configured size 1024. No fragment-size bound, reconstruction or count property is assumed.
- The first `get_collection` (main.py:39-44) sits outside the `try` of line 46 and catches only `ValueError`. Any other exception it raises escapes `ingest_file` instead of becoming an error response. The model does not represent that escape: a collection is either present or answered with the missing-collection error.
- The Chroma store (main.py:40, 101-102, 112-123, 148) is a collection-name set plus a log of accepted `add` calls. The second `get_collection` before each `add` is assumed to agree with the first; any exception there or in `add` is the single `env.addFault`.
- Path expansion and resolution, `mimetypes.guess_type` and UTF-8 decoding (main.py:48, 56, 74-75) are environment inputs. `env.decoded` stands for the text after Python's text-mode newline translation.
- `uuid.uuid4()` (main.py:88, 122) is the id source `env.freshId`. Id uniqueness is not modelled.
- The catch-all `except Exception` (main.py:134-135) is modelled only for a fault on opening or reading the file (`env.readFault`) and a fault from the store (`env.addFault`). Exceptions from path resolution, from the chunker or from re-opening the file in binary mode are not modelled.
- The MCP `Image` wrapper is the `ImageResult` response holding the bytes and the format string.
- `init_chroma`, `main`, argument parsing and the FastMCP server (main.py:9-12, 138-171) are process startup and transport. They are not modelled.

/** Content-type resolution and the image test of `ingest_file` (main.py lines 55-64). */
module ContentTypes {
  import opened Wrappers
  import Text

  /** Type used when neither the caller nor the extension table supplies one. */
  const DefaultType: string := "application/octet-stream"

  /** Prefix that sends a file down the image branch. */
  const ImagePrefix: string := "image/"

  /** Python truthiness of an optional string: neither `None` nor `""`. */
  predicate Given(s: Option<string>) {
    s.Some? && s.value != []
  }

  /** `if not content_type: content_type = guess or "application/octet-stream"`.
      `guess` is the first component of `mimetypes.guess_type` for the resolved path. */
  function Resolve(override: Option<string>, guess: Option<string>): (ct: string)
    ensures ct != []
    ensures Given(override) ==> ct == override.value
    ensures !Given(override) && Given(guess) ==> ct == guess.value
    ensures !Given(override) && !Given(guess) ==> ct == DefaultType
  {
    if Given(override) then override.value
    else if Given(guess) then guess.value
    else DefaultType
  }

  /** An empty override is no override at all. */
  lemma EmptyOverrideIsAbsent(guess: Option<string>)
    ensures Resolve(Some([]), guess) == Resolve(None, guess)
  {
  }

  /** Passing a resolved type back as the override resolves to the same type,
      whatever the extension table says the second time. */
  lemma ResolveIdempotent(override: Option<string>, guess: Option<string>, guess': Option<string>)
    ensures Resolve(Some(Resolve(override, guess)), guess') == Resolve(override, guess)
  {
  }

  /** `content_type.startswith("image/")` */
  predicate IsImage(ct: string) {
    Text.StartsWith(ct, ImagePrefix)
  }

  /** `content_type.split("/")[-1]`: the subtype named in the image response. */
  function ImageFormat(ct: string): (format: string)
    requires IsImage(ct)
    ensures '/' !in format
    ensures Text.EndsWith(ct, "/" + format)
  {
    assert ct[5] == '/';
    var format := Text.AfterLast(ct, '/');
    assert ct[|ct| - |format| - 1..] == "/" + format;
    format
  }
}

# Audio storage and delivery for a personal portfolio site

This project models the four pieces that store and deliver the site's DJ-mix
audio, and proves properties of the model:

- **The R2 gateway worker** (`r2-worker/src/index.ts`). It maps a request path to an
  object key and checks a bearer token. It then serves PUT, GET and DELETE against an R2
  bucket and answers every other method with 405. `Worker.Serve` is the
  specification of one request: the response together with the bucket's objects
  afterwards. `Worker.Gateway.Fetch` is the imperative handler over a mutable
  `R2.Bucket`, proved to agree with `Serve`. The bucket's own evaluation of
  conditional headers, of ranges, and of the metadata it stamps on a write are
  given functions (`R2.Oracle`).
- **URL resolution for the player** (`src/config/audio-urls.ts`). The
  configuration is read from the build environment. Path cleaning is two
  anchored removals. Encoding works segment by segment. The public URL comes from
  a base URL or an S3 bucket. `getAudioUrl` tries three tiers: a direct
  mapping, then the public URL, then the local `/audio/` fallback.
- **The uploader** (`scripts/upload-audio.js`). It walks a directory tree, keeps the
  audio files, uploads each under `audio/<relative path>`, and collects the results.
  It also computes the content type and the summary counts. The tree is a
  value (`UploadAudio.Entry`). The blob store's `put` is a given function that
  may fail. A consequence of the code as written is proved
  (`UploadAudio.NoFailuresReported`): failed uploads are never pushed into the
  results, so the "Failed" count `main` prints is always 0.
- **The mapping generator** (`scripts/generate-audio-mapping.js`). It folds the
  upload results into a key-to-URL dictionary, where the last result for a key
  wins. It also writes out a `getAudioUrl` lookup with a root-relative fallback.

JavaScript string operations are modelled with their exact behaviour in
`Strings`:
- `split` with a one-character separator keeps empty pieces;
- `join` is its inverse;
- an anchored `replace` removes at most one match.

## Model

| member | source | states |
|---|---|---|
| Worker.ObjectKey | r2-worker/src/index.ts:10-11 | the key is the pathname without its first character, nothing decoded; an empty pathname gives an empty key |
| Worker.IsAuthorized | r2-worker/src/index.ts:62-68 | without a truthy token every request passes; with one, a request passes iff its authorization header is "Bearer", one space, the token (which has no space), then the end or another space |
| Worker.BearerWordsSound | r2-worker/src/index.ts:66-67 | a header whose first two `split(" ")` words are "Bearer" and the token has the form above |
| Worker.BearerWordsComplete | r2-worker/src/index.ts:66-67 | every header of that form has "Bearer" and the token as its first two words |
| Worker.GetResponse | r2-worker/src/index.ts:34-46 | 404 iff the object is absent, 412 iff it came back without a body, 200 iff with one. 412 and 200 carry the ETag and the object's metadata headers, and 200 carries the body the store returned |
| Worker.UnauthorizedTouchesNothing | r2-worker/src/index.ts:13-18 | a refused request gets 401, `WWW-Authenticate: Bearer` and "Unauthorized" for any method, and the store is unchanged |
| Worker.OpenWithoutToken | r2-worker/src/index.ts:63 | with no token configured no response is 401 |
| Worker.StatusCodes | r2-worker/src/index.ts:13-58 | every response status is one of 200, 401, 404, 405, 412 |
| Worker.GetLeavesStore | r2-worker/src/index.ts:28-47 | a GET never changes the stored objects |
| Worker.PutAlwaysAcknowledged | r2-worker/src/index.ts:21-27 | an authorised PUT is always answered 200 "Put <key> successfully!". The body is stored when the store's preconditions hold, and nothing changes when they fail |
| Worker.DeleteIdempotent | r2-worker/src/index.ts:48-51 | an authorised DELETE answers 200 "Deleted!" and removes the key, and repeating it changes nothing more |
| Worker.OtherMethodsNotAllowed | r2-worker/src/index.ts:52-58 | any other authorised method gets 405 with `Allow: PUT, GET, DELETE`, and the store is unchanged |
| Worker.PutThenGet | r2-worker/src/index.ts:21-47 | an accepted PUT followed by an unconditional, unranged GET of the same path returns 200 with the bytes written and the ETag the store assigned |
| Worker.Gateway.constructor | r2-worker/src/index.ts:3-8 | the worker holds the configured token and the bucket binding |
| Worker.Gateway.Fetch | r2-worker/src/index.ts:9-60 | the handler's response and the bucket's new objects are exactly those `Worker.Serve` specifies for the old objects |
| R2.Bucket.Get | r2-worker/src/index.ts:29-32 | absent iff the key is not stored. Otherwise it returns the stored metadata, and the body (the store's range of the stored bytes) exactly when the preconditions hold |
| R2.Bucket.Put | r2-worker/src/index.ts:22-25 | writes the object, stamped by the store, iff the preconditions hold against the current object. The result is null iff nothing was written |
| R2.Bucket.Delete | r2-worker/src/index.ts:49 | the key is removed and every other object is kept |
| AudioUrls.ConfigFromEnv | src/config/audio-urls.ts:12-33 | the base URL is the first variable when it is non-empty, else the second (empty when unset). The prefix behaves the same way. The bucket name is its variable or empty. The region is its variable when non-empty, else "us-east-1". Enabled iff either flag is exactly "true" |
| AudioUrls.StripPublic | src/config/audio-urls.ts:47 | removes a prefix and keeps the rest. The removed part is one of "", "/public", "/public/", "public", "public/", and it is at least as long as every one of these the path starts with: the greedy match is removed |
| AudioUrls.StripAudio | src/config/audio-urls.ts:48 | removes "audio/" exactly when the path starts with it, and otherwise leaves it unchanged |
| AudioUrls.EncodePath | src/config/audio-urls.ts:52-55 | a path without "/" is encoded as one segment, exactly as the encoder gives it |
| AudioUrls.CleanPath | src/config/audio-urls.ts:46-49 | the cleaned path is a suffix of the input. What was removed is a public prefix followed by "" or "audio/", and it is at least as long as every such combination the input starts with |
| AudioUrls.CleanRemovesLongest | src/config/audio-urls.ts:47-48 | after the greedy public removal, "audio/" can only follow the whole public part, so any public prefix plus audio prefix the path starts with is taken off in full |
| AudioUrls.CleanPathIsPrefixBased | src/config/audio-urls.ts:47 | "/public" is removed as characters, not as a path segment: "/publicX…" becomes "X…" |
| AudioUrls.CleanPathStripsAudioOnce | src/config/audio-urls.ts:48 | "audio/audio/x" cleans to "audio/x": each removal happens at most once |
| AudioUrls.CleanPathKeepsSlashBeforeAudio | src/config/audio-urls.ts:46-49 | despite the "remove leading slash" intent, "/audio/x" keeps its leading slash and its "audio/" |
| AudioUrls.EncodePathSegments | src/config/audio-urls.ts:52-55 | with an encoder that never emits "/", the encoded path splits into exactly the encoded segments, and it has as many "/" as the input |
| AudioUrls.TrimTrailingSlash | src/config/audio-urls.ts:59 | exactly one trailing "/" is removed when present, and otherwise the text is unchanged |
| AudioUrls.GetPublicUrl | src/config/audio-urls.ts:45-69 | empty iff neither base URL nor bucket is set. Otherwise it is the origin (the trimmed base URL, which wins, or the bucket's S3 host), "/", the prefix with "/", and the encoded clean path |
| AudioUrls.PrefixedSegments | src/config/audio-urls.ts:58-66 | the segments after the origin are the prefix's segments, then the encoded segments of the clean path |
| AudioUrls.PublicUrlSegments | src/config/audio-urls.ts:45-69 | a generated URL starts with its origin and "/", and the rest splits into the prefix's segments followed by each clean-path segment encoded on its own |
| AudioUrls.LocalFallback | src/config/audio-urls.ts:107-109 | the fallback starts with "/audio/" and ends with the input path. It adds nothing when the input starts with "/audio/", 6 characters ("/audio") when it starts with another "/", and 7 ("/audio/") otherwise. Together these fix the value in each case |
| AudioUrls.GetAudioUrl | src/config/audio-urls.ts:74-113 | never empty. A truthy mapping of the clean path wins; next, the public URL when enabled and configured; otherwise the local fallback |
| AudioUrls.MappingPrecedesConfig | src/config/audio-urls.ts:90-104 | when the clean path has a truthy mapping, the configuration does not affect the result |
| Strings.JoinSplit | src/config/audio-urls.ts:52-55 | `split` then `join` with the same separator gives back the string |
| Strings.SplitJoin | src/config/audio-urls.ts:52-55 | `join` then `split` gives back the pieces when none holds the separator |
| Strings.SplitConcat | src/config/audio-urls.ts:58-66 | splitting `a + sep + b` gives the pieces of `a` followed by those of `b` |
| Strings.SplitPiecesFree | r2-worker/src/index.ts:66 | no piece of a split holds the separator |
| Strings.Split | src/config/audio-urls.ts:52-55 | the pieces number one more than the separators in the string, so there is always at least one |
| Strings.SplitNoSeparator | r2-worker/src/index.ts:66 | a string without the separator splits into itself alone |
| Strings.Join | src/config/audio-urls.ts:52-55 | joining no pieces gives "", and joining one piece gives that piece. The inverse laws are `Strings.SplitJoin` and `Strings.JoinSplit` |
| Strings.LastPieceAfterSeparator | scripts/upload-audio.js:64 | the last piece of a split is the text after the last separator |
| UploadAudio.ContentType | scripts/upload-audio.js:63-72 | the type is the table's entry for the extension exactly when the extension is in the table, and application/octet-stream otherwise |
| UploadAudio.ContentTypeOfLastExtension | scripts/upload-audio.js:64-71 | only the lower-cased text after the last "." decides the type |
| UploadAudio.Extension | scripts/upload-audio.js:64 | the extension never contains ".", and a path without "." is its own extension, lower-cased |
| UploadAudio.SelectedHasContentType | scripts/upload-audio.js:86 | every file the upload filter lets through gets its table type, never application/octet-stream |
| UploadAudio.SelectedIsAudioSuffix | scripts/upload-audio.js:86 | the filter `Selected` holds iff the lower-cased name ends in ".wav", ".mp3", ".m4a" or ".cue", as the case-insensitive anchored regular expression tests |
| UploadAudio.RelPath | scripts/upload-audio.js:79-80 | the relative path ends with the entry's name |
| UploadAudio.BlobPath | scripts/upload-audio.js:81 | the blob path is the base path and "/", then the relative path character by character, with every "\\" turned into "/" |
| UploadAudio.BlobPathKeepsExtension | scripts/upload-audio.js:81-86 | the blob path of a selected file still passes the audio-extension filter |
| UploadAudio.UploadFile | scripts/upload-audio.js:37-61 | a result exists iff the store's put of the blob path with the file's content type succeeds. It records the blob path, the URL and pathname the store returned, and the file size |
| UploadAudio.UploadDirectory | scripts/upload-audio.js:74-97 | the loop's results are those of the entries in order, with a subdirectory's results spliced in at its place |
| UploadAudio.UploadsAreSelectedFiles | scripts/upload-audio.js:83-93 | every collected result is a non-null successful upload of a selected file, under "<basePath>/" with no backslash, ending in an audio extension |
| UploadAudio.EntryUploadsAreSelectedFiles | scripts/upload-audio.js:83-93 | the same, for the results one directory entry contributes |
| UploadAudio.Successful | scripts/upload-audio.js:106 | the filter keeps exactly the non-null results: everything kept was among the results, every non-null result is kept, and it keeps all of them, in order, iff none is null. Order and multiplicity in general follow from `SuccessfulConcat` and `SuccessfulOne` |
| UploadAudio.SuccessfulConcat | scripts/upload-audio.js:106 | filtering a concatenation is the concatenation of the filtered parts, so order and multiplicity are kept |
| UploadAudio.SuccessfulOne | scripts/upload-audio.js:106 | a single result is kept iff it is non-null; with `SuccessfulConcat` this determines the filter on every list |
| UploadAudio.Summarize | scripts/upload-audio.js:106-107 | total is the number of results and successful the number of non-null ones. Failed is the difference, never negative |
| UploadAudio.NoFailuresReported | scripts/upload-audio.js:104-107 | for any tree and any store behaviour, the failed count of a run is 0 |
| AudioMapping.BuildMap | scripts/generate-audio-mapping.js:27-34 | the loop builds the dictionary the left fold `MappingOf` describes |
| AudioMapping.KeyOf | scripts/generate-audio-mapping.js:31 | the key is the original path without one leading "audio/", and the path itself when it has none |
| AudioMapping.MappingKeys | scripts/generate-audio-mapping.js:28-33 | a key is in the dictionary iff some usable result produces it; `Usable` is the source's truthiness test `result && result.originalPath && result.blobUrl`, a string being truthy iff non-empty, so results failing it add no key |
| AudioMapping.MappingLastWins | scripts/generate-audio-mapping.js:28-33 | each key maps to the URL of the last usable result producing it |
| AudioMapping.FilesMappedBound | scripts/generate-audio-mapping.js:71 | the "Files mapped" figure never exceeds the number of results |
| AudioMapping.UploadKey | scripts/generate-audio-mapping.js:29-32 | an upload under the default base path "audio" is keyed by its relative path, with "/" for every backslash |
| AudioMapping.GeneratedGetAudioUrl | scripts/generate-audio-mapping.js:52-65 | never empty, and a truthy mapping of the clean path wins. Otherwise the result starts with "/" and ends with the input, and is one character longer than the input exactly when the input does not start with "/", which fixes it as the input or "/" + input |
| AudioMapping.GeneratedLookupFindsLast | scripts/generate-audio-mapping.js:59-61 | a path whose clean form is the key of the last usable result resolves to that result's URL |

## Left out

- Request parsing: `new URL(request.url)` is not modelled. The request arrives with its pathname already extracted, and the key is that pathname without its first character.
- Header-name case: the runtime's `Headers` object is case-insensitive. The model keys headers by lower-case names.
- The R2 bucket's internals. Conditional-header evaluation, range selection and the metadata stamped on a write are given functions (`R2.Oracle`). `writeHttpMetadata` is modelled as copying the stored metadata headers.
- Store errors: R2 calls that throw are not modelled, and neither are streaming bodies; bodies are byte sequences.
- Concurrency: each request is handled as one sequential step on the bucket.
- Default headers on text responses: the runtime adds its own content-type header, which the model does not.
- Range and precondition responses: the GET handler has no 206 path (r2-worker/src/index.ts:43-44 only choose 200 or 412). The PUT handler ignores the `null` that `put` returns when preconditions fail (r2-worker/src/index.ts:22-26), so it answers 200. The model follows the code: it has neither a 206 nor a PUT 412.
- `encodeURIComponent` is a given function. Only the property that it never emits "/" is used, and only where a lemma needs it.
- JavaScript object-prototype keys (`constructor`, `__proto__`, …) are not modelled; every object is a plain dictionary of its own keys. This affects three places:
  - the `audioUrlMap` lookups (src/config/audio-urls.ts:91, scripts/generate-audio-mapping.js:59);
  - the `types[ext]` table lookup in `getContentType` (scripts/upload-audio.js:71), which in the source yields a non-string for the extensions "constructor" or "__proto__";
  - the `map[key] = …` assignment in the generator (scripts/generate-audio-mapping.js:32), which in the source creates no own key for "__proto__".
  None of these keys is an audio file name the uploader selects.
- The shipped `audioUrlMap` is empty (src/config/audio-urls.ts:38-40). `AudioUrls.GetAudioUrl` takes the map as a parameter, so that every possible map is covered.
- Case folding: `toLowerCase` and the regular expression's `/i` flag are modelled as ASCII case folding. Non-ASCII case mappings are not modelled.
- `path.join` and `path.relative` normalisation: relative paths are built by plain concatenation with the platform separator. Entry names are taken to contain no separator and no "." or ".." components.
- File-system access is not modelled. `readdir` gives the tree value in its own order, `statSync` gives the size carried by each file entry, and a failing `statSync` is folded into a failed upload.
- The upload token check, all logging, `process.exit`, the 100 ms pause between uploads and the megabyte totals (floating point) are not modelled.
- The results file: the JSON written and read back is not modelled. `AudioMapping.RecordOf` assumes that round trip preserves the records, and records the parser yields with missing fields are `None`.
- The generated source file: only its dictionary and its `getAudioUrl` are modelled. The rest of the text, including its timestamp, is not.

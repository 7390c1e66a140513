# image-host worker, modelled in Dafny

A Dafny model of the request-handling logic of the image-host Cloudflare
Worker (`src/index.ts`). The worker sits in front of an R2 bucket and has
three routes:

- `POST /_upload` takes a multipart form with a `file` part and an optional
  `name`. It picks an object key, puts the bytes under that key and answers
  with the object's public URL.
- `GET /:key` serves an object. It fixes up the content type of `.mp4` files
  and sets a day-long `Cache-Control` header.
- `DELETE /:key` removes an object.

The two mutating routes sit behind HTTP Basic authentication.

The bucket is an immutable map from key to object (bytes plus an optional
content type). Every handler is a pure function of the bucket and the request.
It returns an `Outcome`: the bucket afterwards, the response, and the ordered
list of bucket calls it made (`head`, `get`, `put`, `delete`). The call list
makes "no probes" and "never reaches the bucket" statable.

Random name generation takes an injected stream of draws (`RandomSource`), each
already a position in the 62-symbol alphabet. Attempt `k` of the retry loop
uses draws `8k` to `8k+7`. Whether the Basic-auth credentials match is a
boolean on the request. The request's origin is a string input.

Modules, leaves first:

- `Wrappers` defines `Option`.
- `Alphabet` defines the alphabet literal and the `[a-zA-Z0-9]` class.
- `RandomNames` models `randomFileName`.
- `ObjectStore` models the bucket and its four operations.
- `Http` holds the form fields and their JavaScript truthiness and template
  rendering, plus the responses and `Outcome`.
- `Filenames` models `split(".")`, the extension, key and URL composition, and
  `endsWith`.
- `KeyGeneration` models the `getFileName` closure.
- `UploadHandler`, `RetrievalHandler` and `DeletionHandler` model the three
  route handlers.
- `Router` models dispatch and the auth guard.

Three details of the code that the model keeps exactly:

- The `Cache-Control` value is `public max-age=${CACHE_DURATION}`
  (src/index.ts:91). That is `public max-age=86400`, with no comma between
  the directives (`RetrievalHandler.CacheControlValue`).
- After ten colliding candidates `getFileName` returns `undefined`. The key
  template at src/index.ts:65 renders it as the text `undefined`, so the object
  is put under `undefined.<ext>`. `UploadHandler.HandleUploadAsWritten` models
  this. The router uses `UploadHandler.HandleUpload` instead, which answers 500
  (see Findings).
- A `name` field that is itself a file part is truthy, so it is used as the
  name, and the template renders it as `[object File]` (`Http.Truthy`,
  `Http.Render`).

## Model

| member | source | states |
|---|---|---|
| Alphabet.AlphabetLayout | src/index.ts:15-16 | position i of the 62-symbol alphabet holds an alphanumeric character whose index in a-z, A-Z, 0-9 order is i |
| Alphabet.AlphabetIsAlphanumeric | src/index.ts:15-16 | a character is in the alphabet exactly when it is in `[a-zA-Z0-9]` |
| Alphabet.IndexOfSymbolInjective | src/index.ts:15-16 | distinct alphanumeric characters occupy distinct alphabet positions |
| RandomNames.RandomFileName | src/index.ts:12-22 | a generated name has exactly 8 characters, each alphanumeric, and character i decodes back to draw `start + i` |
| RandomNames.RandomFileNameInjective | src/index.ts:14-22 | two generated names are equal exactly when the 8 draws behind them are equal |
| RandomNames.GenerateRandomFileName | src/index.ts:17-21 | the accumulating `result +=` loop builds exactly the name `RandomFileName` describes |
| KeyGeneration.ProbesAreCandidates | src/index.ts:52-58 | the retry loop's probe of attempt k is the random candidate of attempt k |
| KeyGeneration.ProbeOutcome | src/index.ts:52-58 | the loop returns the first candidate whose `head` probe finds no object; every earlier probe hit an existing key; it returns nothing only after all remaining attempts collided |
| KeyGeneration.GetFileName | src/index.ts:48-59 | a truthy supplied name is returned verbatim with no probe; otherwise at most 10 probes, the result is the first free candidate (absent from the bucket), and no name is returned exactly when all 10 candidates are taken |
| KeyGeneration.ResolveFileName | src/index.ts:48-59 | the `while (attempts < 10)` loop makes exactly the probes and returns exactly the name `GetFileName` describes |
| Filenames.Split | src/index.ts:61 | `split` returns at least one part; no part contains the separator; there is more than one part exactly when the separator occurs; a single part is the whole string |
| Filenames.SplitLastPart | src/index.ts:61-62 | the last part is a suffix of the string, and a separator stands right before it whenever there are several parts |
| Filenames.JoinSplit | src/index.ts:61 | joining the parts with the separator gives back the original string |
| Filenames.SplitJoin | src/index.ts:61 | splitting the join of separator-free parts gives back those parts |
| Filenames.ExtensionOf | src/index.ts:61-62 | the extension contains no `.`, is a suffix of the filename, is preceded by `.` when the filename has one, and is the whole filename when it has none |
| Filenames.ExtensionIsTextAfterLastDot | src/index.ts:61-62 | for a filename `stem.e` with no `.` in `e`, the extension is exactly `e` |
| Filenames.TrailingDotGivesEmptyExtension | src/index.ts:61-62 | a filename ending in `.` has the empty extension |
| ObjectStore.Get | src/index.ts:80-82 | `get` yields an object exactly when the key is present, and then the stored one |
| ObjectStore.Put | src/index.ts:68-70 | `put` makes the key hold the new object and leaves every other key unchanged |
| ObjectStore.Remove | src/index.ts:106 | `delete` removes the key, present or not, and leaves every other object unchanged |
| UploadHandler.HandleUploadAsWritten | src/index.ts:41-75 | missing or non-file `file` gives 400 "Missing file" with the bucket unchanged and no bucket call; otherwise exactly the key `<rendered name>.<ext>` is written with the uploaded bytes and declared type, every other key is kept, the body is `origin/key`, and the calls are the name probes followed by one put |
| UploadHandler.HandleUpload | src/index.ts:41-75 | same 400 path; when key generation is exhausted, 500 with the bucket unchanged and only the 10 probes made; otherwise identical to the handler as written |
| UploadHandler.SuppliedNameIsUsedVerbatim | src/index.ts:49-51 | a non-empty supplied name N gives key `N.<ext>`, body `origin/N.<ext>`, and a put as the only bucket call |
| UploadHandler.EmptyNameFallsThrough | src/index.ts:49-51 | an empty `name` field behaves exactly like an absent one |
| UploadHandler.CommitGeneratedStem | src/index.ts:61-74 | writing under an 8-symbol alphanumeric stem answers `origin/<stem>.<ext>`, whose key has the generated shape and is the only key written |
| UploadHandler.GeneratedUploadKeyShape | src/index.ts:52-74 | with no name supplied, the answer is 500 exactly when all 10 candidates are taken; otherwise it is `origin/` followed by 8 alphanumerics, `.` and the extension, the 8-symbol stem was absent from the bucket, and only that key was written |
| UploadHandler.ExhaustedUploadWritesUndefined | src/index.ts:52-68 | as written, when all 10 candidates collide the object is put under `undefined.<ext>`, which is not a generated key, after 10 probes |
| RetrievalHandler.CacheControlValue | src/index.ts:91 | the Cache-Control value is exactly `public max-age=86400` and contains no comma |
| RetrievalHandler.StoredContentType | src/index.ts:84 | the base content type is the stored value when that is present and non-empty, and `""` otherwise |
| RetrievalHandler.ServedContentType | src/index.ts:84-88 | the served type differs from the stored one exactly when the stored one is `application/octet-stream` and the key ends in `.mp4`, and then it is `video/mp4` |
| RetrievalHandler.ServedContentTypeIdempotent | src/index.ts:86-88 | applying the content-type fixup to its own result changes nothing |
| RetrievalHandler.ContentTypeFixupExamples | src/index.ts:86-88 | octet-stream under `abc123.mp4` is served as `video/mp4`, and under `abc123.png` it is served unchanged |
| RetrievalHandler.HandleGet | src/index.ts:77-94 | retrieval never changes the bucket and makes exactly one `get`; not found exactly when the key is absent; otherwise the stored bytes, `Cache-Control` and the served content type |
| DeletionHandler.HandleDelete | src/index.ts:104-108 | the key is absent afterwards, every other object is unchanged, the answer is 200 "OK" either way, and the one call is `delete` |
| DeletionHandler.DeleteIdempotent | src/index.ts:104-108 | deleting twice gives the same bucket and answer as deleting once |
| DeletionHandler.DeleteAbsentKey | src/index.ts:106-107 | deleting an absent key leaves the bucket unchanged |
| Router.Handle | src/index.ts:33-108 | an unauthorised upload or delete gets the auth challenge with the bucket unchanged and no bucket call; authorised requests reach their handlers; GET reaches the retrieval handler |
| Router.OnlyAuthorizedRequestsMutate | src/index.ts:33-102 | the bucket changes only for an authorised upload or delete |
| Router.UploadThenGet | src/index.ts:64-93 | after an accepted upload, a GET routed to the answered key returns the uploaded bytes, the fixed Cache-Control and the declared type after the `.mp4` fixup |
| Router.DeleteThenGet | src/index.ts:80-107 | after an authorised delete the key is not found and every other key is served as before |
| Router.UploadScenario | src/index.ts:41-93 | uploading `a.txt` holding `hi!` into an empty bucket with all-zero draws answers `https://host/aaaaaaaa.txt`, and a GET of that key serves the bytes as `text/plain` with `public max-age=86400` |

## Left out

- Hono routing, `parseBody` and `new URL(...).origin` are framework and library
  code. The model takes the parsed `file` and `name` fields and the origin
  string as inputs. Repeated form fields and the `all` parsing option are not
  modelled.
- `basicAuth` internals (header decoding, credential comparison, the challenge
  body and `WWW-Authenticate` header) live in a library that is not part of this
  model. Authorisation is a boolean, and the challenge is the bare
  `Unauthorized` response.
- The `cache` middleware on `GET *` is an external shared response cache, so
  every GET here reaches the handler.
- `Math.random` and `Math.floor` are floating point. They are replaced by
  injected draws that are already positions in `[0, 62)`.
- async/await and `arrayBuffer()` are left out, and so is the race between the
  `head` probe and the later `put` of concurrent uploads. Handlers run
  sequentially on an immutable bucket.
- Bucket failures (an exception from `head`, `get`, `put` or `delete`) are not
  modelled. The runtime would turn them into a server error.
- Response headers that the framework adds to text bodies, and the body text of
  `c.notFound()`, are not modelled.
- `console.log(object)` is diagnostic output only.
- UploadHandler.GeneratedUploadKeyShape: it promises that the bare 8-symbol stem
  was absent from the bucket, not that the final key `<stem>.<ext>` is. The
  source probes the bare candidate but writes the extended key, so nothing
  stronger holds.

- Router.Handle: uploads are routed to the corrected `UploadHandler.HandleUpload`.
  When all ten candidates are taken, the routed model answers 500 and leaves the
  bucket alone. src/index.ts:64-74 instead writes `undefined.<ext>` and answers
  200; `UploadHandler.HandleUploadAsWritten` models that path.
- Router.UploadThenGet: the round trip is stated for the routed key, the key
  that `GET /:key` hands to the handler. It is not stated for the URL that the
  upload answers with. That URL is `origin/key` without percent-encoding
  (src/index.ts:74), and `/:key` matches a single path segment. A key holding
  `/`, `?` or `#` does not come back as the same key: for example a supplied
  name `a/b`, or a filename whose text after its last `.` contains `/`.
  Path routing is not modelled.
- Strings are Dafny `string`, a sequence of Unicode scalar values, while the
  worker's strings are UTF-16 code units. A lone surrogate in a filename or name
  cannot be represented, and lengths count differently. No operation of the
  core measures the length of such a string.

## Findings

| source | as written | input that shows it | evidently intended | confidence | as-written member | corrected member |
|---|---|---|---|---|---|---|
| src/index.ts:52-65 | after 10 colliding candidates `getFileName` returns `undefined`, and the template literal turns it into the key `undefined.<ext>`; the upload is written there and reported as success, replacing any object under that key | a bucket that holds all ten candidates the draws produce, and an upload with no `name` field | fail the request with a server error and leave the bucket alone, so every generated key has the shape `[A-Za-z0-9]{8}.<ext>` | not executed | UploadHandler.HandleUploadAsWritten (discrepancy shown by UploadHandler.ExhaustedUploadWritesUndefined) | UploadHandler.HandleUpload (property proved by UploadHandler.GeneratedUploadKeyShape) |

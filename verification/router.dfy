/** Route dispatch and the Basic-auth guard (src/index.ts:33-39, 96-102):
    `POST /_upload` and `DELETE /:key` pass through the guard first, and
    `GET /:key` is open. Whether the credentials match is an input. */
module Router {
  import opened Wrappers
  import opened Alphabet
  import opened RandomNames
  import opened ObjectStore
  import opened Http
  import opened Filenames
  import opened KeyGeneration
  import opened UploadHandler
  import opened RetrievalHandler
  import opened DeletionHandler

  /** A routed request; `authorized` says whether the guard accepts it, and
      `origin` is the scheme and host the upload arrived through. */
  datatype Request =
    | UploadRequest(authorized: bool, form: Form, origin: string)
    | GetRequest(key: string)
    | DeleteRequest(authorized: bool, key: string)

  /** The two routes the guard protects. */
  predicate Mutating(req: Request) {
    req.UploadRequest? || req.DeleteRequest?
  }

  /** Dispatch. A guarded request without valid credentials is answered
      with the challenge before its handler runs: no bucket call, no change.
      A read never changes the bucket. */
  function Handle(store: Store, req: Request, rand: RandomSource): (o: Outcome)
    ensures Mutating(req) && !req.authorized ==> o == Outcome(store, Unauthorized, [])
    ensures req.GetRequest? ==> o == HandleGet(store, req.key)
    ensures req.UploadRequest? && req.authorized ==> o == HandleUpload(store, req.form, req.origin, rand)
    ensures req.DeleteRequest? && req.authorized ==> o == HandleDelete(store, req.key)
  {
    match req
    case UploadRequest(authorized, form, origin) =>
      if authorized then HandleUpload(store, form, origin, rand) else Outcome(store, Unauthorized, [])
    case GetRequest(key) => HandleGet(store, key)
    case DeleteRequest(authorized, key) =>
      if authorized then HandleDelete(store, key) else Outcome(store, Unauthorized, [])
  }

  /** Only an authorised upload or deletion can change the bucket. */
  lemma OnlyAuthorizedRequestsMutate(store: Store, req: Request, rand: RandomSource)
    ensures Handle(store, req, rand).store != store ==> Mutating(req) && req.authorized
  {
  }

  /** Upload round trip: after an accepted upload, a GET request routed to
      the key it answered with returns the uploaded bytes, the fixed
      Cache-Control and the declared content type (after the `.mp4` fixup).
      The key is taken as routed; path parsing of the answered URL is not
      modelled. */
  lemma UploadThenGet(store: Store, file: UploadedFile, name: Option<FormValue>, origin: string, rand: RandomSource)
    requires GetFileName(store, name, rand).name.Some?
    ensures var up := Handle(store, UploadRequest(true, Form(Some(FileField(file)), name), origin), rand);
            var key := Render(GetFileName(store, name, rand).name) + "." + ExtensionOf(file.name);
            && up.response == TextResponse(OK, origin + "/" + key)
            && Handle(up.store, GetRequest(key), rand).response
                 == ObjectResponse(file.data, CACHE_CONTROL, ServedContentType(Some(file.mimeType), key))
  {
  }

  /** After an accepted deletion the key is not found, and every other key
      is served as before. */
  lemma DeleteThenGet(store: Store, key: string, other: string, rand: RandomSource)
    requires other != key
    ensures var del := Handle(store, DeleteRequest(true, key), rand);
            && Handle(del.store, GetRequest(key), rand).response == NotFound
            && Handle(del.store, GetRequest(other), rand).response == Handle(store, GetRequest(other), rand).response
  {
    var del := Handle(store, DeleteRequest(true, key), rand);
    assert other in del.store <==> other in store;
  }

  /** With every draw 0 and an empty bucket, the first candidate is taken. */
  lemma ZeroDrawsName(rand: RandomSource)
    requires forall n :: rand(n) == 0
    ensures GetFileName(map[], None, rand) == Resolution(Some(TextField("aaaaaaaa")), ["aaaaaaaa"])
  {
    AlphabetLayout();
    var stem := Candidate(rand, 0);
    assert forall i :: 0 <= i < |stem| ==> stem[i] == CHARS[0] == 'a';
    assert stem == "aaaaaaaa";
    ProbesAreCandidates(map[], rand, 0);
    ProbeOutcome(map[], rand, 0);
  }

  /** The extension of `a.txt` is `txt`. */
  lemma ScenarioExtension()
    ensures ExtensionOf("a.txt") == "txt"
  {
    ExtensionIsTextAfterLastDot("a", "txt");
    assert "a" + "." + "txt" == "a.txt";
  }

  /** Committing `a.txt` under the stem `aaaaaaaa`. */
  lemma ScenarioCommit(file: UploadedFile)
    requires file.name == "a.txt"
    ensures var o := Commit(map[], file, "aaaaaaaa", "https://host", ["aaaaaaaa"]);
            && o.response == TextResponse(OK, "https://host/aaaaaaaa.txt")
            && o.store == map["aaaaaaaa.txt" := StoredObject(file.data, Some(file.mimeType))]
  {
    ScenarioExtension();
    assert "aaaaaaaa" + "." + "txt" == "aaaaaaaa.txt";
    assert "https://host" + "/" + "aaaaaaaa.txt" == "https://host/aaaaaaaa.txt";
  }

  /** The upload step of the worked example: the object lands under
      `aaaaaaaa.txt`, which is the only key of the bucket afterwards. */
  lemma ScenarioUpload(rand: RandomSource, file: UploadedFile)
    requires forall n :: rand(n) == 0
    requires file.name == "a.txt"
    ensures var up := Handle(map[], UploadRequest(true, Form(Some(FileField(file)), None), "https://host"), rand);
            && up.response == TextResponse(OK, "https://host/aaaaaaaa.txt")
            && up.store == map["aaaaaaaa.txt" := StoredObject(file.data, Some(file.mimeType))]
  {
    var form := Form(Some(FileField(file)), None);
    ZeroDrawsName(rand);
    assert HandleUpload(map[], form, "https://host", rand)
        == Commit(map[], file, "aaaaaaaa", "https://host", ["aaaaaaaa"]);
    ScenarioCommit(file);
  }

  /** The read step of the worked example: the stored object is served
      with its bytes, the day-long Cache-Control and its own content type. */
  lemma ScenarioGet(file: UploadedFile, rand: RandomSource)
    requires file.mimeType == "text/plain"
    ensures var store := map["aaaaaaaa.txt" := StoredObject(file.data, Some(file.mimeType))];
            Handle(store, GetRequest("aaaaaaaa.txt"), rand).response
              == ObjectResponse(file.data, "public max-age=86400", "text/plain")
  {
    var key := "aaaaaaaa.txt";
    assert !EndsWith(key, MP4_SUFFIX) by {
      assert key[8..] != MP4_SUFFIX by {
        assert key[8..][1] == 't';
      }
    }
    CacheControlValue();
  }

  /** The worked example: into an empty bucket, upload `a.txt` holding
      `hi!` as `text/plain` with no name and a source whose every draw is 0;
      the answer is `https://host/aaaaaaaa.txt`, and getting that key serves
      the three bytes with the day-long Cache-Control. */
  lemma UploadScenario(rand: RandomSource, file: UploadedFile)
    requires forall n :: rand(n) == 0
    requires file.name == "a.txt" && file.mimeType == "text/plain" && file.data == [0x68, 0x69, 0x21]
    ensures var up := Handle(map[], UploadRequest(true, Form(Some(FileField(file)), None), "https://host"), rand);
            && up.response == TextResponse(OK, "https://host/aaaaaaaa.txt")
            && Handle(up.store, GetRequest("aaaaaaaa.txt"), rand).response
                 == ObjectResponse([0x68, 0x69, 0x21], "public max-age=86400", "text/plain")
  {
    ScenarioUpload(rand, file);
    ScenarioGet(file, rand);
  }
}

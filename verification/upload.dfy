/** The `POST /_upload` handler (src/index.ts:41-75), once the Basic-auth
    guard has let the request through. */
module UploadHandler {
  import opened Wrappers
  import opened Alphabet
  import opened RandomNames
  import opened ObjectStore
  import opened Http
  import opened Filenames
  import opened KeyGeneration

  const MISSING_FILE: string := "Missing file"
  const NAME_EXHAUSTED: string := "Could not generate a unique file name"

  /** The `file` field when it is present and a File part; `None` covers the
      cases `!maybeFile || !(maybeFile instanceof File)`. */
  function FilePart(form: Form): Option<UploadedFile> {
    match form.file
    case Some(FileField(file)) => Some(file)
    case _ => None
  }

  /** `key` now holds the uploaded bytes with the declared content type, and
      every other key of `before` is as it was. */
  predicate WroteOnly(before: Store, after: Store, key: string, file: UploadedFile) {
    && after.Keys == before.Keys + {key}
    && after[key] == StoredObject(file.data, Some(file.mimeType))
    && forall k :: k in before && k != key ==> after[k] == before[k]
  }

  /** The key shape of a generated name: eight alphanumeric symbols, a `.`,
      then the extension. */
  predicate IsGeneratedKey(key: string, ext: string) {
    && |key| == FILENAME_LENGTH + 1 + |ext|
    && (forall i :: 0 <= i < FILENAME_LENGTH ==> IsAlphanumeric(key[i]))
    && key[FILENAME_LENGTH] == '.'
    && key[FILENAME_LENGTH + 1..] == ext
  }

  /** Lines 61-74 once the name text is known: compose the key, put the
      object, answer with its public URL. */
  function Commit(store: Store, file: UploadedFile, name: string, origin: string, probes: seq<string>): Outcome {
    var key := ComposeKey(name, ExtensionOf(file.name));
    Outcome(Put(store, key, StoredObject(file.data, Some(file.mimeType))),
            TextResponse(OK, PublicUrl(origin, key)),
            HeadCalls(probes) + [PutCall(key)])
  }

  /** The handler as the source writes it: when key generation comes back
      empty the template literal renders the name as `undefined`. A missing
      file is answered with 400 before any bucket call; otherwise exactly the
      composed key is written and its URL returned. */
  function HandleUploadAsWritten(store: Store, form: Form, origin: string, rand: RandomSource): (o: Outcome)
    ensures FilePart(form).None? ==> o == Outcome(store, TextResponse(BAD_REQUEST, MISSING_FILE), [])
    ensures FilePart(form).Some? ==>
              var file := FilePart(form).value;
              var res := GetFileName(store, form.name, rand);
              var key := Render(res.name) + "." + ExtensionOf(file.name);
              && WroteOnly(store, o.store, key, file)
              && o.response == TextResponse(OK, origin + "/" + key)
              && o.calls == HeadCalls(res.probes) + [PutCall(key)]
  {
    match FilePart(form)
    case None => Outcome(store, TextResponse(BAD_REQUEST, MISSING_FILE), [])
    case Some(file) =>
      var res := GetFileName(store, form.name, rand);
      Commit(store, file, Render(res.name), origin, res.probes)
  }

  /** The handler with key-generation exhaustion made an explicit server
      error: after ten collisions the bucket is left alone and 500 is
      returned; otherwise it behaves exactly as the source does. */
  function HandleUpload(store: Store, form: Form, origin: string, rand: RandomSource): (o: Outcome)
    ensures FilePart(form).None? ==> o == Outcome(store, TextResponse(BAD_REQUEST, MISSING_FILE), [])
    ensures FilePart(form).Some? && GetFileName(store, form.name, rand).name.None? ==>
              o == Outcome(store, TextResponse(INTERNAL_SERVER_ERROR, NAME_EXHAUSTED),
                           HeadCalls(GetFileName(store, form.name, rand).probes))
    ensures FilePart(form).Some? && GetFileName(store, form.name, rand).name.Some? ==>
              o == HandleUploadAsWritten(store, form, origin, rand)
  {
    match FilePart(form)
    case None => Outcome(store, TextResponse(BAD_REQUEST, MISSING_FILE), [])
    case Some(file) =>
      var res := GetFileName(store, form.name, rand);
      if res.name.None? then
        Outcome(store, TextResponse(INTERNAL_SERVER_ERROR, NAME_EXHAUSTED), HeadCalls(res.probes))
      else
        Commit(store, file, Render(res.name), origin, res.probes)
  }

  /** A non-empty supplied name is used verbatim: the key is `name.ext`, and
      the only bucket call is the put. */
  lemma SuppliedNameIsUsedVerbatim(store: Store, file: UploadedFile, name: string, origin: string, rand: RandomSource)
    requires name != ""
    ensures var o := HandleUpload(store, Form(Some(FileField(file)), Some(TextField(name))), origin, rand);
            var key := name + "." + ExtensionOf(file.name);
            && WroteOnly(store, o.store, key, file)
            && o.response == TextResponse(OK, origin + "/" + key)
            && o.calls == [PutCall(key)]
  {
    var form := Form(Some(FileField(file)), Some(TextField(name)));
    assert GetFileName(store, form.name, rand) == Resolution(Some(TextField(name)), []);
  }

  /** An empty `name` field is falsy, so the upload proceeds exactly as if
      no name had been sent. */
  lemma EmptyNameFallsThrough(store: Store, file: Option<FormValue>, origin: string, rand: RandomSource)
    ensures HandleUpload(store, Form(file, Some(TextField(""))), origin, rand)
         == HandleUpload(store, Form(file, None), origin, rand)
  {
    assert GetFileName(store, Some(TextField("")), rand) == GetFileName(store, None, rand);
  }

  /** Committing under an 8-symbol alphanumeric stem answers with
      `origin/<stem>.<ext>`, a generated key. */
  lemma CommitGeneratedStem(store: Store, file: UploadedFile, stem: string, origin: string, probes: seq<string>)
    requires |stem| == FILENAME_LENGTH
    requires forall i :: 0 <= i < |stem| ==> IsAlphanumeric(stem[i])
    ensures var o := Commit(store, file, stem, origin, probes);
            var key := o.response.text[|origin| + 1..];
            && o.response.TextResponse? && o.response.status == OK
            && |o.response.text| > |origin|
            && o.response.text == origin + "/" + key
            && IsGeneratedKey(key, ExtensionOf(file.name))
            && key[..FILENAME_LENGTH] == stem
            && WroteOnly(store, o.store, key, file)
  {
    var ext := ExtensionOf(file.name);
    var key := stem + "." + ext;
    var text := origin + "/" + key;
    assert text[|origin| + 1..] == key;
    assert key[..FILENAME_LENGTH] == stem;
    assert key[FILENAME_LENGTH + 1..] == ext;
  }

  /** With no name supplied, a successful upload answers with
      `origin/<8 alphanumerics>.<ext>`, and the 8-symbol stem named no object
      when it was probed; the only other answer is the exhaustion error,
      given exactly when all ten candidates are taken. */
  lemma GeneratedUploadKeyShape(store: Store, file: UploadedFile, name: Option<FormValue>, origin: string, rand: RandomSource)
    requires !Truthy(name)
    ensures var o := HandleUpload(store, Form(Some(FileField(file)), name), origin, rand);
            var ext := ExtensionOf(file.name);
            && o.response.TextResponse?
            && ((o.response.status == INTERNAL_SERVER_ERROR)
                <==> (forall i :: 0 <= i < MAX_ATTEMPTS ==> Candidate(rand, i) in store))
            && (o.response.status == OK ==>
                  var key := o.response.text[|origin| + 1..];
                  && |o.response.text| > |origin|
                  && o.response.text == origin + "/" + key
                  && IsGeneratedKey(key, ext)
                  && key[..FILENAME_LENGTH] !in store
                  && WroteOnly(store, o.store, key, file))
  {
    var res := GetFileName(store, name, rand);
    if res.name.Some? {
      var last := |res.probes| - 1;
      var stem := res.probes[last];
      assert stem == Candidate(rand, last);
      assert HandleUpload(store, Form(Some(FileField(file)), name), origin, rand)
          == Commit(store, file, stem, origin, res.probes);
      CommitGeneratedStem(store, file, stem, origin, res.probes);
    }
  }

  /** Committing under the text `undefined` writes the key
      `undefined.<ext>`, which has nine symbols before its `.` and so is not
      a generated key. */
  lemma CommitUndefined(store: Store, file: UploadedFile, origin: string, probes: seq<string>)
    ensures var o := Commit(store, file, "undefined", origin, probes);
            var ext := ExtensionOf(file.name);
            var key := "undefined." + ext;
            && o.response == TextResponse(OK, origin + "/" + key)
            && !IsGeneratedKey(key, ext)
            && WroteOnly(store, o.store, key, file)
            && |o.calls| == |probes| + 1
  {
    var ext := ExtensionOf(file.name);
    assert "undefined" + "." + ext == "undefined." + ext;
  }

  /** Key-generation exhaustion as the source writes it: the name renders as
      `undefined`, so the object is put under `undefined.<ext>`, which is not
      a generated key and replaces whatever was stored there. */
  lemma ExhaustedUploadWritesUndefined(store: Store, file: UploadedFile, origin: string, rand: RandomSource)
    requires forall i :: 0 <= i < MAX_ATTEMPTS ==> Candidate(rand, i) in store
    ensures var o := HandleUploadAsWritten(store, Form(Some(FileField(file)), None), origin, rand);
            var ext := ExtensionOf(file.name);
            var key := "undefined." + ext;
            && o.response == TextResponse(OK, origin + "/" + key)
            && !IsGeneratedKey(key, ext)
            && WroteOnly(store, o.store, key, file)
            && |o.calls| == MAX_ATTEMPTS + 1
  {
    var res := GetFileName(store, None, rand);
    assert res.name.None? && |res.probes| == MAX_ATTEMPTS;
    assert HandleUploadAsWritten(store, Form(Some(FileField(file)), None), origin, rand)
        == Commit(store, file, "undefined", origin, res.probes);
    CommitUndefined(store, file, origin, res.probes);
  }
}

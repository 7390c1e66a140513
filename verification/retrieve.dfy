/** The `GET /:key` handler (src/index.ts:77-94): a read that never changes
    the bucket, with the content-type and Cache-Control policy. */
module RetrievalHandler {
  import opened Wrappers
  import opened ObjectStore
  import opened Http
  import opened Filenames

  /** One day in seconds. */
  const CACHE_DURATION: nat := 60 * 60 * 24

  /** The Cache-Control value `public max-age=${CACHE_DURATION}`: there is no
      comma between the two directives. */
  const CACHE_CONTROL: string := "public max-age=" + DecimalString(CACHE_DURATION)

  const OCTET_STREAM: string := "application/octet-stream"
  const VIDEO_MP4: string := "video/mp4"
  const MP4_SUFFIX: string := ".mp4"

  /** JavaScript's decimal rendering of a non-negative integer. */
  function DecimalString(n: nat): (s: string)
    ensures |s| >= 1
    ensures forall i :: 0 <= i < |s| ==> '0' <= s[i] <= '9'
  {
    if n < 10 then [('0' as int + n) as char]
    else DecimalString(n / 10) + [('0' as int + n % 10) as char]
  }

  /** The header value, written out. */
  lemma CacheControlValue()
    ensures CACHE_CONTROL == "public max-age=86400"
    ensures ',' !in CACHE_CONTROL
  {
    assert CACHE_DURATION == 86400;
    assert DecimalString(8) == "8";
    assert DecimalString(86) == "86";
    assert DecimalString(864) == "864";
    assert DecimalString(8640) == "8640";
    assert DecimalString(86400) == "86400";
  }

  /** `object.httpMetadata?.contentType || ""`: only a missing stored value
      needs the fallback, since an empty one already is the empty string. */
  function StoredContentType(contentType: Option<string>): (r: string)
    ensures r == "" || (contentType.Some? && r == contentType.value)
    ensures contentType.Some? && contentType.value != "" ==> r == contentType.value
  {
    match contentType
    case Some(t) => t
    case None => ""
  }

  /** The content type served for an object stored under `key`. It differs
      from the stored value exactly when that value is the generic binary
      type and the key ends in `.mp4`, and then it is the MP4 video type. */
  function ServedContentType(contentType: Option<string>, key: string): (r: string)
    ensures var stored := StoredContentType(contentType);
            (r != stored) <==> (stored == OCTET_STREAM && EndsWith(key, MP4_SUFFIX))
    ensures r == StoredContentType(contentType) || r == VIDEO_MP4
  {
    var stored := StoredContentType(contentType);
    if stored == OCTET_STREAM && EndsWith(key, MP4_SUFFIX) then VIDEO_MP4 else stored
  }

  /** Serving is a fixed point: storing the served type and serving it again
      changes nothing. */
  lemma ServedContentTypeIdempotent(contentType: Option<string>, key: string)
    ensures ServedContentType(Some(ServedContentType(contentType, key)), key)
         == ServedContentType(contentType, key)
  {
    var served := ServedContentType(contentType, key);
    if served == VIDEO_MP4 {
      assert StoredContentType(Some(VIDEO_MP4)) == VIDEO_MP4;
      assert VIDEO_MP4 != OCTET_STREAM;
    }
  }

  /** The handler. It only reads: the bucket is unchanged and the one call
      is a `get`. An absent key is not found; a present one is served with
      its bytes, the fixed Cache-Control and the served content type. */
  function HandleGet(store: Store, key: string): (o: Outcome)
    ensures o.store == store
    ensures o.calls == [GetCall(key)]
    ensures o.response.NotFound? <==> key !in store
    ensures key in store ==>
              o.response == ObjectResponse(store[key].data, CACHE_CONTROL,
                                           ServedContentType(store[key].contentType, key))
  {
    match Get(store, key)
    case None => Outcome(store, NotFound, [GetCall(key)])
    case Some(obj) =>
      Outcome(store,
              ObjectResponse(obj.data, CACHE_CONTROL, ServedContentType(obj.contentType, key)),
              [GetCall(key)])
  }

  /** The fixup on concrete keys: a generic binary object under an `.mp4`
      key is served as MP4 video, the same type under a `.png` key as is. */
  lemma ContentTypeFixupExamples()
    ensures ServedContentType(Some(OCTET_STREAM), "abc123.mp4") == VIDEO_MP4
    ensures ServedContentType(Some(OCTET_STREAM), "abc123.png") == OCTET_STREAM
  {
    assert EndsWith("abc123.mp4", MP4_SUFFIX);
    assert "abc123.png"[6..] != MP4_SUFFIX by {
      assert "abc123.png"[6..][2] == 'n';
    }
  }
}

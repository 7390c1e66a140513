/** The request and response shapes the handlers see once the framework has
    parsed the multipart body, and the JavaScript coercions the worker relies
    on when it reads a form field (src/index.ts:44-65). */
module Http {
  import opened Wrappers
  import opened ObjectStore

  /** A file part of a multipart body: original filename, declared MIME type, bytes. */
  datatype UploadedFile = UploadedFile(name: string, mimeType: string, data: Bytes)

  /** A parsed form field is either plain text or a file. */
  datatype FormValue = TextField(text: string) | FileField(file: UploadedFile)

  /** The two fields the upload route reads; absent fields are `None`. */
  datatype Form = Form(file: Option<FormValue>, name: Option<FormValue>)

  /** JavaScript truthiness of a parsed field: absent and the empty string are
      falsy, any other string and any File object are truthy. */
  predicate Truthy(v: Option<FormValue>) {
    match v
    case None => false
    case Some(TextField(s)) => s != ""
    case Some(FileField(_)) => true
  }

  /** How a template literal renders the value: `undefined` when absent, the
      text itself for a string, and `[object File]` for a File object. */
  function Render(v: Option<FormValue>): string {
    match v
    case None => "undefined"
    case Some(TextField(s)) => s
    case Some(FileField(_)) => "[object File]"
  }

  const OK: nat := 200
  const BAD_REQUEST: nat := 400
  const INTERNAL_SERVER_ERROR: nat := 500

  /** The responses the worker produces. */
  datatype Response =
      /** `c.body(text, status)` */
    | TextResponse(status: nat, text: string)
      /** `c.body(data, 200, { "Cache-Control": ..., "Content-Type": ... })` */
    | ObjectResponse(data: Bytes, cacheControl: string, contentType: string)
      /** `c.notFound()` */
    | NotFound
      /** the Basic-auth challenge that stops a request before its handler */
    | Unauthorized

  /** What a handler leaves behind: the bucket afterwards, the response, and
      the bucket calls it made, in order. */
  datatype Outcome = Outcome(store: Store, response: Response, calls: seq<StoreCall>)
}

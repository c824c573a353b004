/** outline/attachment.go: uploading the attachments a page refers to and
    pointing the page at their Outline URLs. The file system, the MIME
    table and the two HTTP services are the oracle `Server`, keyed by path
    and URL; the rate limiter is represented by the number of times it is
    called. */
module OutlineAttachment {
  import opened Wrappers
  import opened Strs
  import opened Paths
  import opened Utils
  import opened Dom
  import opened JsonValues

  /** The answer to an HTTP request that was sent; `body` is None when it
      is not JSON. */
  datatype Reply = Reply(status: int, body: Option<Json>)

  const StatusOK: int := 200

  datatype Server = Server(
    baseURL: string,                             // cfg.BaseURL
    statOk: string -> bool,                      // os.Stat of a file
    mimeType: string -> string,                  // utils.GetMimeType, "" when unknown
    requestOk: string -> bool,                   // http.NewRequest accepts the URL
    create: string -> Option<Reply>,             // Client.Do of attachments.create for a file
    openOk: string -> bool,                      // os.Open of the file
    readOk: string -> bool,                      // io.Copy of its content into the form
    upload: (string, string) -> Option<Reply>)   // Client.Do of the upload of a file to a URL

  /** The error createAttachment returns, by the step that produced it. */
  datatype Failure =
    | StatFailed
    | CreateRequestFailed
    | CreateSendFailed
    | CreateRejected(status: int)
    | Undecodable
    | InvalidResponseFormat      // "invalid response format"
    | NoUploadUrl                // "no upload URL provided in the response"
    | InvalidFormData            // "invalid form data in response"
    | OpenFailed
    | CopyFailed
    | UploadRequestFailed
    | UploadSendFailed
    | UploadRejected(status: int)

  datatype Outcome =
    | Skipped                             // (nil, nil)
    | Created(info: map<string, Json>)    // the id/key/name map
    | Error(failure: Failure)
    | Panicked                            // data["attachment"] is not an object

  /** What one createAttachment call returns, how often it went through
      rate.LimitRequest, and how many requests it handed to Client.Do. */
  datatype Attempt = Attempt(outcome: Outcome, limiterCalls: nat, requests: nat)

  /** json.Unmarshal into a map[string]interface{}: an object, or null
      (which leaves the map nil and empty); anything else is an error. */
  function DecodeObject(body: Option<Json>): (r: Option<map<string, Json>>)
    ensures r.Some? <==> body.Some? && (body.value.JObj? || body.value.JNull?)
  {
    match body
    case Some(JObj(m)) => Some(m)
    case Some(JNull) => Some(map[])
    case _ => None
  }

  predicate IsHtmlFile(filePath: string) {
    ToLowerAscii(Ext(filePath)) == ".html"
  }

  /** An upload URL relative to the server is made absolute under the base
      URL, after dropping a leading "/api". */
  function NormalizeUploadURL(baseURL: string, uploadURL: string): string {
    if HasPrefix(uploadURL, "/") then baseURL + TrimPrefix(uploadURL, "/api") else uploadURL
  }

  /** The three parts of an accepted attachments.create answer. */
  datatype Grant = Grant(data: map<string, Json>, uploadURL: string, form: map<string, Json>)

  /** Reading an attachments.create answer with status 200. */
  function ReadGrant(baseURL: string, body: Option<Json>): (r: Result<Grant, Failure>)
    ensures r.Ok? ==> DecodeObject(body).Some?
    ensures r.Ok? ==> var data := Field(DecodeObject(body).value, "data");
      data.JObj? && r.value.data == data.fields
      && Field(data.fields, "uploadUrl").JStr?
      && r.value.uploadURL == NormalizeUploadURL(baseURL, Field(data.fields, "uploadUrl").s)
      && Field(data.fields, "form").JObj? && r.value.form == Field(data.fields, "form").fields
  {
    match DecodeObject(body)
    case None => Err(Undecodable)
    case Some(result) =>
      var data := Field(result, "data");
      if !data.JObj? then Err(InvalidResponseFormat)
      else
        var uploadURL := Field(data.fields, "uploadUrl");
        if !uploadURL.JStr? then Err(NoUploadUrl)
        else
          var form := Field(data.fields, "form");
          if !form.JObj? then Err(InvalidFormData)
          else Ok(Grant(data.fields, NormalizeUploadURL(baseURL, uploadURL.s), form.fields))
  }

  /** The map returned after a successful upload; None where the type
      assertion on data["attachment"] panics. */
  function AttachmentInfo(g: Grant, fileName: string): (r: Option<map<string, Json>>)
    ensures r.Some? <==> Field(g.data, "attachment").JObj?
    ensures r.Some? ==> r.value.Keys == {"id", "key", "name"}
    ensures r.Some? ==> r.value["key"] == Field(g.form, "key") && r.value["name"] == JStr(fileName)
  {
    var attachment := Field(g.data, "attachment");
    if !attachment.JObj? then None
    else Some(map["id" := Field(attachment.fields, "id"), "key" := Field(g.form, "key"), "name" := JStr(fileName)])
  }

  /** The second half of createAttachment, after the second limiter call:
      the multipart upload of the file to the granted URL. */
  function Upload(srv: Server, filePath: string, g: Grant): (r: Outcome)
    ensures r.Created? ==> srv.openOk(filePath) && srv.readOk(filePath) && srv.requestOk(g.uploadURL)
    ensures r.Created? ==> srv.upload(g.uploadURL, filePath).Some? && srv.upload(g.uploadURL, filePath).value.status == StatusOK
    ensures r.Created? ==> AttachmentInfo(g, Base(filePath)) == Some(r.info)
    ensures r != Skipped
  {
    if !srv.openOk(filePath) then Error(OpenFailed)
    else if !srv.readOk(filePath) then Error(CopyFailed)
    else if !srv.requestOk(g.uploadURL) then Error(UploadRequestFailed)
    else match srv.upload(g.uploadURL, filePath)
      case None => Error(UploadSendFailed)
      case Some(reply) =>
        if reply.status != StatusOK then Error(UploadRejected(reply.status))
        else match AttachmentInfo(g, Base(filePath))
          case None => Panicked
          case Some(info) => Created(info)
  }

  /** The upload request is built and handed to Client.Do: the file opens,
      its content is copied into the form, and the granted URL is accepted. */
  predicate UploadSent(srv: Server, filePath: string, g: Grant) {
    srv.openOk(filePath) && srv.readOk(filePath) && srv.requestOk(g.uploadURL)
  }

  /** createAttachment. */
  function CreateAttachment(srv: Server, filePath: string): (a: Attempt)
    ensures a.limiterCalls <= 2
    ensures a.requests <= a.limiterCalls
    ensures a.requests == 0 <==>
      IsHtmlFile(filePath) || !srv.statOk(filePath) || srv.mimeType(filePath) == ""
      || !srv.requestOk(srv.baseURL + "/attachments.create")
    ensures a.outcome == Skipped ==> a.requests == 0
    ensures a.outcome == Skipped && !IsHtmlFile(filePath) ==> a.limiterCalls == 1
    ensures a.outcome.Created? ==> a.requests == 2
    ensures a.limiterCalls == 0 <==> IsHtmlFile(filePath)
    ensures a.limiterCalls == 0 ==> a.outcome == Skipped
    ensures a.outcome == Skipped <==>
      IsHtmlFile(filePath) || (srv.statOk(filePath) && srv.mimeType(filePath) == "")
    ensures a.outcome.Created? ==> a.limiterCalls == 2
    ensures a.outcome.Created? ==>
      a.outcome.info.Keys == {"id", "key", "name"} && a.outcome.info["name"] == JStr(Base(filePath))
  {
    if IsHtmlFile(filePath) then Attempt(Skipped, 0, 0)
    else if !srv.statOk(filePath) then Attempt(Error(StatFailed), 1, 0)
    else if srv.mimeType(filePath) == "" then Attempt(Skipped, 1, 0)
    else if !srv.requestOk(srv.baseURL + "/attachments.create") then Attempt(Error(CreateRequestFailed), 1, 0)
    else match srv.create(filePath)
      case None => Attempt(Error(CreateSendFailed), 1, 1)
      case Some(reply) =>
        if reply.status != StatusOK then Attempt(Error(CreateRejected(reply.status)), 1, 1)
        else match ReadGrant(srv.baseURL, reply.body)
          case Err(f) => Attempt(Error(f), 1, 1)
          case Ok(g) => Attempt(Upload(srv, filePath, g), 2, if UploadSent(srv, filePath, g) then 2 else 1)
  }

  /** A relative upload URL under /api is served from the base URL. */
  lemma NormalizeApiPath(baseURL: string, rest: string)
    ensures NormalizeUploadURL(baseURL, "/api" + rest) == baseURL + rest
  {
    assert HasPrefix("/api" + rest, "/");
    assert HasPrefix("/api" + rest, "/api");
  }

  /** Any other relative upload URL is appended to the base URL whole. */
  lemma NormalizeOtherRelative(baseURL: string, uploadURL: string)
    requires HasPrefix(uploadURL, "/") && !HasPrefix(uploadURL, "/api")
    ensures NormalizeUploadURL(baseURL, uploadURL) == baseURL + uploadURL
  {
  }

  /** An absolute upload URL is used as it is. */
  lemma NormalizeKeepsAbsolute(baseURL: string, uploadURL: string)
    requires !HasPrefix(uploadURL, "/")
    ensures NormalizeUploadURL(baseURL, uploadURL) == uploadURL
  {
  }

  /** The prefix "/api" is dropped as four characters, not as a path
      segment: "/apiary" loses its first four characters too. */
  lemma NormalizeDropsLettersNotSegment(baseURL: string)
    ensures NormalizeUploadURL(baseURL, "/apiary") == baseURL + "ary"
  {
    NormalizeApiPath(baseURL, "ary");
    assert "/api" + "ary" == "/apiary";
  }

  const FilesGet: string := "/files.get?key="

  /** getAttachmentURL. */
  function GetAttachmentURL(baseURL: string, info: map<string, Json>): (r: string)
    ensures r != "" <==> Field(info, "key").JStr?
  {
    match Field(info, "key")
    case JStr(key) => baseURL + FilesGet + key
    case _ => ""
  }

  /** The key a files.get URL under the base URL names. */
  function KeyOf(baseURL: string, url: string): Option<string> {
    if HasPrefix(url, baseURL + FilesGet) then Some(TrimPrefix(url, baseURL + FilesGet)) else None
  }

  /** The URL of an attachment names exactly its key. */
  lemma AttachmentURLNamesKey(baseURL: string, info: map<string, Json>)
    requires Field(info, "key").JStr?
    ensures KeyOf(baseURL, GetAttachmentURL(baseURL, info)) == Some(Field(info, "key").s)
  {
    var key := Field(info, "key").s;
    assert GetAttachmentURL(baseURL, info) == (baseURL + FilesGet) + key;
    assert HasPrefix((baseURL + FilesGet) + key, baseURL + FilesGet);
  }

  /** processElement for one reference that points into attachments/: the
      new value of the attribute, or None when it is kept. */
  function UploadTarget(srv: Server, basePath: string, src: string): (r: Option<string>)
    ensures r.Some? <==>
      var srcPath := Join(basePath, CleanPath(src));
      var a := CreateAttachment(srv, srcPath);
      srv.statOk(srcPath) && a.outcome.Created? && Field(a.outcome.info, "key").JStr?
    ensures r.Some? ==>
      var a := CreateAttachment(srv, Join(basePath, CleanPath(src)));
      a.limiterCalls == 2 && r.value == GetAttachmentURL(srv.baseURL, a.outcome.info)
  {
    var srcPath := Join(basePath, CleanPath(src));
    if !srv.statOk(srcPath) then None
    else match CreateAttachment(srv, srcPath).outcome
      case Created(info) =>
        var url := GetAttachmentURL(srv.baseURL, info);
        if url == "" then None else Some(url)
      case _ => None
  }

  function UploadRewrite(srv: Server, basePath: string): string -> Option<string> {
    src => UploadTarget(srv, basePath, src)
  }

  /** A reference to an HTML file is never uploaded, so it is kept. */
  lemma HtmlReferenceIsKept(srv: Server, basePath: string, src: string)
    requires IsHtmlFile(Join(basePath, CleanPath(src)))
    ensures UploadTarget(srv, basePath, src) == None
  {
  }

  /** A rewritten reference is a files.get URL under the base URL whose key
      is the one the upload form carried. */
  lemma RewrittenReferenceNamesUploadKey(srv: Server, basePath: string, src: string)
    requires UploadTarget(srv, basePath, src).Some?
    ensures var info := CreateAttachment(srv, Join(basePath, CleanPath(src))).outcome.info;
      KeyOf(srv.baseURL, UploadTarget(srv, basePath, src).value) == Some(Field(info, "key").s)
  {
    AttachmentURLNamesKey(srv.baseURL, CreateAttachment(srv, Join(basePath, CleanPath(src))).outcome.info);
  }

  /** uploadAndReplaceAttachments on an already parsed page. */
  method UploadAndReplaceAttachments(doc: Document, srv: Server, basePath: string)
    modifies doc
    ensures doc.elements == Rewritten(old(doc.elements), UploadRewrite(srv, basePath))
  {
    RewriteAttachments(doc, UploadRewrite(srv, basePath));
  }

  /** The upload pass keeps every element that is not an emoticon, in
      order; only a reference into attachments/ whose upload produced a URL
      changes, and it then holds that URL. */
  lemma UploadPassRule(es: seq<Element>, srv: Server, basePath: string, i: nat)
    requires i < |Kept(es)|
    ensures |Rewritten(es, UploadRewrite(srv, basePath))| == |Kept(es)|
    ensures var e := Kept(es)[i];
      var attr := if e.tag == "img" then "src" else "href";
      var r := Rewritten(es, UploadRewrite(srv, basePath))[i];
      (if (e.tag == "img" || e.tag == "a") && IsAttachmentRef(e, attr)
            && UploadTarget(srv, basePath, e.attrs[attr]).Some?
          then r == e.(attrs := e.attrs[attr := UploadTarget(srv, basePath, e.attrs[attr]).value])
          else r == e)
  {
    RewrittenIsPerElement(es, UploadRewrite(srv, basePath));
  }
}

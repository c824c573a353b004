/** internal/outline/upload.go: the tree import into Outline. The page tree
    recovered from index.html is walked in pre-order, and every page becomes
    a document whose parent is the document of the page above it. There is
    no de-duplication: a page listed twice is uploaded twice. File-system
    effects, the package's own attachment pass and converter, the prompt
    and createDocument are the oracle `Env`. */
module OutlineTree {
  import opened Wrappers
  import opened Strs
  import opened Paths
  import opened Hierarchy
  import opened JsonValues

  datatype Env = Env(
    inputPath: string,
    outputPath: string,
    verify: bool,
    mkdirOk: string -> bool,                                        // os.MkdirAll of the output directory
    readOk: string -> bool,                                         // os.ReadFile of an HTML file
    attachOk: string -> bool,                                       // the attachment pass on that file
    convert: string -> Option<string>,                              // its Markdown, None on a conversion error
    approve: string -> bool,                                        // the answer "y" to the prompt about a file
    create: (string, string, string) -> Option<map<string, Json>>,  // createDocument(title, markdown, parentID)
    writeOk: string -> bool)                                        // os.WriteFile of the Markdown copy

  /** The steps of processAndUploadFile that act on the outside world. */
  datatype Effect = ReadFile | UploadAttachments | Convert | Prompt | CreateDocument | WriteFile

  datatype Failure = ReadFailed | AttachmentsFailed | ConvertFailed | CreateFailed | InvalidDocumentId | WriteFailed

  datatype Outcome =
    | Uploaded(id: string, copy: string)   // the document id and the local Markdown copy
    | Declined                             // ("", nil)
    | Failed(failure: Failure)

  /** What one processAndUploadFile call did, in order, and how it ended. */
  datatype Run = Run(effects: seq<Effect>, outcome: Outcome)

  /** The document id processAndUploadFile returns: "" unless uploaded. */
  function DocumentId(o: Outcome): string {
    if o.Uploaded? then o.id else ""
  }

  /** The local copy of a page: its file name with ".html" replaced by ".md",
      directly in the output directory. */
  function CopyPath(outputPath: string, inputPath: string): string {
    Join(outputPath, TrimSuffix(Base(inputPath), ".html") + ".md")
  }

  /** processAndUploadFile, step by step. */
  function UploadFile(env: Env, title: string, inputPath: string, parentId: string): Run
  {
    if !env.readOk(inputPath) then Run([ReadFile], Failed(ReadFailed))
    else if !env.attachOk(inputPath) then Run([ReadFile, UploadAttachments], Failed(AttachmentsFailed))
    else match env.convert(inputPath)
      case None => Run([ReadFile, UploadAttachments, Convert], Failed(ConvertFailed))
      case Some(markdown) =>
        if env.verify && !env.approve(inputPath) then Run([ReadFile, UploadAttachments, Convert, Prompt], Declined)
        else
          var created := [ReadFile, UploadAttachments, Convert] + (if env.verify then [Prompt] else []) + [CreateDocument];
          match env.create(title, markdown, parentId)
          case None => Run(created, Failed(CreateFailed))
          case Some(document) =>
            if !Field(document, "id").JStr? then Run(created, Failed(InvalidDocumentId))
            else
              var copy := CopyPath(env.outputPath, inputPath);
              if !env.writeOk(copy) then Run(created + [WriteFile], Failed(WriteFailed))
              else Run(created + [WriteFile], Uploaded(Field(document, "id").s, copy))
  }

  /** A declined page creates no document and writes no file. */
  lemma DeclinedCreatesNothing(env: Env, title: string, inputPath: string, parentId: string)
    requires UploadFile(env, title, inputPath, parentId).outcome.Declined?
    ensures env.verify && !env.approve(inputPath)
    ensures var r := UploadFile(env, title, inputPath, parentId);
      CreateDocument !in r.effects && WriteFile !in r.effects
  {
  }

  /** The page is read, its attachments uploaded, it is converted and
      approved, and the server creates it and returns a string id. */
  predicate CreatesDocument(env: Env, title: string, inputPath: string, parentId: string) {
    && env.readOk(inputPath) && env.attachOk(inputPath) && env.convert(inputPath).Some?
    && !(env.verify && !env.approve(inputPath))
    && env.create(title, env.convert(inputPath).value, parentId).Some?
    && Field(env.create(title, env.convert(inputPath).value, parentId).value, "id").JStr?
  }

  /** No local copy is written unless the document was created with a
      string id. */
  lemma NoWriteWithoutCreate(env: Env, title: string, inputPath: string, parentId: string)
    requires !CreatesDocument(env, title, inputPath, parentId)
    ensures WriteFile !in UploadFile(env, title, inputPath, parentId).effects
  {
    var r := UploadFile(env, title, inputPath, parentId);
    if !env.readOk(inputPath) {
      assert r == Run([ReadFile], Failed(ReadFailed));
    } else if !env.attachOk(inputPath) {
      assert r == Run([ReadFile, UploadAttachments], Failed(AttachmentsFailed));
    } else if env.convert(inputPath).None? {
      assert r == Run([ReadFile, UploadAttachments, Convert], Failed(ConvertFailed));
    } else if env.verify && !env.approve(inputPath) {
      assert r == Run([ReadFile, UploadAttachments, Convert, Prompt], Declined);
    } else {
      var created := [ReadFile, UploadAttachments, Convert] + (if env.verify then [Prompt] else []) + [CreateDocument];
      var document := env.create(title, env.convert(inputPath).value, parentId);
      if document.None? {
        assert r == Run(created, Failed(CreateFailed));
      } else {
        assert r == Run(created, Failed(InvalidDocumentId));
      }
      assert WriteFile !in created;
    }
  }

  /** The local copy is written exactly when the document was created with
      a string id. */
  lemma WriteFollowsCreate(env: Env, title: string, inputPath: string, parentId: string)
    ensures WriteFile in UploadFile(env, title, inputPath, parentId).effects
      <==> CreatesDocument(env, title, inputPath, parentId)
  {
    if CreatesDocument(env, title, inputPath, parentId) {
      CreatedDocumentEffects(env, title, inputPath, parentId);
    } else {
      NoWriteWithoutCreate(env, title, inputPath, parentId);
    }
  }

  /** A created document's upload runs every step in order: read, upload
      the attachments, convert, ask when verifying, create, write. */
  lemma CreatedDocumentEffects(env: Env, title: string, inputPath: string, parentId: string)
    requires CreatesDocument(env, title, inputPath, parentId)
    ensures UploadFile(env, title, inputPath, parentId).effects
      == [ReadFile, UploadAttachments, Convert] + (if env.verify then [Prompt] else []) + [CreateDocument, WriteFile]
  {
    var asked := [ReadFile, UploadAttachments, Convert] + (if env.verify then [Prompt] else []);
    assert UploadFile(env, title, inputPath, parentId).effects == asked + [CreateDocument] + [WriteFile];
    assert asked + [CreateDocument] + [WriteFile] == asked + [CreateDocument, WriteFile];
  }

  /** An uploaded page's id is the string id createDocument returned for
      its title, Markdown and parent id; its copy is at CopyPath. */
  lemma UploadedIdIsDocumentId(env: Env, title: string, inputPath: string, parentId: string)
    requires UploadFile(env, title, inputPath, parentId).outcome.Uploaded?
    ensures var o := UploadFile(env, title, inputPath, parentId).outcome;
      env.convert(inputPath).Some?
      && env.create(title, env.convert(inputPath).value, parentId).Some?
      && Field(env.create(title, env.convert(inputPath).value, parentId).value, "id") == JStr(o.id)
      && o.copy == CopyPath(env.outputPath, inputPath) && env.writeOk(o.copy)
  {
  }

  /** A created document without a string id is an error, and no copy is
      written. */
  lemma InvalidIdWritesNothing(env: Env, title: string, inputPath: string, parentId: string)
    requires UploadFile(env, title, inputPath, parentId).outcome == Failed(InvalidDocumentId)
    ensures WriteFile !in UploadFile(env, title, inputPath, parentId).effects
    ensures env.convert(inputPath).Some?
      && env.create(title, env.convert(inputPath).value, parentId).Some?
      && !Field(env.create(title, env.convert(inputPath).value, parentId).value, "id").JStr?
  {
  }

  /** processAndUploadFile. */
  method ProcessAndUploadFile(env: Env, title: string, inputPath: string, parentId: string) returns (run: Run)
    ensures run == UploadFile(env, title, inputPath, parentId)
  {
    var effects := [ReadFile];
    if !env.readOk(inputPath) {
      return Run(effects, Failed(ReadFailed));
    }
    effects := effects + [UploadAttachments];
    if !env.attachOk(inputPath) {
      return Run(effects, Failed(AttachmentsFailed));
    }
    effects := effects + [Convert];
    assert effects == [ReadFile, UploadAttachments, Convert];
    var converted := env.convert(inputPath);
    if converted.None? {
      return Run(effects, Failed(ConvertFailed));
    }
    var markdown := converted.value;
    if env.verify {
      effects := effects + [Prompt];
      if !env.approve(inputPath) {
        return Run(effects, Declined);
      }
    }
    assert effects == [ReadFile, UploadAttachments, Convert] + (if env.verify then [Prompt] else []);
    effects := effects + [CreateDocument];
    var document := env.create(title, markdown, parentId);
    if document.None? {
      return Run(effects, Failed(CreateFailed));
    }
    var id := Field(document.value, "id");
    if !id.JStr? {
      return Run(effects, Failed(InvalidDocumentId));
    }
    var outputFilePath := Join(env.outputPath, TrimSuffix(Base(inputPath), ".html") + ".md");
    assert outputFilePath == CopyPath(env.outputPath, inputPath);
    effects := effects + [WriteFile];
    if !env.writeOk(outputFilePath) {
      return Run(effects, Failed(WriteFailed));
    }
    run := Run(effects, Uploaded(id.s, outputFilePath));
  }

  /** A page URL that is a plain "x.html" file name in the export directory
      is copied to "x.md" in the output directory. */
  lemma CopyOfPage(env: Env, x: string)
    requires x != "" && '/' !in x
    ensures CopyPath(env.outputPath, Join(env.inputPath, x + ".html")) == Join(env.outputPath, x + ".md")
  {
    assert '/' !in x + ".html" by {
      assert forall c :: c in x + ".html" ==> c in x || c in ".html";
    }
    BaseOfJoin(env.inputPath, x + ".html");
    assert HasSuffix(x + ".html", ".html");
    assert TrimSuffix(x + ".html", ".html") + ".html" == x + ".html";
  }

  // ---------------------------------------------------------------------
  // processPages

  /** One call of processAndUploadFile made by the walk: the page, the
      parent id it was given, and what it did. */
  datatype Upload = Upload(page: Page, parentId: string, run: Run)

  /** processAndUploadFile as the walk calls it, on a page and a parent id. */
  function PageUpload(env: Env): (Page, string) -> Run {
    (p: Page, parentId: string) => UploadFile(env, p.title, Join(env.inputPath, p.url), parentId)
  }

  /** What the walk records for one call of its per-page step. */
  function OwnUpload(upload: (Page, string) -> Run, p: Page, parentId: string): Upload {
    Upload(p, parentId, upload(p, parentId))
  }

  /** One iteration of the loop of processPages: the page's own upload and,
      unless it failed, the walk of its children under its document id. */
  function TreeVisit(upload: (Page, string) -> Run, p: Page, parentId: string): seq<Upload>
    decreases p, 1
  {
    var u := OwnUpload(upload, p, parentId);
    if u.run.outcome.Failed? || |p.children| == 0 then [u]
    else [u] + TreeScan(upload, p.children, |p.children|, DocumentId(u.run.outcome))
  }

  /** The uploads the loop of processPages made after `pages[..k]`. */
  function TreeScan(upload: (Page, string) -> Run, pages: seq<Page>, k: nat, parentId: string): seq<Upload>
    requires k <= |pages|
    decreases pages, 0, k
  {
    if k == 0 then [] else TreeScan(upload, pages, k - 1, parentId) + TreeVisit(upload, pages[k - 1], parentId)
  }

  /** processPages: always returns no error. */
  method ProcessPages(env: Env, pages: seq<Page>, parentId: string) returns (err: Option<string>, uploads: seq<Upload>)
    ensures err == None
    ensures uploads == TreeScan(PageUpload(env), pages, |pages|, parentId)
    decreases pages
  {
    uploads := [];
    for i := 0 to |pages|
      invariant uploads == TreeScan(PageUpload(env), pages, i, parentId)
    {
      var page := pages[i];
      var run := ProcessAndUploadFile(env, page.title, Join(env.inputPath, page.url), parentId);
      var u := Upload(page, parentId, run);
      assert u == OwnUpload(PageUpload(env), page, parentId);
      assert TreeScan(PageUpload(env), pages, i + 1, parentId)
        == TreeScan(PageUpload(env), pages, i, parentId) + TreeVisit(PageUpload(env), page, parentId);
      if run.outcome.Failed? {
        uploads := uploads + [u];
        continue;
      }
      if |page.children| > 0 {
        var _, sub := ProcessPages(env, page.children, DocumentId(run.outcome));
        assert uploads + [u] + sub == uploads + ([u] + sub);
        uploads := uploads + [u] + sub;
      } else {
        uploads := uploads + [u];
      }
    }
    err := None;
  }

  /** PrepareAndProcess; `root` is the parsed index.html, None when it does
      not parse. */
  method PrepareAndProcess(env: Env, root: Option<Node>) returns (err: Option<string>, uploads: seq<Upload>)
    ensures err.None? <==>
      (env.mkdirOk(env.outputPath) && env.readOk(Join(env.inputPath, "index.html")) && root.Some?)
    ensures err.None? ==> uploads == TreeScan(PageUpload(env), Walk(root.value), |Walk(root.value)|, "")
    ensures err.Some? ==> uploads == []
  {
    uploads := [];
    if !env.mkdirOk(env.outputPath) {
      return Some("failed to create output directory"), uploads;
    }
    if !env.readOk(Join(env.inputPath, "index.html")) {
      return Some("failed to read index.html"), uploads;
    }
    if root.None? {
      return Some("failed to parse HTML"), uploads;
    }
    var pages := ProcessHTML(root.value);
    err, uploads := ProcessPages(env, pages, "");
  }

  // ---------------------------------------------------------------------
  // What the walk does

  /** The URLs of the pages of a forest in pre-order, every occurrence counted. */
  function PreOrder(p: Page): seq<string>
    decreases p, 1
  {
    [p.url] + PreOrderScan(p.children, |p.children|)
  }

  function PreOrderScan(pages: seq<Page>, k: nat): seq<string>
    requires k <= |pages|
    decreases pages, 0, k
  {
    if k == 0 then [] else PreOrderScan(pages, k - 1) + PreOrder(pages[k - 1])
  }

  function Urls(log: seq<Upload>): (r: seq<string>)
    ensures |r| == |log|
    ensures forall i :: 0 <= i < |log| ==> r[i] == log[i].page.url
  {
    if log == [] then [] else Urls(log[..|log| - 1]) + [log[|log| - 1].page.url]
  }

  lemma UrlsConcat(a: seq<Upload>, b: seq<Upload>)
    ensures Urls(a + b) == Urls(a) + Urls(b)
  {
  }

  predicate NoneFailed(log: seq<Upload>) {
    forall i :: 0 <= i < |log| ==> !log[i].run.outcome.Failed?
  }

  lemma NoneFailedSplit(a: seq<Upload>, b: seq<Upload>)
    requires NoneFailed(a + b)
    ensures NoneFailed(a) && NoneFailed(b)
  {
    forall i | 0 <= i < |a| ensures !a[i].run.outcome.Failed? {
      assert a[i] == (a + b)[i];
    }
    forall i | 0 <= i < |b| ensures !b[i].run.outcome.Failed? {
      assert b[i] == (a + b)[|a| + i];
    }
  }

  /** When no upload fails, the walk uploads every occurrence of every page
      of the forest, in pre-order: nothing is de-duplicated. */
  lemma {:induction false} VisitUploadsPreOrder(upload: (Page, string) -> Run, p: Page, parentId: string)
    requires NoneFailed(TreeVisit(upload, p, parentId))
    ensures Urls(TreeVisit(upload, p, parentId)) == PreOrder(p)
    decreases p, 1
  {
    var u := OwnUpload(upload, p, parentId);
    assert TreeVisit(upload, p, parentId)[0] == u;
    if |p.children| == 0 {
      assert PreOrderScan(p.children, 0) == [];
    } else {
      var rest := TreeScan(upload, p.children, |p.children|, DocumentId(u.run.outcome));
      NoneFailedSplit([u], rest);
      ScanUploadsPreOrder(upload, p.children, |p.children|, DocumentId(u.run.outcome));
      UrlsConcat([u], rest);
    }
  }

  lemma {:induction false} ScanUploadsPreOrder(upload: (Page, string) -> Run, pages: seq<Page>, k: nat, parentId: string)
    requires k <= |pages|
    requires NoneFailed(TreeScan(upload, pages, k, parentId))
    ensures Urls(TreeScan(upload, pages, k, parentId)) == PreOrderScan(pages, k)
    decreases pages, 0, k
  {
    if k > 0 {
      var front := TreeScan(upload, pages, k - 1, parentId);
      var last := TreeVisit(upload, pages[k - 1], parentId);
      NoneFailedSplit(front, last);
      ScanUploadsPreOrder(upload, pages, k - 1, parentId);
      VisitUploadsPreOrder(upload, pages[k - 1], parentId);
      UrlsConcat(front, last);
    }
  }

  /** A page listed twice is uploaded twice. */
  lemma DuplicateIsUploadedTwice(upload: (Page, string) -> Run, p: Page, parentId: string)
    requires p.children == []
    ensures TreeScan(upload, [p, p], 2, parentId) == [OwnUpload(upload, p, parentId), OwnUpload(upload, p, parentId)]
  {
    assert TreeScan(upload, [p, p], 1, parentId) == [OwnUpload(upload, p, parentId)];
  }

  /** The `i`-th upload is of a child of the page of the earlier `j`-th,
      which did not fail, and was given the document id that upload returned
      ("" when it was declined). */
  ghost predicate HangsUnder(log: seq<Upload>, i: int, j: int) {
    0 <= j < i < |log| && !log[j].run.outcome.Failed? && log[i].page in log[j].page.children
    && log[i].parentId == DocumentId(log[j].run.outcome)
  }

  /** Every upload is of a top-level page, given the walk's parent id, or
      hangs under an earlier upload. */
  ghost predicate Linked(parentId: string, pages: seq<Page>, log: seq<Upload>) {
    forall i :: 0 <= i < |log| ==>
      (log[i].page in pages && log[i].parentId == parentId) || exists j :: HangsUnder(log, i, j)
  }

  lemma LinkedConcat(parentId: string, pages: seq<Page>, a: seq<Upload>, b: seq<Upload>)
    requires Linked(parentId, pages, a) && Linked(parentId, pages, b)
    ensures Linked(parentId, pages, a + b)
  {
    var ab := a + b;
    forall i | 0 <= i < |ab| && !(ab[i].page in pages && ab[i].parentId == parentId)
      ensures exists j :: HangsUnder(ab, i, j)
    {
      if i < |a| {
        assert ab[i] == a[i];
        var j :| HangsUnder(a, i, j);
        assert ab[j] == a[j];
        assert HangsUnder(ab, i, j);
      } else {
        assert ab[i] == b[i - |a|];
        var j :| HangsUnder(b, i - |a|, j);
        assert ab[j + |a|] == b[j];
        assert HangsUnder(ab, i, j + |a|);
      }
    }
  }

  /** The children's walk hangs under the page's own upload. */
  lemma LinkedUnder(parentId: string, pages: seq<Page>, u: Upload, rest: seq<Upload>)
    requires u.page in pages && u.parentId == parentId && !u.run.outcome.Failed?
    requires Linked(DocumentId(u.run.outcome), u.page.children, rest)
    ensures Linked(parentId, pages, [u] + rest)
  {
    var ur := [u] + rest;
    assert ur[0] == u;
    forall i | 0 <= i < |ur| && !(ur[i].page in pages && ur[i].parentId == parentId)
      ensures exists j :: HangsUnder(ur, i, j)
    {
      assert ur[i] == rest[i - 1];
      if rest[i - 1].page in u.page.children && rest[i - 1].parentId == DocumentId(u.run.outcome) {
        assert ur[0] == u;
        assert HangsUnder(ur, i, 0);
      } else {
        var j :| HangsUnder(rest, i - 1, j);
        assert ur[j + 1] == rest[j];
        assert HangsUnder(ur, i, j + 1);
      }
    }
  }

  lemma {:induction false} VisitIsLinked(upload: (Page, string) -> Run, pages: seq<Page>, p: Page, parentId: string)
    requires p in pages
    ensures Linked(parentId, pages, TreeVisit(upload, p, parentId))
    decreases p, 1
  {
    var u := OwnUpload(upload, p, parentId);
    if !(u.run.outcome.Failed? || |p.children| == 0) {
      ScanIsLinked(upload, p.children, |p.children|, DocumentId(u.run.outcome));
      LinkedUnder(parentId, pages, u, TreeScan(upload, p.children, |p.children|, DocumentId(u.run.outcome)));
    }
  }

  /** Each child call receives the document id of the page above it. */
  lemma {:induction false} ScanIsLinked(upload: (Page, string) -> Run, pages: seq<Page>, k: nat, parentId: string)
    requires k <= |pages|
    ensures Linked(parentId, pages, TreeScan(upload, pages, k, parentId))
    decreases pages, 0, k
  {
    if k > 0 {
      ScanIsLinked(upload, pages, k - 1, parentId);
      VisitIsLinked(upload, pages, pages[k - 1], parentId);
      LinkedConcat(parentId, pages, TreeScan(upload, pages, k - 1, parentId), TreeVisit(upload, pages[k - 1], parentId));
    }
  }

  /** A failing page is uploaded alone: its children are not walked. */
  lemma FailedPageSkipsChildren(upload: (Page, string) -> Run, p: Page, parentId: string)
    requires OwnUpload(upload, p, parentId).run.outcome.Failed?
    ensures TreeVisit(upload, p, parentId) == [OwnUpload(upload, p, parentId)]
  {
  }

  /** The children of a declined page are walked with the parent id "". */
  lemma DeclinedPageOrphansChildren(upload: (Page, string) -> Run, p: Page, parentId: string)
    requires OwnUpload(upload, p, parentId).run.outcome.Declined? && |p.children| > 0
    ensures TreeVisit(upload, p, parentId) == [OwnUpload(upload, p, parentId)] + TreeScan(upload, p.children, |p.children|, "")
  {
  }

  /** Every page of the list is attempted with the walk's parent id, also
      after an earlier sibling failed. */
  lemma {:induction false} EverySiblingIsAttempted(upload: (Page, string) -> Run, pages: seq<Page>, k: nat, parentId: string)
    requires k <= |pages|
    ensures forall i :: 0 <= i < k ==> OwnUpload(upload, pages[i], parentId) in TreeScan(upload, pages, k, parentId)
  {
    if k > 0 {
      EverySiblingIsAttempted(upload, pages, k - 1, parentId);
      var front := TreeScan(upload, pages, k - 1, parentId);
      var last := TreeVisit(upload, pages[k - 1], parentId);
      assert last[0] == OwnUpload(upload, pages[k - 1], parentId);
      assert TreeScan(upload, pages, k, parentId) == front + last;
      assert forall x :: x in front ==> x in front + last;
      assert last[0] == (front + last)[|front|];
    }
  }
}

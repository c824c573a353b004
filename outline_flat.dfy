/** outline/upload.go: the flat import. Every HTML file directly inside the
    export directory is uploaded to Outline as one document and copied
    locally as Markdown; the page tree is not used. File-system effects,
    the HTML parser and renderer, the converter, the prompt and
    createDocument are the oracle `Env`. */
module OutlineFlat {
  import opened Wrappers
  import opened Strs
  import opened Paths
  import opened Dom
  import opened JsonValues
  import opened OutlineAttachment
  import opened Seqs

  /** What convert.ConvertHTMLToMarkdown returns for a page. */
  datatype Converted = Converted(title: string, markdown: string)

  datatype Env = Env(
    verify: bool,
    srv: Server,                                          // the attachment services
    mkdirOk: string -> bool,                              // os.MkdirAll of the output directory
    readDir: string -> Option<seq<string>>,               // os.ReadDir: entry names, in its order
    readOk: string -> bool,                               // os.ReadFile of an HTML file
    parse: string -> Option<seq<Element>>,                // goquery's parse of that file's HTML
    htmlOk: seq<Element> -> bool,                         // doc.Html() of the page after the attachment pass
    convert: seq<Element> -> Option<Converted>,           // the converter, on the rewritten page
    approve: string -> bool,                              // the answer "y" to the prompt about a file
    create: (string, string) -> Option<map<string, Json>>,  // createDocument(title, markdown)
    writeOk: string -> bool)                              // os.WriteFile of the Markdown copy

  /** The steps of processAndUploadFile that act on the outside world. */
  datatype Effect = ReadFile | UploadAttachments | Convert | Prompt | CreateDocument | WriteFile

  datatype Failure = ReadFailed | ParseFailed | RenderFailed | ConvertFailed | CreateFailed | InvalidDocumentId | WriteFailed

  datatype Outcome = Uploaded(id: string) | Declined | Failed(failure: Failure)

  /** What one processAndUploadFile call did, in order, and how it ended. */
  datatype Run = Run(effects: seq<Effect>, outcome: Outcome)

  /** The page after the attachment pass, resolved against the page's
      directory; None when it cannot be read or parsed. */
  function RewrittenPage(env: Env, inputPath: string): Option<seq<Element>> {
    if !env.readOk(inputPath) then None
    else match env.parse(inputPath)
      case None => None
      case Some(es) => Some(Rewritten(es, UploadRewrite(env.srv, Dir(inputPath))))
  }

  /** processAndUploadFile, step by step. */
  function ProcessFile(env: Env, inputPath: string, outputPath: string): Run {
    if !env.readOk(inputPath) then Run([ReadFile], Failed(ReadFailed))
    else if env.parse(inputPath).None? then Run([ReadFile, UploadAttachments], Failed(ParseFailed))
    else
      var page := RewrittenPage(env, inputPath).value;
      if !env.htmlOk(page) then Run([ReadFile, UploadAttachments], Failed(RenderFailed))
      else if env.convert(page).None? then Run([ReadFile, UploadAttachments, Convert], Failed(ConvertFailed))
      else
        var c := env.convert(page).value;
        if env.verify && !env.approve(inputPath) then Run([ReadFile, UploadAttachments, Convert, Prompt], Declined)
        else
          var asked := [ReadFile, UploadAttachments, Convert] + (if env.verify then [Prompt] else []);
          var created := asked + [CreateDocument];
          match env.create(c.title, c.markdown)
          case None => Run(created, Failed(CreateFailed))
          case Some(document) =>
            if !Field(document, "id").JStr? then Run(created, Failed(InvalidDocumentId))
            else if !env.writeOk(outputPath) then Run(created + [WriteFile], Failed(WriteFailed))
            else Run(created + [WriteFile], Uploaded(Field(document, "id").s))
  }

  /** A declined page creates no document and writes no file. */
  lemma DeclinedCreatesNothing(env: Env, inputPath: string, outputPath: string)
    requires ProcessFile(env, inputPath, outputPath).outcome == Declined
    ensures env.verify && !env.approve(inputPath)
    ensures var r := ProcessFile(env, inputPath, outputPath);
      CreateDocument !in r.effects && WriteFile !in r.effects
  {
  }

  /** A page fails to render exactly when it was read and parsed and
      doc.Html() of the rewritten page fails; by then its attachments are
      uploaded, and no document is created or file written. */
  lemma RenderFailureFollowsUpload(env: Env, inputPath: string, outputPath: string)
    ensures var r := ProcessFile(env, inputPath, outputPath);
      r.outcome == Failed(RenderFailed)
      <==> RewrittenPage(env, inputPath).Some? && !env.htmlOk(RewrittenPage(env, inputPath).value)
    ensures var r := ProcessFile(env, inputPath, outputPath);
      r.outcome == Failed(RenderFailed) ==> r.effects == [ReadFile, UploadAttachments]
  {
  }

  /** The page is read, parsed and rendered after its attachments were
      uploaded, converted and approved, and the server creates it and
      returns a string id. */
  predicate CreatesDocument(env: Env, inputPath: string) {
    && RewrittenPage(env, inputPath).Some?
    && env.htmlOk(RewrittenPage(env, inputPath).value)
    && env.convert(RewrittenPage(env, inputPath).value).Some?
    && !(env.verify && !env.approve(inputPath))
    && var c := env.convert(RewrittenPage(env, inputPath).value).value;
      env.create(c.title, c.markdown).Some? && Field(env.create(c.title, c.markdown).value, "id").JStr?
  }

  /** A created document's upload runs every step in order: read, upload
      the attachments, convert, ask when verifying, create, write. */
  lemma CreatedDocumentEffects(env: Env, inputPath: string, outputPath: string)
    requires CreatesDocument(env, inputPath)
    ensures ProcessFile(env, inputPath, outputPath).effects
      == [ReadFile, UploadAttachments, Convert] + (if env.verify then [Prompt] else []) + [CreateDocument, WriteFile]
  {
  }

  /** No output file is written unless the document was created with a
      string id. */
  lemma NoWriteWithoutCreate(env: Env, inputPath: string, outputPath: string)
    requires !CreatesDocument(env, inputPath)
    ensures WriteFile !in ProcessFile(env, inputPath, outputPath).effects
  {
    var r := ProcessFile(env, inputPath, outputPath);
    if !env.readOk(inputPath) {
      assert r == Run([ReadFile], Failed(ReadFailed));
    } else if env.parse(inputPath).None? {
      assert r == Run([ReadFile, UploadAttachments], Failed(ParseFailed));
    } else if !env.htmlOk(RewrittenPage(env, inputPath).value) {
      assert r == Run([ReadFile, UploadAttachments], Failed(RenderFailed));
    } else if env.convert(RewrittenPage(env, inputPath).value).None? {
      assert r == Run([ReadFile, UploadAttachments, Convert], Failed(ConvertFailed));
    } else if env.verify && !env.approve(inputPath) {
      assert r == Run([ReadFile, UploadAttachments, Convert, Prompt], Declined);
    } else {
      var created := [ReadFile, UploadAttachments, Convert] + (if env.verify then [Prompt] else []) + [CreateDocument];
      var c := env.convert(RewrittenPage(env, inputPath).value).value;
      if env.create(c.title, c.markdown).None? {
        assert r == Run(created, Failed(CreateFailed));
      } else {
        assert r == Run(created, Failed(InvalidDocumentId));
      }
      assert WriteFile !in created;
    }
  }

  /** The output file is written exactly when the document was created with
      a string id. */
  lemma WriteFollowsCreate(env: Env, inputPath: string, outputPath: string)
    ensures WriteFile in ProcessFile(env, inputPath, outputPath).effects <==> CreatesDocument(env, inputPath)
  {
    if CreatesDocument(env, inputPath) {
      CreatedDocumentEffects(env, inputPath, outputPath);
    } else {
      NoWriteWithoutCreate(env, inputPath, outputPath);
    }
  }

  /** The id of an uploaded page is the string id createDocument returned
      for the converter's title and Markdown. */
  lemma UploadedIdIsDocumentId(env: Env, inputPath: string, outputPath: string)
    requires ProcessFile(env, inputPath, outputPath).outcome.Uploaded?
    ensures RewrittenPage(env, inputPath).Some? && env.htmlOk(RewrittenPage(env, inputPath).value)
    ensures var c := env.convert(RewrittenPage(env, inputPath).value).value;
      var id := ProcessFile(env, inputPath, outputPath).outcome.id;
      env.create(c.title, c.markdown).Some? && Field(env.create(c.title, c.markdown).value, "id") == JStr(id)
      && env.writeOk(outputPath)
  {
  }

  /** processAndUploadFile, with the page held in a document the attachment
      pass rewrites in place. */
  method ProcessAndUploadFile(env: Env, inputPath: string, outputPath: string) returns (run: Run)
    ensures run == ProcessFile(env, inputPath, outputPath)
  {
    var effects := [ReadFile];
    if !env.readOk(inputPath) {
      return Run(effects, Failed(ReadFailed));
    }
    effects := effects + [UploadAttachments];
    var parsed := env.parse(inputPath);
    if parsed.None? {
      return Run(effects, Failed(ParseFailed));
    }
    var doc := new Document(parsed.value);
    UploadAndReplaceAttachments(doc, env.srv, Dir(inputPath));
    assert doc.elements == RewrittenPage(env, inputPath).value;
    if !env.htmlOk(doc.elements) {
      return Run(effects, Failed(RenderFailed));
    }
    effects := effects + [Convert];
    assert effects == [ReadFile, UploadAttachments, Convert];
    var converted := env.convert(doc.elements);
    if converted.None? {
      return Run(effects, Failed(ConvertFailed));
    }
    var title := converted.value.title;
    var markdown := converted.value.markdown;
    if env.verify {
      effects := effects + [Prompt];
      if !env.approve(inputPath) {
        return Run(effects, Declined);
      }
    }
    assert effects == [ReadFile, UploadAttachments, Convert] + (if env.verify then [Prompt] else []);
    effects := effects + [CreateDocument];
    var document := env.create(title, markdown);
    if document.None? {
      return Run(effects, Failed(CreateFailed));
    }
    var id := Field(document.value, "id");
    if !id.JStr? {
      return Run(effects, Failed(InvalidDocumentId));
    }
    effects := effects + [WriteFile];
    if !env.writeOk(outputPath) {
      return Run(effects, Failed(WriteFailed));
    }
    run := Run(effects, Uploaded(id.s));
  }

  // ---------------------------------------------------------------------
  // PrepareAndProcess

  /** One directory entry taken by the loop: its name, the paths built from
      it, and what processing it did. */
  datatype Handled = Handled(name: string, input: string, output: string, run: Run)

  predicate IsHtmlName(name: string) {
    Ext(name) == ".html"
  }

  function OutputName(name: string): string {
    TrimSuffix(name, ".html") + ".md"
  }

  function Handle(env: Env, inputPath: string, outputPath: string, name: string): Handled {
    var input := Join(inputPath, name);
    var output := Join(outputPath, OutputName(name));
    Handled(name, input, output, ProcessFile(env, input, output))
  }

  /** The entries the loop of PrepareAndProcess handled after `names[..k]`. */
  function FlatScan(env: Env, inputPath: string, outputPath: string, names: seq<string>, k: nat): seq<Handled>
    requires k <= |names|
  {
    if k == 0 then []
    else
      FlatScan(env, inputPath, outputPath, names, k - 1)
      + (if IsHtmlName(names[k - 1]) then [Handle(env, inputPath, outputPath, names[k - 1])] else [])
  }

  /** The entries whose extension is exactly ".html", in directory order. */
  function HtmlNames(names: seq<string>): (r: seq<string>)
    ensures forall n :: n in r ==> n in names && IsHtmlName(n)
    decreases |names|
  {
    if names == [] then []
    else
      var r := HtmlNames(names[..|names| - 1]) + (if IsHtmlName(names[|names| - 1]) then [names[|names| - 1]] else []);
      assert forall n :: n in names[..|names| - 1] ==> n in names;
      r
  }

  /** HtmlNames keeps what the generic filter by IsHtmlName keeps. */
  lemma {:induction false} HtmlNamesIsFilter(names: seq<string>)
    ensures HtmlNames(names) == Filter(names, IsHtmlName)
    decreases |names|
  {
    if names != [] {
      HtmlNamesIsFilter(names[..|names| - 1]);
    }
  }

  /** The ".html" entries among the first `k` are those at the positions
      whose name has that extension, in directory order. */
  lemma {:induction false} HtmlNamesInOrder(names: seq<string>, k: nat)
    requires k <= |names|
    ensures var pos := Positions(names, IsHtmlName, k);
      |HtmlNames(names[..k])| == |pos|
      && forall i :: 0 <= i < |pos| ==> pos[i] < k && HtmlNames(names[..k])[i] == names[pos[i]]
  {
    HtmlNamesIsFilter(names[..k]);
    FilterInOrder(names, IsHtmlName, k);
  }

  /** No ".html" entry of the directory is lost. */
  lemma HtmlNamesComplete(names: seq<string>)
    ensures forall n :: n in names && IsHtmlName(n) ==> n in HtmlNames(names)
  {
    HtmlNamesInOrder(names, |names|);
    PositionsAreKeptInOrder(names, IsHtmlName, |names|);
    assert names[..|names|] == names;
    forall n | n in names && IsHtmlName(n)
      ensures n in HtmlNames(names)
    {
      var j :| 0 <= j < |names| && names[j] == n;
      var pos := Positions(names, IsHtmlName, |names|);
      assert j in pos;
      var i :| 0 <= i < |pos| && pos[i] == j;
      assert HtmlNames(names)[i] == n;
    }
  }

  /** The loop handles exactly the ".html" entries, in directory order,
      each with its own input and output path; a failing entry does not
      stop the later ones. */
  lemma {:induction false} FlatScanHandlesHtmlNames(env: Env, inputPath: string, outputPath: string, names: seq<string>)
    ensures var log := FlatScan(env, inputPath, outputPath, names, |names|);
      |log| == |HtmlNames(names)|
      && forall i :: 0 <= i < |log| ==> log[i] == Handle(env, inputPath, outputPath, HtmlNames(names)[i])
    decreases |names|
  {
    if names != [] {
      var front := names[..|names| - 1];
      FlatScanHandlesHtmlNames(env, inputPath, outputPath, front);
      FlatScanPrefix(env, inputPath, outputPath, names, front, |names| - 1);
    }
  }

  /** The scan of the first `k` entries depends on those entries only. */
  lemma {:induction false} FlatScanPrefix(env: Env, inputPath: string, outputPath: string, names: seq<string>, names': seq<string>, k: nat)
    requires k <= |names| && k <= |names'| && names[..k] == names'[..k]
    ensures FlatScan(env, inputPath, outputPath, names, k) == FlatScan(env, inputPath, outputPath, names', k)
  {
    if k > 0 {
      assert names[k - 1] == names[..k][k - 1] == names'[k - 1];
      assert names[..k - 1] == names[..k][..k - 1];
      assert names'[..k - 1] == names'[..k][..k - 1];
      FlatScanPrefix(env, inputPath, outputPath, names, names', k - 1);
    }
  }

  /** "x.html" is copied to "x.md" in the output directory. */
  lemma OutputOfHtmlEntry(outputPath: string, x: string)
    ensures Join(outputPath, OutputName(x + ".html")) == Join(outputPath, x + ".md")
  {
    assert HasSuffix(x + ".html", ".html");
    assert TrimSuffix(x + ".html", ".html") + ".html" == x + ".html";
  }

  /** The extension test is case-sensitive: an upper-case ".HTML" entry is
      not uploaded (unlike createAttachment, which lower-cases). */
  lemma UpperCaseEntryIsIgnored(env: Env, inputPath: string, outputPath: string)
    ensures FlatScan(env, inputPath, outputPath, ["A.HTML"], 1) == []
  {
    var p := "A.HTML";
    assert ExtScan(p, 2) == ".HTML";
    assert ExtScan(p, 3) == ExtScan(p, 2);
    assert ExtScan(p, 4) == ExtScan(p, 3);
    assert ExtScan(p, 5) == ExtScan(p, 4);
    assert ExtScan(p, 6) == ExtScan(p, 5);
  }

  /** An entry's attachments are looked up next to the entry, in the
      export directory itself. */
  lemma AttachmentsResolveInInputDir(inputPath: string, name: string)
    requires name != "" && '/' !in name
    requires inputPath != "" && inputPath[|inputPath| - 1] != '/'
    ensures Dir(Join(inputPath, name)) == inputPath
  {
    DirOfJoin(inputPath, name);
  }

  datatype SetupFailure = OutputDirFailed | ReadDirFailed

  /** PrepareAndProcess: setup errors are returned; afterwards every
      ".html" entry is processed and their errors are only logged. */
  method PrepareAndProcess(env: Env, inputPath: string, outputPath: string)
    returns (err: Option<SetupFailure>, handled: seq<Handled>)
    ensures err == (if !env.mkdirOk(outputPath) then Some(OutputDirFailed)
                    else if env.readDir(inputPath).None? then Some(ReadDirFailed) else None)
    ensures err.Some? ==> handled == []
    ensures err.None? ==>
      handled == FlatScan(env, inputPath, outputPath, env.readDir(inputPath).value, |env.readDir(inputPath).value|)
  {
    handled := [];
    if !env.mkdirOk(outputPath) {
      return Some(OutputDirFailed), handled;
    }
    var files := env.readDir(inputPath);
    if files.None? {
      return Some(ReadDirFailed), handled;
    }
    var names := files.value;
    for i := 0 to |names|
      invariant handled == FlatScan(env, inputPath, outputPath, names, i)
    {
      var name := names[i];
      if Ext(name) == ".html" {
        var input := Join(inputPath, name);
        var output := Join(outputPath, TrimSuffix(name, ".html") + ".md");
        var run := ProcessAndUploadFile(env, input, output);
        handled := handled + [Handled(name, input, output, run)];
      }
    }
    err := None;
  }
}

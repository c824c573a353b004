/** internal/markdown/markdown.go: the local Markdown export. The page tree is
    walked in pre-order; every page gets a directory named after its
    sanitised title and a Markdown file inside it, and its attachments are
    copied next to it. File-system effects, the HTML parser and renderer,
    the converter and the interactive prompt are the oracle `Fs`. */
module MarkdownExport {
  import opened Wrappers
  import opened Strs
  import opened Paths
  import opened Utils
  import opened Hierarchy
  import opened Dom

  // ---------------------------------------------------------------------
  // sanitizeFilename

  /** The characters a title may not bring into a directory name, in the
      order sanitizeFilename replaces them. */
  const Invalid: seq<char> := ['/', '\\', ':', '*', '?', '"', '<', '>', '|']

  predicate IsInvalid(c: char) {
    c == '/' || c == '\\' || c == ':' || c == '*' || c == '?' || c == '"' || c == '<' || c == '>' || c == '|'
  }

  predicate IsDotOrSpace(c: char) {
    c == ' ' || c == '.'
  }

  /** The title after the first `k` ReplaceAll calls of the loop. */
  function ReplaceInvalid(s: string, k: nat): (r: string)
    requires k <= |Invalid|
    ensures |r| == |s|
    ensures forall i :: 0 <= i < |s| ==> r[i] == (if s[i] in Invalid[..k] then '_' else s[i])
    decreases k
  {
    if k == 0 then s
    else
      assert Invalid[..k] == Invalid[..k - 1] + [Invalid[k - 1]];
      ReplaceChar(ReplaceInvalid(s, k - 1), Invalid[k - 1], "_")
  }

  /** Every invalid character replaced by `_`, one position at a time. */
  function ReplaceInvalidChars(s: string): (r: string)
    ensures |r| == |s|
    ensures forall x :: x in r ==> !IsInvalid(x)
  {
    if s == [] then [] else [if IsInvalid(s[0]) then '_' else s[0]] + ReplaceInvalidChars(s[1..])
  }

  lemma {:induction false} ReplaceInvalidCharsAt(s: string, i: nat)
    requires i < |s|
    ensures ReplaceInvalidChars(s)[i] == if IsInvalid(s[i]) then '_' else s[i]
    decreases |s|
  {
    if i > 0 {
      ReplaceInvalidCharsAt(s[1..], i - 1);
    }
  }

  /** The nine ReplaceAll calls replace exactly the invalid characters. */
  lemma ReplaceInvalidIsPointwise(s: string)
    ensures ReplaceInvalid(s, |Invalid|) == ReplaceInvalidChars(s)
  {
    forall i | 0 <= i < |s| ensures ReplaceInvalid(s, |Invalid|)[i] == ReplaceInvalidChars(s)[i] {
      ReplaceInvalidAt(s, |Invalid|, i);
      ReplaceInvalidCharsAt(s, i);
    }
  }

  /** After all the calls, a position holds `_` exactly where it held an
      invalid character. */
  lemma ReplaceInvalidAt(s: string, k: nat, i: nat)
    requires k == |Invalid| && i < |s|
    ensures ReplaceInvalid(s, k)[i] == if IsInvalid(s[i]) then '_' else s[i]
  {
    assert Invalid[..k] == Invalid;
  }

  lemma {:induction false} ReplaceInvalidCharsKeepsValid(s: string)
    requires forall x :: x in s ==> !IsInvalid(x)
    ensures ReplaceInvalidChars(s) == s
    decreases |s|
  {
    if s != [] {
      assert s[0] in s;
      assert forall x :: x in s[1..] ==> x in s;
      ReplaceInvalidCharsKeepsValid(s[1..]);
    }
  }

  /** A name sanitizeFilename leaves as it is. */
  predicate IsCleanName(s: string) {
    s != "" && (forall x :: x in s ==> !IsInvalid(x)) && !IsDotOrSpace(s[0]) && !IsDotOrSpace(s[|s| - 1])
  }

  /** What sanitizeFilename returns for a title. */
  function Sanitized(filename: string): (r: string)
    ensures IsCleanName(r)
    ensures '/' !in r
  {
    var replaced := ReplaceInvalidChars(filename);
    var trimmed := Trim(replaced, IsDotOrSpace);
    assert forall x :: x in trimmed ==> !IsInvalid(x) by {
      assert forall x :: x in trimmed ==> x in replaced;
    }
    if trimmed == "" then UntitledIsClean(); "untitled" else trimmed
  }

  /** The fallback name is itself a clean name. */
  lemma UntitledIsClean()
    ensures IsCleanName("untitled") && '/' !in "untitled"
  {
    forall x | x in "untitled" ensures !IsInvalid(x) {
      assert x in {'u', 'n', 't', 'i', 'l', 'e', 'd'};
    }
  }

  method SanitizeFilename(filename: string) returns (result: string)
    ensures result == Sanitized(filename)
  {
    result := filename;
    for k := 0 to |Invalid|
      invariant result == ReplaceInvalid(filename, k)
    {
      result := ReplaceChar(result, Invalid[k], "_");
    }
    ReplaceInvalidIsPointwise(filename);
    result := Trim(result, IsDotOrSpace);
    if result == "" {
      result := "untitled";
    }
  }

  /** A title that already is a clean name is kept as it is. */
  lemma CleanNameIsKept(s: string)
    requires IsCleanName(s)
    ensures Sanitized(s) == s
  {
    ReplaceInvalidCharsKeepsValid(s);
  }

  /** Sanitising twice gives the same name as sanitising once. */
  lemma SanitizeIsIdempotent(s: string)
    ensures Sanitized(Sanitized(s)) == Sanitized(s)
  {
    CleanNameIsKept(Sanitized(s));
  }

  // ---------------------------------------------------------------------
  // The effects a page export depends on

  datatype Fs = Fs(
    mkdirOk: string -> bool,            // os.MkdirAll of a directory
    readOk: string -> bool,             // os.ReadFile of an HTML file
    parse: string -> Option<seq<Element>>,  // goquery's parse of that file's HTML
    htmlOk: seq<Element> -> bool,       // doc.Html() of the page after the copy pass
    convertOk: seq<Element> -> bool,    // the HTML-to-Markdown conversion of that page
    approve: string -> bool,            // the answer "y" to the prompt about that file
    writeOk: string -> bool,            // os.WriteFile of an output file
    found: string -> bool,              // os.Stat of an attachment
    copyOk: (string, string) -> bool)   // copyFile from a source to a destination

  // ---------------------------------------------------------------------
  // processAndCopyAttachments

  /** processElement for one reference that points into attachments/: the
      new value of the attribute, or None when it is kept. */
  function CopyTarget(sourcePath: string, outputDir: string, fs: Fs, src: string): (r: Option<string>)
    ensures r.Some? <==>
      var clean := CleanPath(src);
      var dest := Join(Join(outputDir, "attachments"), Base(clean));
      fs.found(Join(sourcePath, clean)) && fs.mkdirOk(Join(outputDir, "attachments"))
        && fs.copyOk(Join(sourcePath, clean), dest)
    ensures r.Some? ==> r.value == AttachmentsPrefix + Base(CleanPath(src))
  {
    var clean := CleanPath(src);
    var srcPath := Join(sourcePath, clean);
    var attachmentsDir := Join(outputDir, "attachments");
    if !fs.found(srcPath) then None
    else if !fs.mkdirOk(attachmentsDir) then None
    else if !fs.copyOk(srcPath, Join(attachmentsDir, Base(clean))) then None
    else Some(AttachmentsPrefix + Base(clean))
  }

  function CopyRewrite(sourcePath: string, outputDir: string, fs: Fs): string -> Option<string> {
    src => CopyTarget(sourcePath, outputDir, fs, src)
  }

  /** A rewritten reference, read relative to the page's output directory,
      names exactly the file the attachment was copied to. */
  lemma RewrittenReferenceIsCopy(sourcePath: string, outputDir: string, fs: Fs, src: string)
    requires CopyTarget(sourcePath, outputDir, fs, src).Some?
    ensures var clean := CleanPath(src);
      var dest := Join(Join(outputDir, "attachments"), Base(clean));
      Join(outputDir, CopyTarget(sourcePath, outputDir, fs, src).value) == dest
      && fs.copyOk(Join(sourcePath, clean), dest)
  {
    JoinAttachments(outputDir, Base(CleanPath(src)));
  }

  lemma JoinAttachments(dir: string, name: string)
    requires name != ""
    ensures Join(dir, AttachmentsPrefix + name) == Join(Join(dir, "attachments"), name)
  {
    assert AttachmentsPrefix == "attachments" + "/";
    if dir != "" {
      assert dir + "/" + (AttachmentsPrefix + name) == dir + "/" + "attachments" + "/" + name;
    }
  }

  /** processAndCopyAttachments on an already parsed page. */
  method CopyAttachments(doc: Document, sourcePath: string, outputDir: string, fs: Fs)
    modifies doc
    ensures doc.elements == Rewritten(old(doc.elements), CopyRewrite(sourcePath, outputDir, fs))
  {
    RewriteAttachments(doc, CopyRewrite(sourcePath, outputDir, fs));
  }

  /** The copy pass keeps every element that is not an emoticon, in order;
      only a reference into attachments/ whose file was found and copied
      changes, and it then names the copy. */
  lemma CopyPassRule(es: seq<Element>, sourcePath: string, outputDir: string, fs: Fs, i: nat)
    requires i < |Kept(es)|
    ensures |Rewritten(es, CopyRewrite(sourcePath, outputDir, fs))| == |Kept(es)|
    ensures var rw := CopyRewrite(sourcePath, outputDir, fs);
      var e := Kept(es)[i];
      var attr := if e.tag == "img" then "src" else "href";
      var r := Rewritten(es, rw)[i];
      (if (e.tag == "img" || e.tag == "a") && IsAttachmentRef(e, attr)
            && CopyTarget(sourcePath, outputDir, fs, e.attrs[attr]).Some?
          then r == e.(attrs := e.attrs[attr := AttachmentsPrefix + Base(CleanPath(e.attrs[attr]))])
          else r == e)
  {
    RewrittenIsPerElement(es, CopyRewrite(sourcePath, outputDir, fs));
  }

  // ---------------------------------------------------------------------
  // processMarkdownFile

  datatype Step = ReadStep | AttachmentsStep | ConvertStep | WriteStep

  datatype FileResult =
    | Saved(path: string)      // the Markdown file that was written
    | Declined                 // the user answered something other than "y"
    | Failed(step: Step)       // the step whose error is returned

  /** The page after processAndCopyAttachments, which resolves the page's
      references in the directory of its HTML file and copies them under
      the page's output directory; None when the file cannot be parsed. */
  function CopiedPage(inputPath: string, outputDir: string, fs: Fs): Option<seq<Element>> {
    match fs.parse(inputPath)
    case None => None
    case Some(es) => Some(Rewritten(es, CopyRewrite(Dir(inputPath), outputDir, fs)))
  }

  /** processMarkdownFile with the title unused, as in the source. */
  function MarkdownFile(inputPath: string, outputDir: string, verify: bool, fs: Fs): (r: FileResult)
    ensures r.Declined? ==> verify
    ensures r.Saved? ==> (!verify || fs.approve(inputPath))
    ensures r.Saved? ==> r.path == Join(outputDir, Base(outputDir) + ".md") && fs.writeOk(r.path)
    ensures !r.Failed? <==>
      (fs.readOk(inputPath) && CopiedPage(inputPath, outputDir, fs).Some?
       && fs.htmlOk(CopiedPage(inputPath, outputDir, fs).value)
       && fs.convertOk(CopiedPage(inputPath, outputDir, fs).value)
       && (r.Declined? || fs.writeOk(Join(outputDir, Base(outputDir) + ".md"))))
    ensures r == Failed(AttachmentsStep) <==>
      fs.readOk(inputPath)
      && (CopiedPage(inputPath, outputDir, fs).None? || !fs.htmlOk(CopiedPage(inputPath, outputDir, fs).value))
    ensures !r.Failed? ==>
      fs.parse(inputPath).Some?
      && fs.convertOk(Rewritten(fs.parse(inputPath).value, CopyRewrite(Dir(inputPath), outputDir, fs)))
  {
    if !fs.readOk(inputPath) then Failed(ReadStep)
    else match CopiedPage(inputPath, outputDir, fs)
      case None => Failed(AttachmentsStep)
      case Some(page) =>
        if !fs.htmlOk(page) then Failed(AttachmentsStep)
        else if !fs.convertOk(page) then Failed(ConvertStep)
        else if verify && !fs.approve(inputPath) then Declined
        else
          var outputPath := Join(outputDir, Base(outputDir) + ".md");
          if !fs.writeOk(outputPath) then Failed(WriteStep) else Saved(outputPath)
  }

  /** The page a file is converted from is its parsed page after the copy
      pass: every element but the emoticon images, in order, and a
      reference into attachments/ that was found and copied now names
      attachments/<base>, for a file copied from the directory of the HTML
      file into the page's own attachments/ directory. */
  lemma ConvertedPageHasCopies(inputPath: string, outputDir: string, fs: Fs, i: nat)
    requires fs.parse(inputPath).Some? && i < |Kept(fs.parse(inputPath).value)|
    ensures var es := fs.parse(inputPath).value;
      var page := CopiedPage(inputPath, outputDir, fs).value;
      var e := Kept(es)[i];
      var attr := if e.tag == "img" then "src" else "href";
      |page| == |Kept(es)|
      && if (e.tag == "img" || e.tag == "a") && IsAttachmentRef(e, attr)
            && CopyTarget(Dir(inputPath), outputDir, fs, e.attrs[attr]).Some?
         then
           var clean := CleanPath(e.attrs[attr]);
           page[i] == e.(attrs := e.attrs[attr := AttachmentsPrefix + Base(clean)])
           && fs.copyOk(Join(Dir(inputPath), clean), Join(Join(outputDir, "attachments"), Base(clean)))
         else page[i] == e
  {
    var es := fs.parse(inputPath).value;
    CopyPassRule(es, Dir(inputPath), outputDir, fs, i);
  }

  /** The Markdown file of a page is named after the page's directory. */
  lemma SavedFileIsNamedAfterDirectory(inputPath: string, outputDir: string, verify: bool, fs: Fs)
    requires MarkdownFile(inputPath, outputDir, verify, fs).Saved?
    requires Base(outputDir) != "/"
    ensures Base(MarkdownFile(inputPath, outputDir, verify, fs).path) == Base(outputDir) + ".md"
  {
    BaseOfJoin(outputDir, Base(outputDir) + ".md");
  }

  // ---------------------------------------------------------------------
  // processMarkdownPages

  datatype Config = Config(inputPath: string, outputPath: string, verify: bool, fs: Fs)

  datatype VisitResult = DirFailed | File(result: FileResult)

  /** One page taken out of the walk: the page, its directory relative to
      the output root, and what became of it. */
  datatype Visit = Visit(page: Page, pagePath: string, result: VisitResult)

  /** The `processed` map (as the set of its keys) and the visits so far. */
  datatype State = State(processed: set<string>, log: seq<Visit>)

  predicate Failing(v: VisitResult) {
    v.DirFailed? || v.result.Failed?
  }

  /** The visit a page produces for itself when its URL is new: its
      directory is built from the sanitised title under `currentPath`. */
  function OwnVisit(c: Config, p: Page, currentPath: string): Visit {
    var pagePath := Join(currentPath, Sanitized(p.title));
    var fullOutputPath := Join(c.outputPath, pagePath);
    Visit(p, pagePath,
      if !c.fs.mkdirOk(fullOutputPath) then DirFailed
      else File(MarkdownFile(Join(c.inputPath, p.url), fullOutputPath, c.verify, c.fs)))
  }

  /** One iteration of the loop of processMarkdownPages, on page `p`: a URL
      already processed is skipped; otherwise it is marked first, and the
      children are walked only when neither the directory nor the file failed. */
  function MdVisit(c: Config, p: Page, currentPath: string, st: State): State
    decreases p, 1
  {
    if p.url in st.processed then st
    else
      var v := OwnVisit(c, p, currentPath);
      var st' := State(st.processed + {p.url}, st.log + [v]);
      if Failing(v.result) || |p.children| == 0 then st'
      else MdScan(c, p.children, |p.children|, v.pagePath, st')
  }

  /** The state after the loop of processMarkdownPages went over `pages[..k]`. */
  function MdScan(c: Config, pages: seq<Page>, k: nat, currentPath: string, st: State): State
    requires k <= |pages|
    decreases pages, 0, k
  {
    if k == 0 then st else MdVisit(c, pages[k - 1], currentPath, MdScan(c, pages, k - 1, currentPath, st))
  }

  /** The URLs of a list of visits. */
  function Urls(vs: seq<Visit>): set<string>
    decreases |vs|
  {
    if vs == [] then {} else Urls(vs[..|vs| - 1]) + {vs[|vs| - 1].page.url}
  }

  lemma {:induction false} UrlsConcat(a: seq<Visit>, b: seq<Visit>)
    ensures Urls(a + b) == Urls(a) + Urls(b)
    decreases |b|
  {
    if b == [] {
      assert a + b == a;
    } else {
      assert (a + b)[..|a + b| - 1] == a + b[..|b| - 1];
      UrlsConcat(a, b[..|b| - 1]);
    }
  }

  lemma {:induction false} UrlsHas(vs: seq<Visit>, i: nat)
    requires i < |vs|
    ensures vs[i].page.url in Urls(vs)
    decreases |vs|
  {
    if i < |vs| - 1 {
      assert vs[..|vs| - 1][i] == vs[i];
      UrlsHas(vs[..|vs| - 1], i);
    }
  }

  /** Each visit is of a URL neither in `done` nor visited before it. */
  predicate FreshVisits(done: set<string>, vs: seq<Visit>)
    decreases |vs|
  {
    vs == [] || (FreshVisits(done, vs[..|vs| - 1]) && vs[|vs| - 1].page.url !in done + Urls(vs[..|vs| - 1]))
  }

  /** Fresh visits are of pairwise different URLs, none of them in `done`. */
  lemma {:induction false} FreshVisitsAreDistinct(done: set<string>, vs: seq<Visit>)
    requires FreshVisits(done, vs)
    ensures forall i :: 0 <= i < |vs| ==> vs[i].page.url !in done
    ensures forall i, j :: 0 <= i < j < |vs| ==> vs[i].page.url != vs[j].page.url
    decreases |vs|
  {
    if vs != [] {
      var front := vs[..|vs| - 1];
      FreshVisitsAreDistinct(done, front);
      forall i | 0 <= i < |vs| - 1 ensures vs[i].page.url != vs[|vs| - 1].page.url {
        assert front[i] == vs[i];
        UrlsHas(front, i);
      }
      forall i | 0 <= i < |vs| - 1 ensures vs[i].page.url !in done {
        assert front[i] == vs[i];
      }
    }
  }

  /** The bookkeeping of a walk from `st` to `r`: the log was only extended,
      and `processed` grew by exactly the URLs of the new visits, each of
      which was not processed before and is visited once. */
  predicate Marks(st: State, r: State) {
    |st.log| <= |r.log| && r.log[..|st.log|] == st.log
    && r.processed == st.processed + Urls(r.log[|st.log|..])
    && FreshVisits(st.processed, r.log[|st.log|..])
  }

  /** `path` lies below the directory `root` by at least one path element;
      every path lies below the output root "". */
  predicate Inside(path: string, root: string) {
    root == "" || HasPrefix(path, root + "/")
  }

  /** Every visit is of a directory inside `root`. */
  predicate PlacedUnder(root: string, vs: seq<Visit>) {
    forall i :: 0 <= i < |vs| ==> Inside(vs[i].pagePath, root)
  }

  /** The visit is of one of `pages`, in `dir` joined with the name made
      from its title. */
  predicate ListedIn(name: string -> string, dir: string, pages: seq<Page>, v: Visit) {
    v.page in pages && v.pagePath == Join(dir, name(v.page.title))
  }

  /** Visit `i` was made by the walk over the children of visit `j`: `j`
      came earlier and did not fail, and `i` is of one of `j`'s children, in
      `j`'s directory joined with `i`'s sanitised title. */
  ghost predicate NestedIn(name: string -> string, vs: seq<Visit>, i: int, j: int) {
    0 <= j < i < |vs| && !Failing(vs[j].result) && ListedIn(name, vs[j].pagePath, vs[j].page.children, vs[i])
  }

  /** Every visit is of one of `pages`, in `root` joined with the name made
      from its title, or was made inside the directory of an earlier visit;
      the walk makes names with `Sanitized`. */
  ghost predicate Nested(name: string -> string, root: string, pages: seq<Page>, vs: seq<Visit>) {
    forall i :: 0 <= i < |vs| ==> ListedIn(name, root, pages, vs[i]) || exists j :: NestedIn(name, vs, i, j)
  }

  lemma MarksNone(st: State)
    ensures Marks(st, st)
  {
    assert st.log[|st.log|..] == [];
    assert st.log[..|st.log|] == st.log;
  }

  lemma MarksOne(st: State, v: Visit)
    requires v.page.url !in st.processed
    ensures Marks(st, State(st.processed + {v.page.url}, st.log + [v]))
  {
    var log := st.log + [v];
    assert log[|st.log|..] == [v];
    assert log[..|st.log|] == st.log;
    assert [v][..0] == [];
    assert Urls([v]) == {v.page.url} by { assert [v][..0] == []; }
  }

  lemma {:induction false} FreshConcat(done: set<string>, ab: seq<Visit>, bc: seq<Visit>)
    requires FreshVisits(done, ab) && FreshVisits(done + Urls(ab), bc)
    ensures FreshVisits(done, ab + bc)
    decreases |bc|
  {
    if bc == [] {
      assert ab + bc == ab;
    } else {
      var front := bc[..|bc| - 1];
      assert (ab + bc)[..|ab + bc| - 1] == ab + front;
      FreshConcat(done, ab, front);
      UrlsConcat(ab, front);
    }
  }

  lemma MarksTrans(a: State, b: State, c: State)
    requires Marks(a, b) && Marks(b, c)
    ensures Marks(a, c)
  {
    NewVisitsConcat(a, b, c);
    var ab := b.log[|a.log|..];
    var bc := c.log[|b.log|..];
    assert c.log[..|b.log|][..|a.log|] == c.log[..|a.log|];
    UrlsConcat(ab, bc);
    FreshConcat(a.processed, ab, bc);
  }

  /** The log of `b` starts with the log of `a`. */
  predicate Extends(a: State, b: State) {
    |a.log| <= |b.log| && b.log[..|a.log|] == a.log
  }

  /** The new visits of the walk from `a` to `c` are those from `a` to `b`
      followed by those from `b` to `c`. */
  lemma NewVisitsConcat(a: State, b: State, c: State)
    requires Extends(a, b) && Extends(b, c)
    ensures |a.log| <= |c.log|
    ensures c.log[|a.log|..] == b.log[|a.log|..] + c.log[|b.log|..]
  {
    assert c.log == b.log + c.log[|b.log|..];
    assert b.log == a.log + b.log[|a.log|..];
  }

  lemma PlacedUnderConcat(root: string, a: seq<Visit>, b: seq<Visit>)
    requires PlacedUnder(root, a) && PlacedUnder(root, b)
    ensures PlacedUnder(root, a + b)
  {
    forall i | 0 <= i < |a + b|
      ensures Inside((a + b)[i].pagePath, root) {
      if i < |a| { assert (a + b)[i] == a[i]; } else { assert (a + b)[i] == b[i - |a|]; }
    }
  }

  /** What lies inside a directory inside `root` lies inside `root`. */
  lemma PlacedUnderParent(root: string, pagePath: string, vs: seq<Visit>)
    requires Inside(pagePath, root) && pagePath != ""
    requires PlacedUnder(pagePath, vs)
    ensures PlacedUnder(root, vs)
  {
    if root != "" {
      forall i | 0 <= i < |vs| ensures HasPrefix(vs[i].pagePath, root + "/") {
        assert vs[i].pagePath[..|pagePath|][..|root| + 1] == vs[i].pagePath[..|root| + 1];
      }
    }
  }

  lemma NestedConcat(name: string -> string, root: string, pages: seq<Page>, a: seq<Visit>, b: seq<Visit>)
    requires Nested(name, root, pages, a) && Nested(name, root, pages, b)
    ensures Nested(name, root, pages, a + b)
  {
    var ab := a + b;
    forall i | 0 <= i < |ab| && !ListedIn(name, root, pages, ab[i])
      ensures exists j :: NestedIn(name, ab, i, j)
    {
      if i < |a| {
        assert ab[i] == a[i];
        var j :| NestedIn(name, a, i, j);
        assert ab[j] == a[j];
        assert NestedIn(name, ab, i, j);
      } else {
        assert ab[i] == b[i - |a|];
        var j :| NestedIn(name, b, i - |a|, j);
        assert ab[j + |a|] == b[j];
        assert NestedIn(name, ab, i, j + |a|);
      }
    }
  }

  /** The walk over a page's children is nested in the page's own visit. */
  lemma NestedUnder(name: string -> string, root: string, pages: seq<Page>, v: Visit, rest: seq<Visit>)
    requires ListedIn(name, root, pages, v) && !Failing(v.result)
    requires Nested(name, v.pagePath, v.page.children, rest)
    ensures Nested(name, root, pages, [v] + rest)
  {
    var vr := [v] + rest;
    assert vr[0] == v;
    assert ListedIn(name, root, pages, vr[0]);
    forall i | 1 <= i < |vr| && !ListedIn(name, root, pages, vr[i])
      ensures exists j :: NestedIn(name, vr, i, j)
    {
      assert vr[i] == rest[i - 1];
      var k := i - 1;
      assert ListedIn(name, v.pagePath, v.page.children, rest[k]) || exists j :: NestedIn(name, rest, k, j);
      if ListedIn(name, v.pagePath, v.page.children, rest[i - 1]) {
        assert NestedIn(name, vr, i, 0);
      } else {
        var j :| NestedIn(name, rest, i - 1, j);
        assert vr[j + 1] == rest[j];
        assert NestedIn(name, vr, i, j + 1);
      }
    }
  }

  lemma {:induction false} MdVisitMarks(c: Config, p: Page, currentPath: string, st: State)
    ensures Marks(st, MdVisit(c, p, currentPath, st))
    decreases p, 1
  {
    if p.url in st.processed {
      MarksNone(st);
    } else {
      var v := OwnVisit(c, p, currentPath);
      var st' := State(st.processed + {p.url}, st.log + [v]);
      MarksOne(st, v);
      if !(Failing(v.result) || |p.children| == 0) {
        MdScanMarks(c, p.children, |p.children|, v.pagePath, st');
        MarksTrans(st, st', MdScan(c, p.children, |p.children|, v.pagePath, st'));
      }
    }
  }

  lemma {:induction false} MdScanMarks(c: Config, pages: seq<Page>, k: nat, currentPath: string, st: State)
    requires k <= |pages|
    ensures Marks(st, MdScan(c, pages, k, currentPath, st))
    decreases pages, 0, k
  {
    if k == 0 {
      MarksNone(st);
    } else {
      var mid := MdScan(c, pages, k - 1, currentPath, st);
      MdScanMarks(c, pages, k - 1, currentPath, st);
      assert Marks(st, mid);
      MdVisitMarks(c, pages[k - 1], currentPath, mid);
      assert MdScan(c, pages, k, currentPath, st) == MdVisit(c, pages[k - 1], currentPath, mid);
      MarksTrans(st, mid, MdVisit(c, pages[k - 1], currentPath, mid));
    }
  }

  /** One iteration on a new URL logs the page's own visit first, in
      `currentPath` joined with its sanitised title, and every later visit
      of the iteration inside that directory. */
  lemma {:induction false} VisitLogsPageFirst(c: Config, p: Page, currentPath: string, st: State)
    requires p.url !in st.processed
    ensures var r := MdVisit(c, p, currentPath, st);
      |st.log| < |r.log| && r.log[|st.log|].page == p
      && r.log[|st.log|].pagePath == Join(currentPath, Sanitized(p.title))
      && PlacedUnder(r.log[|st.log|].pagePath, r.log[|st.log| + 1..])
    decreases p, 1
  {
    var r := MdVisit(c, p, currentPath, st);
    var v := OwnVisit(c, p, currentPath);
    var st' := State(st.processed + {p.url}, st.log + [v]);
    if Failing(v.result) || |p.children| == 0 {
      PlacesAfterOwnVisit(v, st, st', st');
    } else {
      MdScanPlaces(c, p.children, |p.children|, v.pagePath, st');
      MdScanMarks(c, p.children, |p.children|, v.pagePath, st');
      PlacesAfterOwnVisit(v, st, st', r);
    }
  }

  /** Every visit of one iteration lies inside `currentPath`. */
  lemma {:induction false} MdVisitPlaces(c: Config, p: Page, currentPath: string, st: State)
    ensures var r := MdVisit(c, p, currentPath, st);
      |st.log| <= |r.log| && PlacedUnder(currentPath, r.log[|st.log|..])
    decreases p, 2
  {
    var r := MdVisit(c, p, currentPath, st);
    if p.url in st.processed {
      assert r.log[|st.log|..] == [];
    } else {
      VisitLogsPageFirst(c, p, currentPath, st);
      JoinIsInside(currentPath, Sanitized(p.title));
      PlacedAfterFirst(currentPath, r.log[|st.log|..]);
    }
  }

  /** A visit inside `root` followed by visits inside its directory are
      all inside `root`. */
  lemma PlacedAfterFirst(root: string, vs: seq<Visit>)
    requires |vs| > 0 && Inside(vs[0].pagePath, root) && vs[0].pagePath != ""
    requires PlacedUnder(vs[0].pagePath, vs[1..])
    ensures PlacedUnder(root, vs)
  {
    PlacedUnderParent(root, vs[0].pagePath, vs[1..]);
    assert vs == [vs[0]] + vs[1..];
    PlacedUnderConcat(root, [vs[0]], vs[1..]);
  }

  /** The log after a page's own visit `v` and a walk placed inside `v`'s
      directory holds `v` first and that walk after it. */
  lemma PlacesAfterOwnVisit(v: Visit, st: State, st': State, r: State)
    requires st'.log == st.log + [v]
    requires Extends(st', r) && PlacedUnder(v.pagePath, r.log[|st'.log|..])
    ensures |st.log| < |r.log| && r.log[|st.log|] == v
    ensures PlacedUnder(v.pagePath, r.log[|st.log| + 1..])
  {
    assert r.log == st.log + [v] + r.log[|st'.log|..];
    assert r.log[|st.log| + 1..] == r.log[|st'.log|..];
  }

  /** The loop over `pages[..k]` places every visit inside `currentPath`. */
  lemma {:induction false} MdScanPlaces(c: Config, pages: seq<Page>, k: nat, currentPath: string, st: State)
    requires k <= |pages|
    ensures var r := MdScan(c, pages, k, currentPath, st);
      |st.log| <= |r.log| && PlacedUnder(currentPath, r.log[|st.log|..])
    decreases pages, 0, k
  {
    var r := MdScan(c, pages, k, currentPath, st);
    if k == 0 {
      assert r.log[|st.log|..] == [];
    } else {
      var mid := MdScan(c, pages, k - 1, currentPath, st);
      MdScanPlaces(c, pages, k - 1, currentPath, st);
      MdVisitPlaces(c, pages[k - 1], currentPath, mid);
      assert Extends(st, mid) by {
        MdScanMarks(c, pages, k - 1, currentPath, st);
      }
      assert Extends(mid, r) by {
        MdVisitMarks(c, pages[k - 1], currentPath, mid);
      }
      PlacedThrough(currentPath, st, mid, r);
    }
  }

  /** Two successive walks placed inside `root` make one walk placed inside it. */
  lemma PlacedThrough(root: string, a: State, b: State, c: State)
    requires Extends(a, b) && Extends(b, c)
    requires PlacedUnder(root, b.log[|a.log|..]) && PlacedUnder(root, c.log[|b.log|..])
    ensures |a.log| <= |c.log| && PlacedUnder(root, c.log[|a.log|..])
  {
    NewVisitsConcat(a, b, c);
    PlacedUnderConcat(root, b.log[|a.log|..], c.log[|b.log|..]);
  }

  /** An iteration on page `p` of `pages` nests its visits as `Nested`
      says: its own visit is listed under `currentPath`, and the walk over
      the children hangs under it. */
  lemma {:induction false} MdVisitNests(c: Config, pages: seq<Page>, p: Page, currentPath: string, st: State)
    requires p in pages
    ensures var r := MdVisit(c, p, currentPath, st);
      |st.log| <= |r.log| && Nested(Sanitized, currentPath, pages, r.log[|st.log|..])
    decreases p, 1
  {
    var r := MdVisit(c, p, currentPath, st);
    if p.url in st.processed {
      assert r.log[|st.log|..] == [];
    } else {
      var v := OwnVisit(c, p, currentPath);
      var st' := State(st.processed + {p.url}, st.log + [v]);
      assert ListedIn(Sanitized, currentPath, pages, v);
      if Failing(v.result) || |p.children| == 0 {
        assert st'.log[|st.log|..] == [v];
        assert Nested(Sanitized, currentPath, pages, [v]) by { assert [v][0] == v; }
      } else {
        MdScanNests(c, p.children, |p.children|, v.pagePath, st');
        MdScanMarks(c, p.children, |p.children|, v.pagePath, st');
        NestsAfterOwnVisit(currentPath, pages, v, st, st', r);
      }
    }
  }

  /** A listed page's visit that did not fail, followed by a walk nested
      under its directory and children. */
  lemma NestsAfterOwnVisit(currentPath: string, pages: seq<Page>, v: Visit, st: State, st': State, r: State)
    requires st'.log == st.log + [v] && ListedIn(Sanitized, currentPath, pages, v) && !Failing(v.result)
    requires Extends(st', r) && Nested(Sanitized, v.pagePath, v.page.children, r.log[|st'.log|..])
    ensures |st.log| <= |r.log| && Nested(Sanitized, currentPath, pages, r.log[|st.log|..])
  {
    var rest := r.log[|st'.log|..];
    assert r.log[|st.log|..] == [v] + rest by {
      assert r.log == st.log + [v] + rest;
    }
    NestedUnder(Sanitized, currentPath, pages, v, rest);
  }

  /** The loop over `pages[..k]` nests its visits as `Nested` says. */
  lemma {:induction false} MdScanNests(c: Config, pages: seq<Page>, k: nat, currentPath: string, st: State)
    requires k <= |pages|
    ensures var r := MdScan(c, pages, k, currentPath, st);
      |st.log| <= |r.log| && Nested(Sanitized, currentPath, pages, r.log[|st.log|..])
    decreases pages, 0, k
  {
    var r := MdScan(c, pages, k, currentPath, st);
    if k == 0 {
      assert r.log[|st.log|..] == [];
    } else {
      var mid := MdScan(c, pages, k - 1, currentPath, st);
      MdScanNests(c, pages, k - 1, currentPath, st);
      MdVisitNests(c, pages, pages[k - 1], currentPath, mid);
      assert Extends(st, mid) by {
        MdScanMarks(c, pages, k - 1, currentPath, st);
      }
      assert Extends(mid, r) by {
        MdVisitMarks(c, pages[k - 1], currentPath, mid);
      }
      NestedThrough(currentPath, pages, st, mid, r);
    }
  }

  /** Two successive walks over `pages` nested under `root` make one such walk. */
  lemma NestedThrough(root: string, pages: seq<Page>, a: State, b: State, c: State)
    requires Extends(a, b) && Extends(b, c)
    requires Nested(Sanitized, root, pages, b.log[|a.log|..]) && Nested(Sanitized, root, pages, c.log[|b.log|..])
    ensures |a.log| <= |c.log| && Nested(Sanitized, root, pages, c.log[|a.log|..])
  {
    NewVisitsConcat(a, b, c);
    NestedConcat(Sanitized, root, pages, b.log[|a.log|..], c.log[|b.log|..]);
  }

  /** A path joined with a non-empty element lies inside the first path. */
  lemma JoinIsInside(a: string, b: string)
    requires b != ""
    ensures Inside(Join(a, b), a) && Join(a, b) != ""
  {
  }

  /** A whole walk from an empty `processed` map handles every URL at most
      once, marks exactly the URLs it handled, and gives every page a
      directory inside `currentPath` named after its sanitised title: a
      listed page's directory is `currentPath` joined with that title, and
      any other page's is the directory of the visit whose children walk
      reached it, joined with its title. */
  lemma WalkHandlesEachUrlOnce(c: Config, pages: seq<Page>, currentPath: string)
    ensures var r := MdScan(c, pages, |pages|, currentPath, State({}, []));
      r.processed == Urls(r.log)
      && (forall i, j :: 0 <= i < j < |r.log| ==> r.log[i].page.url != r.log[j].page.url)
      && PlacedUnder(currentPath, r.log)
      && Nested(Sanitized, currentPath, pages, r.log)
  {
    var r := MdScan(c, pages, |pages|, currentPath, State({}, []));
    MdScanMarks(c, pages, |pages|, currentPath, State({}, []));
    MdScanPlaces(c, pages, |pages|, currentPath, State({}, []));
    MdScanNests(c, pages, |pages|, currentPath, State({}, []));
    assert r.log[0..] == r.log;
    FreshVisitsAreDistinct({}, r.log);
  }

  /** A later prefix of the loop extends the log of an earlier one. */
  lemma {:induction false} MdScanExtends(c: Config, pages: seq<Page>, j: nat, k: nat, currentPath: string, st: State)
    requires j <= k <= |pages|
    ensures Extends(MdScan(c, pages, j, currentPath, st), MdScan(c, pages, k, currentPath, st))
    decreases k
  {
    if j < k {
      var mid := MdScan(c, pages, k - 1, currentPath, st);
      MdScanExtends(c, pages, j, k - 1, currentPath, st);
      MdVisitMarks(c, pages[k - 1], currentPath, mid);
      NewVisitsConcat(MdScan(c, pages, j, currentPath, st), mid, MdScan(c, pages, k, currentPath, st));
    } else {
      MarksNone(MdScan(c, pages, j, currentPath, st));
    }
  }

  /** When the first listed page is new, the loop logs it first, in
      `currentPath` joined with its sanitised title. */
  lemma ScanLogsFirstPageFirst(c: Config, pages: seq<Page>, currentPath: string, st: State)
    requires |pages| > 0 && pages[0].url !in st.processed
    ensures var r := MdScan(c, pages, |pages|, currentPath, st);
      |st.log| < |r.log| && r.log[|st.log|].page == pages[0]
      && r.log[|st.log|].pagePath == Join(currentPath, Sanitized(pages[0].title))
  {
    var first := MdScan(c, pages, 1, currentPath, st);
    assert MdScan(c, pages, 0, currentPath, st) == st;
    assert first == MdVisit(c, pages[0], currentPath, st);
    VisitLogsPageFirst(c, pages[0], currentPath, st);
    MdScanExtends(c, pages, 1, |pages|, currentPath, st);
    assert MdScan(c, pages, |pages|, currentPath, st).log[|st.log|] == first.log[|st.log|];
  }

  /** The first child of a new page that did not fail is visited right
      after it, in the page's directory joined with the child's sanitised
      title. */
  lemma FirstChildIsNestedInParent(c: Config, p: Page, currentPath: string, st: State)
    requires p.url !in st.processed && !Failing(OwnVisit(c, p, currentPath).result)
    requires |p.children| > 0 && p.children[0].url !in st.processed + {p.url}
    ensures var r := MdVisit(c, p, currentPath, st);
      |st.log| + 1 < |r.log| && r.log[|st.log| + 1].page == p.children[0]
      && r.log[|st.log| + 1].pagePath == Join(Join(currentPath, Sanitized(p.title)), Sanitized(p.children[0].title))
  {
    var v := OwnVisit(c, p, currentPath);
    var st' := State(st.processed + {p.url}, st.log + [v]);
    assert MdVisit(c, p, currentPath, st) == MdScan(c, p.children, |p.children|, v.pagePath, st');
    ScanLogsFirstPageFirst(c, p.children, v.pagePath, st');
  }

  /** Once a URL is in `processed` it stays there. */
  lemma ProcessedOnlyGrows(c: Config, pages: seq<Page>, k: nat, currentPath: string, st: State)
    requires k <= |pages|
    ensures st.processed <= MdScan(c, pages, k, currentPath, st).processed
  {
    MdScanMarks(c, pages, k, currentPath, st);
  }

  /** Every page of the list is marked once the loop is over, also when an
      earlier sibling failed: a failure never stops the loop. */
  lemma {:induction false} EveryListedPageIsMarked(c: Config, pages: seq<Page>, k: nat, currentPath: string, st: State)
    requires k <= |pages|
    ensures forall i :: 0 <= i < k ==> pages[i].url in MdScan(c, pages, k, currentPath, st).processed
  {
    if k > 0 {
      var mid := MdScan(c, pages, k - 1, currentPath, st);
      EveryListedPageIsMarked(c, pages, k - 1, currentPath, st);
      VisitMarksItsUrl(c, pages[k - 1], currentPath, mid);
      assert MdScan(c, pages, k, currentPath, st) == MdVisit(c, pages[k - 1], currentPath, mid);
    }
  }

  /** After one iteration the page's URL is marked, and so is every URL
      marked before. */
  lemma VisitMarksItsUrl(c: Config, p: Page, currentPath: string, st: State)
    ensures st.processed + {p.url} <= MdVisit(c, p, currentPath, st).processed
  {
    if p.url !in st.processed {
      var v := OwnVisit(c, p, currentPath);
      var st' := State(st.processed + {p.url}, st.log + [v]);
      if !(Failing(v.result) || |p.children| == 0) {
        ProcessedOnlyGrows(c, p.children, |p.children|, v.pagePath, st');
      }
    }
  }

  /** A page whose directory or file fails produces its own visit and
      nothing else: its children are not walked. */
  lemma FailedPageSkipsChildren(c: Config, p: Page, currentPath: string, st: State)
    requires p.url !in st.processed
    requires Failing(OwnVisit(c, p, currentPath).result)
    ensures MdVisit(c, p, currentPath, st) == State(st.processed + {p.url}, st.log + [OwnVisit(c, p, currentPath)])
  {
  }

  /** Declining the verification prompt is not a failure: the children of
      the page are still walked, and so are marked. */
  lemma DeclinedPageKeepsChildren(c: Config, p: Page, currentPath: string, st: State)
    requires p.url !in st.processed
    requires OwnVisit(c, p, currentPath).result == File(Declined)
    ensures forall i :: 0 <= i < |p.children| ==> p.children[i].url in MdVisit(c, p, currentPath, st).processed
  {
    if |p.children| > 0 {
      var v := OwnVisit(c, p, currentPath);
      EveryListedPageIsMarked(c, p.children, |p.children|, v.pagePath, State(st.processed + {p.url}, st.log + [v]));
    }
  }

  class Exporter {
    const config: Config
    var processed: set<string>
    var log: seq<Visit>

    constructor (config: Config)
      ensures this.config == config && processed == {} && log == []
    {
      this.config := config;
      processed := {};
      log := [];
    }

    /** processMarkdownPages: always returns no error. */
    method ProcessMarkdownPages(pages: seq<Page>, currentPath: string) returns (err: Option<string>)
      modifies this
      ensures err == None
      ensures State(processed, log) == MdScan(config, pages, |pages|, currentPath, State(old(processed), old(log)))
      decreases pages
    {
      ghost var st0 := State(processed, log);
      var i := 0;
      while i < |pages|
        invariant 0 <= i <= |pages|
        invariant State(processed, log) == MdScan(config, pages, i, currentPath, st0)
      {
        var page := pages[i];
        if page.url !in processed {
          processed := processed + {page.url};
          var name := SanitizeFilename(page.title);
          var pagePath := Join(currentPath, name);
          var fullOutputPath := Join(config.outputPath, pagePath);
          if !config.fs.mkdirOk(fullOutputPath) {
            log := log + [Visit(page, pagePath, DirFailed)];
          } else {
            var result := MarkdownFile(Join(config.inputPath, page.url), fullOutputPath, config.verify, config.fs);
            log := log + [Visit(page, pagePath, File(result))];
            if !result.Failed? && |page.children| > 0 {
              var _ := ProcessMarkdownPages(page.children, pagePath);
            }
          }
        }
        i := i + 1;
      }
      err := None;
    }

    /** ExportToMarkdown, which starts from an empty processed map; `root` is the
        parsed index.html, None when it does not parse. */
    method ExportToMarkdown(root: Option<Node>) returns (err: Option<string>)
      modifies this
      ensures err.None? <==>
        (config.fs.mkdirOk(config.outputPath) && config.fs.readOk(Join(config.inputPath, "index.html")) && root.Some?)
      ensures err.None? ==> State(processed, log) == MdScan(config, Walk(root.value), |Walk(root.value)|, "", State({}, []))
      ensures err.Some? ==> processed == old(processed) && log == old(log)
    {
      if !config.fs.mkdirOk(config.outputPath) {
        return Some("failed to create output directory");
      }
      if !config.fs.readOk(Join(config.inputPath, "index.html")) {
        return Some("failed to read index.html");
      }
      if root.None? {
        return Some("failed to parse HTML");
      }
      processed, log := {}, [];
      var pages := ProcessHTML(root.value);
      err := ProcessMarkdownPages(pages, "");
    }
  }
}

# flowline core, modelled in Dafny

flowline migrates a Confluence space exported as HTML. It can turn the space
into a local tree of Markdown files, or upload it to an Outline wiki. This
project models the core of that migration and proves properties of the model:

- **Page tree** (`Hierarchy`). The export's `index.html` is read as a tree of
  nested `ul`/`li` lists. A list item with a direct `a` or a direct `ul` child
  becomes a page with a title, a URL and child pages; an item with neither
  yields nothing. The pages of every list are collected in pre-order. Pages
  titled "Home" are dropped from that flat list at every depth, but kept
  among the children of the page above them.
- **Attachment references** (`Utils`, `Dom`). `CleanPath` gives a reference
  its canonical form. The two attachment passes then rewrite a parsed page in
  place: emoticon images are removed, and `src`/`href` values that point into
  `attachments/` are replaced.
- **Markdown export** (`MarkdownExport`). The page tree is walked once,
  de-duplicated by URL. Each page gets a directory named after its sanitised
  title, inside the directory of the page above it, holding a Markdown file
  and copies of its attachments.
- **Outline import, tree form** (`OutlineTree`). Every page of the tree is
  uploaded as a document whose parent is the document of the page above it.
- **Outline import, flat form** (`OutlineFlat`, `OutlineAttachment`). Every
  `.html` file of the export directory is uploaded on its own. Its attachments
  go through the two-step `attachments.create` protocol first, and their
  references are pointed at `files.get` URLs.
- **Rate limiter** (`RateLimit`). A process-wide sliding window of the last ten
  request times; a request waits for the oldest entry of a full window to be
  one minute old.
- **Conversion details** (`Convert`). The page title is taken from the
  `<title>` element. Tables with more than two cells are marked
  `complex-table`. A table is rendered as a Markdown pipe table.

`Strs` and `Paths` model the parts of Go's `strings` and `path/filepath` that
the core relies on, with `/` as the separator. `Seqs` defines the positions
of a sequence that satisfy a predicate, as the reference for the loops that
keep the qualifying items in order: the directory's `.html` entries, the
rows of a table that have cells, and the items of a nested list.

Everything outside the program is a parameter of the operation that uses it:
the file system, the HTTP services, the interactive prompt, the clock and the
HTML-to-Markdown converter. Each is a datatype of total functions: `Fs`,
`Env` and `Server`. Most are keyed by a path or a URL; document creation is
keyed by its title, Markdown and parent id, and the converters and the
serialisation of a page by the page's elements. Being functions, the oracles
answer a repeated call with the same arguments the same way. An operation that
makes several such calls returns a `Run`: the effects it performed, in order,
and how it ended. One `Run` value describes an upload completely.

Where the code and the repository's design description disagree, the model
follows the code:

- In a list item with two anchors, the **last** anchor gives the page.
- **Every** `ul` in the document is scanned for items, including nested ones.
  So a nested page appears once as a child and again in the flat list.
- A list item with a nested list but no anchor yields a placeholder page with
  an empty title and URL. That page is kept, not discarded.
- In the tree import, the children of a **declined** page do not inherit the
  id of the nearest created ancestor. Declining returns the id "", so they
  are created with the parent id "", at the top of the collection.

## Model

| member | source | states |
|---|---|---|
| Hierarchy.Text | internal/confluence/hierarchy.go:75-84 | the text of a node: a text node's own data, otherwise its children's text concatenated in document order; `ExtractText` is proved to compute it |
| Hierarchy.ExtractText | internal/confluence/hierarchy.go:75-84 | the text of a node is its own data for a text node, otherwise its children's text concatenated in document order (`Text`) |
| Hierarchy.HrefIsFirst | internal/confluence/hierarchy.go:65-70 | the URL of an anchor is the value of its first `href` attribute, whatever later `href`s say |
| Hierarchy.HrefAbsent | internal/confluence/hierarchy.go:64-70 | an anchor without an `href` attribute has the empty URL |
| Hierarchy.ExtractPageInfo | internal/confluence/hierarchy.go:63-73 | the page of an anchor carries the first `href` value and the trimmed text of the anchor, and has no children |
| Hierarchy.ProcessLI | internal/confluence/hierarchy.go:39-61 | processLI's result, computed by the child loop, equals the reference `Candidate` of the item |
| Hierarchy.Candidate | internal/confluence/hierarchy.go:39-61 | what processLI returns for an item: the page of its last direct `a` child, with the pages of its direct `ul` children appended, or nil; characterised by `CandidateNoneIff`, `LastAnchorWins` and `PlaceholderWithoutAnchor` |
| Hierarchy.CandidateNoneIff | internal/confluence/hierarchy.go:39-61 | an item yields no page exactly when none of its direct children is an `a` or a `ul` element |
| Hierarchy.LIScanNoneIff | internal/confluence/hierarchy.go:42-58 | after any prefix of the children, there is no page yet exactly when that prefix holds no direct `a` or `ul` |
| Hierarchy.LastAnchorWins | internal/confluence/hierarchy.go:43-44 | the last direct anchor gives the page; only the nested lists after it contribute children, so pages gathered before a later anchor are lost |
| Hierarchy.LIScanAfterAnchor | internal/confluence/hierarchy.go:42-58 | from an anchor on, the page is that anchor's, with the child pages of every later nested list appended in order |
| Hierarchy.PlaceholderWithoutAnchor | internal/confluence/hierarchy.go:45-48 | an item with a nested list but no anchor yields a page with empty title and URL that holds all the nested lists' child pages |
| Hierarchy.LIScanWithoutAnchor | internal/confluence/hierarchy.go:45-56 | without an anchor, the item yields a placeholder exactly when some direct child is a `ul`, and nothing otherwise |
| Hierarchy.ProcessHTML | internal/confluence/hierarchy.go:15-37 | the pages collected from the document, in the pre-order walk, equal the reference `Walk` of the root |
| Hierarchy.WalkInto | internal/confluence/hierarchy.go:18-33 | the recursive walk appends exactly `Walk(n)` to what was collected before |
| Hierarchy.ListPagesOmitOnlyHome | internal/confluence/hierarchy.go:21-28 | a list contributes the pages of its `li` children in order, minus those titled "Home" |
| Hierarchy.TopScanIsChildScanWithoutHome | internal/confluence/hierarchy.go:21-28 | the top-level scan of a list equals the child scan of that list with the "Home" pages removed |
| Hierarchy.ChildScanFromListItems | internal/confluence/hierarchy.go:49-55 | a page is a child page of a nested list exactly when some `li` child of the list yields it, "Home" included |
| Hierarchy.ChildScanInOrder | internal/confluence/hierarchy.go:49-55 | the child pages of a nested list are built from exactly its `li` children that yield a page, one page per such child, in document order |
| Hierarchy.WithoutHomeMembers | internal/confluence/hierarchy.go:24 | a page survives the "Home" filter exactly when it was listed and is not titled "Home" |
| Hierarchy.WithoutHomeConcat | internal/confluence/hierarchy.go:24 | the "Home" filter distributes over concatenation |
| Hierarchy.Walk | internal/confluence/hierarchy.go:15-37 | the pages ProcessHTML collects from a subtree; characterised by `WalkIsPreorderOfLists` and `WalkHasNoHome`, and `ProcessHTML` is proved to compute it |
| Hierarchy.WalkIsPreorderOfLists | internal/confluence/hierarchy.go:18-33 | the walk is the concatenation of the contributions of every `ul` of the document, in pre-order |
| Hierarchy.WalkScanIsPreorderOfLists | internal/confluence/hierarchy.go:30-32 | the same, for the children after a prefix of them |
| Hierarchy.ContributionsAppend | internal/confluence/hierarchy.go:20-32 | the contribution of two runs of lists is the first's followed by the second's |
| Hierarchy.WalkHasNoHome | internal/confluence/hierarchy.go:24 | no page of the flat result is titled "Home", at any depth of the document |
| Hierarchy.WalkScanHasNoHome | internal/confluence/hierarchy.go:24-32 | the same, for each prefix of the children of a node |
| Hierarchy.ItemWithNestedList | internal/confluence/hierarchy.go:39-61 | the item `<li><a/><ul/></li>` yields the anchor's page carrying the nested list's pages as children |
| Hierarchy.SingleItemList | internal/confluence/hierarchy.go:20-32 | a one-item list contributes that item's page, followed by whatever the walk finds inside the item |
| Hierarchy.NestedPagesListedTwice | internal/confluence/hierarchy.go:15-61 | for `<ul><li><a/><ul>…</ul></li></ul>`, the nested pages appear as children of the outer page and again in the flat result |
| Utils.CleanPath | utils/utils.go:9-13 | the canonical reference contains no '?' and no backslash, and is no longer than the input |
| Utils.CollapseSlashes | utils/utils.go:12 | replacing "//" by "/" never lengthens the string, introduces no character, and keeps a string without "//" as it is |
| Utils.CleanPathKeepsCanonical | utils/utils.go:9-13 | a path without '?', backslash or "//" is returned unchanged |
| Utils.CleanPathDropsQuery | utils/utils.go:10 | everything from the first '?' on is dropped from a canonical path |
| Utils.CleanPathDropsVersionQuery | utils/utils.go:10 | "attachments/img.png?version=2" becomes "attachments/img.png" |
| Utils.CleanIsCollapse | utils/utils.go:9-13 | without a query or a backslash, CleanPath only collapses slashes |
| Utils.CleanPathIsSinglePass | utils/utils.go:12 | the collapse is one pass: "a///b" becomes "a//b" while "a//b" becomes "a/b", so CleanPath is not idempotent |
| Utils.CleanPathDoubleSlash | utils/utils.go:12 | "a//b" becomes "a/b" |
| Utils.CleanPathTripleSlash | utils/utils.go:12 | "a///b" becomes "a//b" |
| Utils.BeforeFirstOfJoined | utils/utils.go:10 | the first piece of a split is exactly what precedes the first separator |
| Dom.ProcessRef | internal/markdown/markdown.go:127-152 | only an existing attribute that starts with "attachments/" may change, and only to the value `rewrite` gives it; tag, classes, other attributes and the key set stay the same |
| Dom.KeptMembers | internal/markdown/markdown.go:154-162 | an element survives the img pass exactly when it was present and is not an emoticon image |
| Dom.KeptWithoutEmoticons | internal/markdown/markdown.go:154-162 | a page without emoticon images keeps all its elements |
| Dom.ImgPassIsPerElement | internal/markdown/markdown.go:154-162 | the img pass drops the emoticon images and processes the `src` of every other image on its own, keeping document order |
| Dom.LinkPassIsPerElement | internal/markdown/markdown.go:164-168 | the a pass keeps the length and processes the `href` of each anchor on its own |
| Dom.LinkPass | internal/markdown/markdown.go:164-168 | the a pass removes no element |
| Dom.RewrittenIsPerElement | internal/markdown/markdown.go:154-168 | both passes together keep exactly the non-emoticon elements in order, each rewritten by its own reference attribute |
| Dom.NoEmoticonRemains | internal/markdown/markdown.go:155-157 | no emoticon image is left after the passes, whatever the rewrite does |
| Dom.Document.SetAttr | internal/markdown/markdown.go:150 | setting an attribute changes that attribute of that element and nothing else |
| Dom.Document.Remove | internal/markdown/markdown.go:156 | removing an element drops it and keeps the others in order |
| Dom.ProcessElement | internal/markdown/markdown.go:127-152 | processElement in place replaces element `i` by its processed form and leaves the rest alone |
| Dom.RewriteImage | internal/markdown/markdown.go:154-162 | one image step in place: an emoticon is removed, any other image is processed |
| Dom.RewriteImages | internal/markdown/markdown.go:154-162 | the in-place img loop leaves exactly the reference `ImgPass` of the old elements |
| Dom.RewriteLinks | internal/markdown/markdown.go:164-168 | the in-place a loop leaves exactly the reference `LinkPass` of the old elements |
| Dom.RewriteAttachments | internal/markdown/markdown.go:154-168 | the img pass, then the a pass, in place, leave `Rewritten` of the old elements |
| Dom.ImgPassStep | internal/markdown/markdown.go:154-162 | one loop step of the img pass: the prefix processed so far grows by the step of one element, which removes exactly an emoticon |
| Dom.LinkPassStep | internal/markdown/markdown.go:164-168 | one loop step of the a pass grows the processed prefix by one element |
| MarkdownExport.ReplaceInvalid | internal/markdown/markdown.go:196-201 | after the first `k` ReplaceAll calls, exactly the characters among the first `k` invalid ones are `_`, and the length is kept |
| MarkdownExport.ReplaceInvalidChars | internal/markdown/markdown.go:196-201 | the result has the same length and contains no invalid character |
| MarkdownExport.ReplaceInvalidCharsAt | internal/markdown/markdown.go:199-201 | each position holds `_` when the input had an invalid character there, and the input character otherwise |
| MarkdownExport.ReplaceInvalidIsPointwise | internal/markdown/markdown.go:199-201 | the nine successive ReplaceAll calls equal one character-by-character replacement |
| MarkdownExport.ReplaceInvalidCharsKeepsValid | internal/markdown/markdown.go:199-201 | a title without invalid characters passes the replacement unchanged |
| MarkdownExport.Sanitized | internal/markdown/markdown.go:195-210 | a sanitised name is never empty, holds no invalid character (no '/' in particular) and neither starts nor ends with a space or a dot |
| MarkdownExport.SanitizeFilename | internal/markdown/markdown.go:195-210 | the loop of ReplaceAll calls, the trim and the "untitled" fallback compute `Sanitized` |
| MarkdownExport.CleanNameIsKept | internal/markdown/markdown.go:195-210 | a title that already is a clean name is kept as it is |
| MarkdownExport.SanitizeIsIdempotent | internal/markdown/markdown.go:195-210 | sanitising twice gives the same name as sanitising once |
| MarkdownExport.CopyTarget | internal/markdown/markdown.go:127-152 | a reference is rewritten exactly when the cleaned source exists, the attachments directory is created and the copy succeeds, and it is then `attachments/` followed by the base name |
| MarkdownExport.RewrittenReferenceIsCopy | internal/markdown/markdown.go:125-150 | a rewritten reference, read from the page's output directory, names exactly the file the attachment was copied to |
| MarkdownExport.JoinAttachments | internal/markdown/markdown.go:125-145 | `outputDir` joined with `attachments/name` is the attachments directory joined with `name` |
| MarkdownExport.CopyAttachments | internal/markdown/markdown.go:119-176 | processAndCopyAttachments on a parsed page leaves `Rewritten` of the old elements under the copy rule |
| MarkdownExport.CopyPassRule | internal/markdown/markdown.go:127-168 | each surviving element is unchanged unless it is an img or a with an attachment reference whose copy succeeded, and then only that attribute names the copy |
| MarkdownExport.MarkdownFile | internal/markdown/markdown.go:77-117 | a page fails exactly when reading, parsing or re-serialising in the attachment pass, conversion, or (unless declined) the write fails; it fails in the attachment step exactly when the file was read and the parse or the serialisation failed. The page converted is the parsed page after the copy pass in the directory of the HTML file into the page's output directory. Declining needs `verify`. A saved file was approved when verifying and is `<dir>/<base of dir>.md` |
| MarkdownExport.ConvertedPageHasCopies | internal/markdown/markdown.go:83 | the page of a file keeps its non-emoticon elements in order; a reference into attachments/ that was found and copied now names attachments/<base>, and the file was copied from the directory of the HTML file into `<page dir>/attachments/<base>`; every other element is unchanged |
| MarkdownExport.SavedFileIsNamedAfterDirectory | internal/markdown/markdown.go:108-110 | the Markdown file of a page is named after its directory |
| MarkdownExport.UrlsConcat | internal/markdown/markdown.go:40-75 | the URLs of joined visit lists are the union of their URLs |
| MarkdownExport.UrlsHas | internal/markdown/markdown.go:40-75 | every visit's URL is among the URLs of the list |
| MarkdownExport.FreshVisitsAreDistinct | internal/markdown/markdown.go:42-46 | fresh visits are of pairwise different URLs, none of them processed before |
| MarkdownExport.MarksNone | internal/markdown/markdown.go:42-43 | a walk that visits nothing keeps the bookkeeping |
| MarkdownExport.MarksOne | internal/markdown/markdown.go:46 | marking a new URL and logging its visit keeps the bookkeeping |
| MarkdownExport.FreshConcat | internal/markdown/markdown.go:42-46 | fresh visits followed by visits fresh after them are fresh together |
| MarkdownExport.MarksTrans | internal/markdown/markdown.go:40-75 | two walks one after the other keep the bookkeeping |
| MarkdownExport.NewVisitsConcat | internal/markdown/markdown.go:40-75 | the new visits of two successive walks are the first walk's followed by the second's |
| MarkdownExport.PlacedUnderConcat | internal/markdown/markdown.go:47 | two visit lists inside a directory are inside it together |
| MarkdownExport.PlacedUnderParent | internal/markdown/markdown.go:47-68 | visits inside a directory that itself lies inside `root` lie inside `root`; "inside" means below by whole path elements, so "A" does not contain "AB/x" |
| MarkdownExport.JoinIsInside | internal/markdown/markdown.go:47 | a path joined with a non-empty name lies inside the first path and is not empty |
| MarkdownExport.NestedConcat | internal/markdown/markdown.go:40-75 | two nested visit lists over the same pages and root are nested together |
| MarkdownExport.NestedUnder | internal/markdown/markdown.go:47-68 | a listed visit that did not fail, followed by a walk nested under its directory and its page's children, is nested under the root |
| MarkdownExport.PlacedAfterFirst | internal/markdown/markdown.go:47-68 | a visit inside `root` followed by visits inside its directory lie inside `root` |
| MarkdownExport.PlacesAfterOwnVisit | internal/markdown/markdown.go:46-68 | after a page's own visit and the walk of its children, the log holds the own visit first and the children's visits after it |
| MarkdownExport.PlacedThrough | internal/markdown/markdown.go:41-73 | two successive walks inside `root` are one walk inside `root` |
| MarkdownExport.NestedThrough | internal/markdown/markdown.go:41-73 | two successive nested walks over the same pages are one nested walk |
| MarkdownExport.MdVisit | internal/markdown/markdown.go:40-75 | one iteration of processMarkdownPages: a processed URL is skipped; otherwise it is marked, its directory and file are produced, and its children are walked unless one of those failed; characterised by `MdVisitMarks`, `VisitMarksItsUrl`, `FailedPageSkipsChildren` and `DeclinedPageKeepsChildren` |
| MarkdownExport.MdScan | internal/markdown/markdown.go:40-75 | the state after processMarkdownPages went over a prefix of the pages; characterised by `MdScanMarks`, `MdScanPlaces`, `MdScanNests`, `WalkHandlesEachUrlOnce` and `ProcessedOnlyGrows` |
| MarkdownExport.MdVisitMarks | internal/markdown/markdown.go:41-72 | one iteration marks exactly the URLs it visits, each once and none already processed |
| MarkdownExport.MdScanMarks | internal/markdown/markdown.go:41-73 | the same, for the loop over a prefix of the pages |
| MarkdownExport.VisitLogsPageFirst | internal/markdown/markdown.go:46-68 | an iteration on a new URL logs that page first, in `currentPath` joined with its sanitised title, and every later visit of the iteration lies inside that directory |
| MarkdownExport.MdVisitPlaces | internal/markdown/markdown.go:47-68 | every visit of an iteration lies inside `currentPath` |
| MarkdownExport.MdScanPlaces | internal/markdown/markdown.go:47-68 | the same, for the loop over a prefix of the pages |
| MarkdownExport.MdVisitNests | internal/markdown/markdown.go:46-68 | an iteration on a page of the list logs it in `currentPath` joined with its sanitised title; every other visit it makes is of a child of an earlier visit that did not fail, in that visit's directory joined with the child's sanitised title |
| MarkdownExport.MdScanNests | internal/markdown/markdown.go:41-73 | the same, for the loop over a prefix of the pages |
| MarkdownExport.MdScanExtends | internal/markdown/markdown.go:41-73 | a longer prefix of the loop extends the log of a shorter one |
| MarkdownExport.ScanLogsFirstPageFirst | internal/markdown/markdown.go:41-48 | when the first listed page is new, the loop logs it first, in `currentPath` joined with its sanitised title |
| MarkdownExport.FirstChildIsNestedInParent | internal/markdown/markdown.go:46-68 | the first child of a new page that did not fail is logged right after the page, in `<currentPath>/<page name>/<child name>` |
| MarkdownExport.WalkHandlesEachUrlOnce | internal/markdown/markdown.go:35-75 | from an empty `processed` map, the walk handles each URL at most once and marks exactly the URLs it handled. Every page lies inside `currentPath`. A listed page's directory is `currentPath` joined with its sanitised title, and every other page's directory is that of the earlier visit whose children included it, joined with its own sanitised title |
| MarkdownExport.ProcessedOnlyGrows | internal/markdown/markdown.go:46 | a URL in `processed` stays there |
| MarkdownExport.EveryListedPageIsMarked | internal/markdown/markdown.go:41-73 | every page of the list is marked after the loop, even when an earlier sibling failed |
| MarkdownExport.VisitMarksItsUrl | internal/markdown/markdown.go:42-46 | after one iteration, the page's URL and everything marked before are marked |
| MarkdownExport.FailedPageSkipsChildren | internal/markdown/markdown.go:50-65 | a page whose directory or file fails yields only its own visit; its children are not walked |
| MarkdownExport.DeclinedPageKeepsChildren | internal/markdown/markdown.go:62-72 | declining the prompt is not an error, so the children of a declined page are still walked and marked |
| MarkdownExport.Exporter.constructor | internal/markdown/markdown.go:35 | the exporter starts with an empty `processed` map and no visits |
| MarkdownExport.Exporter.ProcessMarkdownPages | internal/markdown/markdown.go:40-75 | processMarkdownPages returns no error and moves the `processed` map and the visit log to `MdScan` of the old state |
| MarkdownExport.Exporter.ExportToMarkdown | internal/markdown/markdown.go:17-38 | it succeeds exactly when the output directory is created, index.html is read and it parses. Then the state is the walk of the page tree from an empty map, whatever an earlier call left; otherwise the state is unchanged |
| OutlineTree.DeclinedCreatesNothing | internal/outline/upload.go:71-84 | a declined page happened only with `verify` and no approval, and creates no document and writes no file |
| OutlineTree.NoWriteWithoutCreate | internal/outline/upload.go:86-101 | no local copy is written unless the document was created with a string id |
| OutlineTree.UploadFile | internal/outline/upload.go:55-105 | the steps processAndUploadFile takes for one page and how it ends; characterised by `DeclinedCreatesNothing`, `CreatedDocumentEffects`, `WriteFollowsCreate`, `UploadedIdIsDocumentId` and `InvalidIdWritesNothing`, and `ProcessAndUploadFile` is proved to perform it |
| OutlineTree.WriteFollowsCreate | internal/outline/upload.go:55-105 | the local copy is written exactly when the document was created with a string id |
| OutlineTree.CreatedDocumentEffects | internal/outline/upload.go:55-105 | a created document runs read, attachment upload, conversion, the prompt when verifying, creation and write, in that order |
| OutlineTree.UploadedIdIsDocumentId | internal/outline/upload.go:86-104 | an uploaded page's id is the string id createDocument returned for its title, Markdown and parent id, and its copy is written at the `.md` path in the output directory |
| OutlineTree.InvalidIdWritesNothing | internal/outline/upload.go:91-94 | a created document without a string id is the "invalid document Id" error, and no copy is written |
| OutlineTree.ProcessAndUploadFile | internal/outline/upload.go:55-105 | processAndUploadFile performs exactly the run `UploadFile` describes |
| OutlineTree.CopyOfPage | internal/outline/upload.go:98 | a page `x.html` in the export directory is copied to `x.md` in the output directory |
| OutlineTree.Urls | internal/outline/upload.go:38-39 | the log's URLs are those of its uploads, one by one |
| OutlineTree.UrlsConcat | internal/outline/upload.go:38-51 | the URLs of joined logs are joined |
| OutlineTree.NoneFailedSplit | internal/outline/upload.go:40-43 | a log without failures splits into two logs without failures |
| OutlineTree.ProcessPages | internal/outline/upload.go:37-53 | processPages returns no error and makes exactly the uploads of the reference `TreeScan`, in order |
| OutlineTree.PrepareAndProcess | internal/outline/upload.go:15-35 | it succeeds exactly when the output directory is created, index.html is read and it parses. Then the uploads are those of the page tree with parent ""; otherwise there are none |
| OutlineTree.VisitUploadsPreOrder | internal/outline/upload.go:37-53 | when no upload fails, a page and its descendants are uploaded in pre-order, every occurrence counted |
| OutlineTree.ScanUploadsPreOrder | internal/outline/upload.go:37-53 | the same, for the loop over a prefix of a page list |
| OutlineTree.DuplicateIsUploadedTwice | internal/outline/upload.go:38-39 | nothing is de-duplicated: a page listed twice is uploaded twice |
| OutlineTree.LinkedConcat | internal/outline/upload.go:38-51 | parent links survive joining two logs |
| OutlineTree.LinkedUnder | internal/outline/upload.go:45-46 | the children's uploads hang under the page's own upload |
| OutlineTree.VisitIsLinked | internal/outline/upload.go:39-50 | every upload of an iteration is of a top-level page given the walk's parent id, or of a child of an earlier successful upload given that upload's document id |
| OutlineTree.ScanIsLinked | internal/outline/upload.go:37-53 | the same for the whole loop: every child is given the document id of the page above it |
| OutlineTree.FailedPageSkipsChildren | internal/outline/upload.go:40-43 | a failing page is uploaded alone; its children are not walked |
| OutlineTree.DeclinedPageOrphansChildren | internal/outline/upload.go:45-83 | the children of a declined page are still walked, with parent id "" |
| OutlineTree.EverySiblingIsAttempted | internal/outline/upload.go:38-43 | every page of a list is attempted with the walk's parent id, also after an earlier sibling failed |
| OutlineAttachment.DecodeObject | outline/attachment.go:89-92 | decoding yields a map exactly for a JSON object or null |
| OutlineAttachment.ReadGrant | outline/attachment.go:89-111 | an accepted grant comes from an object body whose `data` is an object with a string `uploadUrl` and an object `form`. Its URL is the normalised `uploadUrl` |
| OutlineAttachment.AttachmentInfo | outline/attachment.go:163-167 | the result map exists exactly when `data.attachment` is an object; it has the keys id, key and name, where key is the form's key and name the file name |
| OutlineAttachment.Upload | outline/attachment.go:115-167 | an upload is created only when the file opens and reads, the request is built and the server answers 200. The info is then the attachment map |
| OutlineAttachment.CreateAttachment | outline/attachment.go:28-168 | HTML files are skipped with no limiter call; other files are skipped exactly when their MIME type is unknown, after one limiter call and before any request is sent. No request is sent exactly when the file is HTML, cannot be stat-ed, has no MIME type or the create request cannot be built; never more requests than limiter calls. A created attachment used the limiter twice, sent both requests, and carries id, key and name, with name the file's base name |
| OutlineAttachment.NormalizeUploadURL | outline/attachment.go:104-106 | the rewriting of an upload URL; characterised by `NormalizeApiPath`, `NormalizeOtherRelative`, `NormalizeKeepsAbsolute` and `NormalizeDropsLettersNotSegment` |
| OutlineAttachment.NormalizeApiPath | outline/attachment.go:104-106 | a relative upload URL under "/api" is served from the base URL without the "/api" |
| OutlineAttachment.NormalizeOtherRelative | outline/attachment.go:104-106 | another relative upload URL is appended whole to the base URL |
| OutlineAttachment.NormalizeKeepsAbsolute | outline/attachment.go:104-106 | an absolute upload URL is used as it is |
| OutlineAttachment.NormalizeDropsLettersNotSegment | outline/attachment.go:105 | the "/api" prefix is dropped as four characters, so "/apiary" becomes the base URL followed by "ary" |
| OutlineAttachment.GetAttachmentURL | outline/attachment.go:170-176 | the URL is non-empty exactly when the info holds a string key |
| OutlineAttachment.AttachmentURLNamesKey | outline/attachment.go:170-176 | the files.get URL of an attachment names exactly its key |
| OutlineAttachment.UploadTarget | outline/attachment.go:184-209 | a reference is rewritten exactly when the cleaned path exists, the attachment was created and has a string key. It is then the files.get URL of that attachment, after two limiter calls |
| OutlineAttachment.HtmlReferenceIsKept | outline/attachment.go:28-32 | a reference to an HTML file is never uploaded, so it is kept |
| OutlineAttachment.RewrittenReferenceNamesUploadKey | outline/attachment.go:163-176 | a rewritten reference is a files.get URL under the base URL whose key is the upload form's key |
| OutlineAttachment.UploadAndReplaceAttachments | outline/attachment.go:178-224 | the pass on a parsed page leaves `Rewritten` of the old elements under the upload rule |
| OutlineAttachment.UploadPassRule | outline/attachment.go:184-221 | each surviving element is unchanged unless it is an img or a with an attachment reference that got an upload URL, and then only that attribute holds the URL |
| OutlineFlat.DeclinedCreatesNothing | outline/upload.go:56-70 | a declined file happened only with `verify` and no approval, and creates no document and writes no file |
| OutlineFlat.CreatedDocumentEffects | outline/upload.go:40-90 | a created document runs read, attachment upload, conversion, the prompt when verifying, creation and write, in that order |
| OutlineFlat.NoWriteWithoutCreate | outline/upload.go:72-86 | no Markdown file is written unless the document was created with a string id |
| OutlineFlat.ProcessFile | outline/upload.go:40-90 | the steps processAndUploadFile takes for one file and how it ends, with each of read, parse, render after the attachment upload, conversion, creation, the id check and the write as a failure of its own; characterised by `DeclinedCreatesNothing`, `RenderFailureFollowsUpload`, `CreatedDocumentEffects`, `WriteFollowsCreate`, `NoWriteWithoutCreate` and `UploadedIdIsDocumentId`, and `ProcessAndUploadFile` is proved to perform it |
| OutlineFlat.RenderFailureFollowsUpload | outline/upload.go:46-49 | a file fails to render exactly when it was read and parsed and `doc.Html()` of the rewritten page fails (outline/attachment.go:223); that happens after the attachments were uploaded, and nothing is converted, created or written |
| OutlineFlat.WriteFollowsCreate | outline/upload.go:40-90 | the Markdown file is written exactly when the document was created with a string id |
| OutlineFlat.UploadedIdIsDocumentId | outline/upload.go:72-89 | an uploaded file's id is the string id createDocument returned for the converter's title and Markdown, and the write succeeded |
| OutlineFlat.ProcessAndUploadFile | outline/upload.go:40-90 | processAndUploadFile, with the page held in a document the attachment pass rewrites in place, performs exactly the run `ProcessFile` describes, the render failure after the upload included |
| OutlineFlat.HtmlNames | outline/upload.go:26-27 | the entries kept are entries of the directory whose extension is ".html" |
| OutlineFlat.HtmlNamesInOrder | outline/upload.go:26-27 | the names kept from a prefix of the directory are exactly the names at its ".html" positions, one each, in directory order |
| OutlineFlat.HtmlNamesComplete | outline/upload.go:26-27 | every ".html" entry of the directory is kept |
| OutlineFlat.FlatScanHandlesHtmlNames | outline/upload.go:26-35 | the loop handles exactly the ".html" entries in directory order, each with its own input and output path; a failing entry does not stop the later ones |
| OutlineFlat.FlatScanPrefix | outline/upload.go:26-35 | what the loop did for the first `k` entries depends on those entries only |
| OutlineFlat.OutputOfHtmlEntry | outline/upload.go:29 | `x.html` is copied to `x.md` in the output directory |
| OutlineFlat.UpperCaseEntryIsIgnored | outline/upload.go:27 | the extension test is case-sensitive: an entry "A.HTML" is not uploaded |
| OutlineFlat.AttachmentsResolveInInputDir | outline/upload.go:28-46 | a file's attachments are looked up in the export directory itself |
| OutlineFlat.PrepareAndProcess | outline/upload.go:13-38 | setup errors are returned in the source's order and nothing is handled; otherwise every ".html" entry is handled as `FlatScan` says and only logged on error |
| RateLimit.Wait | rate/rate.go:18-24 | a request sleeps exactly when the window is full and its oldest entry is less than a period old, and then for the rest of that period, never more than a period |
| RateLimit.Record | rate/rate.go:25-27 | the window never exceeds ten entries; when full its oldest entry is evicted; the new stamp is always the newest |
| RateLimit.RecordKeepsSorted | rate/rate.go:25-27 | with a clock that never goes back, the window stays in time order |
| RateLimit.Limiter.constructor | rate/rate.go:14 | the window starts empty |
| RateLimit.Limiter.LimitRequest | rate/rate.go:16-28 | LimitRequest as written sleeps for `Wait` and records the clock reading taken before the sleep |
| RateLimit.Limiter.LimitRequestAfterWait | rate/rate.go:16-28 | the corrected limiter sleeps for `Wait` and records the time the request is let through |
| RateLimit.RecordLatest | rate/rate.go:25-27 | the window is always the last ten admissions of the history |
| RateLimit.AdmitAfterWaitStep | rate/rate.go:16-28 | one corrected admission keeps the history spaced (any eleven consecutive admissions span a period) and ordered |
| RateLimit.HistoryStep | rate/rate.go:16-28 | a caller's history after one more admission is the same history with that admission appended |
| RateLimit.AdmitNext | rate/rate.go:16-28 | one corrected admission takes a spaced, ordered history to a spaced, ordered one |
| RateLimit.AfterWaitSpacedFrom | rate/rate.go:16-28 | from any spaced, ordered history, a sequential caller's corrected admissions keep it spaced and ordered |
| RateLimit.AfterWaitKeepsRate | rate/rate.go:9-28 | with the corrected recording, no period-long interval holds more than ten admissions of a sequential caller |
| RateLimit.BurstAfterSleep | rate/rate.go:17-27 | after the long sleep, the window as written still shows old entries, so the next requests pass at once |
| RateLimit.SleepThenBurst | rate/rate.go:17-27 | as written, eleven requests from a window of ten entries at 0 are all let through at the same instant, one period later |
| RateLimit.FillWindow | rate/rate.go:17-27 | from a window of `j` entries at 0, the requests fill it at 0 and the following eleven all pass one period later |
| RateLimit.RecordBeforeWaitAdmitsBurst | rate/rate.go:17-27 | as written, 21 back-to-back requests pass as ten at 0 and eleven at the same instant one period later, which is not spaced |
| Convert.ExtractTitle | convert/convert.go:68-80 | the title of a page; characterised by `TitleIsAfterLastColon`, `TitleHasNoColon`, `BlankTitleIsEmpty` and `NoTitleIsUntitled` |
| Convert.TitleIsAfterLastColon | convert/convert.go:68-80 | the title is what follows the last ':' of the trimmed text, trimmed again, or the whole trimmed text when there is no ':' |
| Convert.TitleHasNoColon | convert/convert.go:68-80 | a page title holds no ':' and no leading or trailing white space |
| Convert.BlankTitleIsEmpty | convert/convert.go:69-77 | an empty title element gives the empty title, not "Untitled Document" |
| Convert.NoTitleIsUntitled | convert/convert.go:69-70 | a page with no title element is titled "Untitled Document" |
| Convert.AddClass | convert/convert.go:85 | adding a class keeps every class, adds that one, and nothing else |
| Convert.Preprocessed | convert/convert.go:82-88 | a table is marked complex exactly when it has more than two cells or already was; its other classes and its cells stay as they are |
| Convert.PreprocessIsIdempotent | convert/convert.go:82-88 | preprocessing twice equals preprocessing once |
| Convert.PreProcessTables | convert/convert.go:82-88 | in place, every table of the content becomes its preprocessed form |
| Convert.TrimCells | convert/convert.go:101-104 | a row has one text per cell |
| Convert.TrimCellsAt | convert/convert.go:102 | each text of a row is its cell's text, trimmed |
| Convert.Rows | convert/convert.go:99-111 | the rows the first pass of confluenceTable collects; characterised by `RowsKeepRowsWithCells`, `RowsInOrder` and `RowsOfFullTable`, and `CollectRows` is proved to compute it |
| Convert.RowsKeepRowsWithCells | convert/convert.go:99-111 | every kept row has cells, no row is added, and when every tr has cells every one is kept |
| Convert.RowsInOrder | convert/convert.go:99-111 | the rows are the trimmed cells of exactly the trs that have cells, one row per such tr, in document order |
| Convert.RowsOfFullTable | convert/convert.go:99-111 | when every tr has cells, row k is the trimmed cells of tr k |
| Convert.MaxColsIsMax | convert/convert.go:107-109 | maxCols is the length of a longest row, and 0 without rows |
| Convert.Segments | convert/convert.go:119-125 | each row has `maxCols` segments: its own cells, then empty padding cells |
| Convert.RowsStep | convert/convert.go:99-111 | one tr step of the first pass appends its trimmed row exactly when it has cells |
| Convert.MaxColsStep | convert/convert.go:107-109 | one row step takes the maximum with the new row's length |
| Convert.TrimCellsStep | convert/convert.go:101-104 | one cell step appends the trimmed cell text |
| Convert.CollectRows | convert/convert.go:96-111 | the first pass computes the rows with cells, trimmed, and the length of the longest |
| Convert.RenderRows | convert/convert.go:117-134 | the second pass builds the leading blank line and every row padded to `maxCols` cells, with the separator after the first |
| Convert.ConfluenceTable | convert/convert.go:95-137 | the table rule returns exactly what the reference `RenderTable` gives |
| Convert.RenderTable | convert/convert.go:113-137 | the replacement the confluenceTable rule produces, or None when it declines; characterised by `RenderDeclinesEmptyTables` and `RenderedTableLines`, and `ConfluenceTable` is proved to compute it |
| Convert.RenderDeclinesEmptyTables | convert/convert.go:113-115 | the rule declines a table exactly when it has no row with cells |
| Convert.RowLinesOf | convert/convert.go:118-126 | one line per row, each that row's padded line |
| Convert.WithSeparator | convert/convert.go:118-134 | `k` rows give `k + 1` lines, or none for no rows |
| Convert.ConcatAppend | convert/convert.go:117-135 | concatenation distributes over sequence concatenation |
| Convert.CellsIsConcat | convert/convert.go:119-125 | the cell loop appends the concatenated segments |
| Convert.DashesIsConcat | convert/convert.go:129-131 | the separator loop appends `n` column separators |
| Convert.RowLinesAppend | convert/convert.go:119-133 | one row iteration appends its line, and the separator line after the first row |
| Convert.RenderedIsLines | convert/convert.go:117-134 | the text built for the first `k` rows is the blank line followed by their lines |
| Convert.SeparatorFollowsFirst | convert/convert.go:128-133 | the separator follows the first row only |
| Convert.RenderedTableLines | convert/convert.go:113-137 | a rendered table is the blank line, one line per row with the separator after the first, and a closing line break |
| Convert.ConcatBars | convert/convert.go:119-126 | pieces with one bar each give as many bars as pieces |
| Convert.SegmentBars | convert/convert.go:120-124 | a cell segment holds one bar when the cell's text holds none |
| Convert.RowLineBars | convert/convert.go:118-126 | every row line has `maxCols + 1` bars however short the row, as long as no cell holds a bar |
| Convert.SeparatorLineBars | convert/convert.go:128-133 | the separator line has `maxCols + 1` bars as well |
| Convert.RowLineIsNotSeparator | convert/convert.go:118-133 | a row line never equals the separator line |
| Paths.StripTrailingSlashes | outline/attachment.go:39 | what is left is a prefix without a trailing slash, and only slashes were removed |
| Paths.Base | internal/markdown/markdown.go:108 | a base name is never empty; it is "/" or holds no '/'; it is "." for the empty path |
| Paths.Join | internal/markdown/markdown.go:47-48 | filepath.Join of two elements, empty elements ignored; characterised by `BaseOfJoin`, `DirOfJoin` and `MarkdownExport.JoinIsInside` |
| Paths.BaseOfJoin | internal/markdown/markdown.go:108-110 | the base of a name joined onto a directory is that name |
| Paths.AfterLastAfterSeparator | internal/markdown/markdown.go:108 | what follows the last separator is the last element |
| Paths.Dir | internal/markdown/markdown.go:83 | a directory is never empty |
| Paths.DirOfJoin | outline/upload.go:46 | the directory of a name joined onto a directory is that directory |
| Paths.ExtScan | outline/upload.go:27 | an extension is empty or starts with '.', ends the path and holds no '/' |
| Paths.Ext | outline/upload.go:27 | an extension is empty or starts with '.', ends the path and holds no '/' |
| Strs.TrimPrefix | outline/attachment.go:105 | with the prefix present, the prefix and the result make the input; otherwise the input is returned |
| Strs.TrimSuffix | outline/upload.go:29 | with the suffix present, the result and the suffix make the input; otherwise the input is returned |
| Strs.ReplaceChar | utils/utils.go:11 | a one-character replacement keeps the length when the replacement has one character, and changes exactly the occurrences |
| Strs.BeforeFirst | utils/utils.go:10 | the first piece of a split is a prefix without the separator, ending just before the first separator |
| Strs.AfterLast | convert/convert.go:74 | the last piece of a split is a suffix without the separator, starting just after the last separator |
| Strs.Split | convert/convert.go:72 | a split has at least one piece, none containing the separator, and starts with the prefix before the first separator |
| Strs.AfterLastOfSuffix | convert/convert.go:72-74 | what follows the last separator is unaffected by anything before a separator |
| Strs.SplitLast | convert/convert.go:72-74 | the last piece of a split is what follows the last separator, and there is more than one piece exactly when the separator occurs |
| Strs.TrimStart | internal/markdown/markdown.go:203 | the result is a suffix of the input that does not start with a trimmed character |
| Strs.TrimEnd | internal/markdown/markdown.go:203 | the result is a prefix of the input that does not end with a trimmed character |
| Strs.Trim | internal/markdown/markdown.go:203 | the result neither starts nor ends with a trimmed character |
| Strs.TrimSpace | convert/convert.go:71 | the result neither starts nor ends with white space |
| Strs.ToLowerAscii | outline/attachment.go:29 | lower-casing keeps the length and turns each ASCII upper-case letter into its lower-case form |

## Left out

- HTML parsing and serialisation (`html.Parse`, goquery): a page arrives already parsed. `Hierarchy` sees a node tree. The attachment passes see the list of `img` and `a` elements of the page in document order, which is the order goquery's `Find` visits them. A failure to parse or render is an oracle answer (`parse` and `htmlOk` in `Fs`, `parse` and `htmlOk` in `OutlineFlat.Env`, `attachOk` for the tree import's own attachment pass).
- `Paths.Join`: Go's lexical `Clean` after joining is not modelled. The joined paths are not all clean: `Join(sourcePath, CleanPath(src))` can keep a doubled slash (`CleanPath("a///b")` is "a//b"), `Join(inputPath, page.URL)` takes a raw href, and the output directory comes from the user. So the oracles are keyed by the uncleaned join, where Go would hand the cleaned path to the file system; no proved property depends on `Clean`. `Paths.Dir` likewise only covers paths without ".", ".." or doubled slashes.
- `GetMimeType` (utils/utils.go:15-23) is the oracle `Server.mimeType`, because it reads the system's MIME table.
- The HTTP requests, headers, multipart encoding and JSON encoding of outline/attachment.go are oracle answers. The errors of writing form fields, `CreateFormFile` and `writer.Close` are not separate failure cases. JSON numbers are integers.
- Every file-system call (`MkdirAll`, `ReadFile`, `ReadDir`, `Stat`, `Open`, `WriteFile`, `copyFile`) is an answer of the `Fs`/`Env`/`Server` oracle keyed by path. The bytes that `copyFile` and `WriteFile` move are not modelled.
- The verification prompt is the oracle `approve`. It stands for "the answer, lower-cased, is y". The printed Markdown is not modelled.
- `ConvertHTMLToMarkdown` is not modelled beyond `extractTitle`, `preProcessTables` and the table rule, because the rest delegates to bluemonday and the html-to-markdown library. The same holds for the removal of head/script/style, the choice of `#main-content`, and `postProcessMarkdown` with its regular expression. Where a page is converted, the converter is an oracle.
- Convert.ConfluenceTable: its input is the cell texts of each `tr` as the selector finds them, so the text extraction of a cell (`cell.Text()`) is not modelled. `Table.cellCount` counts the cells of nested tables too, as `Find("th, td")` does.
- Convert.ConfluenceTable is proved as two passes (`CollectRows`, `RenderRows`) over the same rows; the source does both inside one closure.
- internal/outline's own attachment pass and converter, and `createDocument` (outline/document.go), are oracles. Their files are not part of this model. The panic of createDocument on a response without an object `data` is not modelled.
- OutlineAttachment.UploadTarget: a `createAttachment` call that panics on a non-object `data.attachment` is modelled as an outcome (`Panicked`) after which the reference is kept. In the source, that panic ends the program.
- `strings.ToLower` is modelled for ASCII letters only.
- `os.ReadDir` returns its entries in the oracle's order. Go sorts them by name, and the proofs do not depend on the order.
- The `processed` map of internal/markdown/markdown.go is modelled as the set of its keys, since only `true` is stored.
- OutlineAttachment.CreateAttachment: the rate limiter is represented by the number of `LimitRequest` calls, not threaded through the global window. `RateLimit.Limiter` models the window on its own.
- Logging (`a.Logger`, `a.Print`) is left out: it does not change what is stored or uploaded.
- The concurrency of a real clock is out of scope: `RateLimit` takes the clock reading as a parameter and returns the sleep instead of performing it, for one sequential caller.

## Findings

| source | as written | input that shows it | evidently intended | confidence | as-written member | corrected member |
|---|---|---|---|---|---|---|
| rate/rate.go:17-27 | the time recorded for a request is the clock reading taken before the sleep; after a full-period sleep the window again holds ten entries older than the request, so the next requests pass at once | 21 back-to-back requests from an empty window: ten pass at time 0, then eleven all pass at the same instant one period later | record the time the request is actually let through, so that no period holds more than ten requests | not executed | RateLimit.RecordBeforeWaitAdmitsBurst | RateLimit.AfterWaitKeepsRate |

/** The document model that the two attachment passes rewrite in place (the
    `processElement` closures of internal/markdown/markdown.go and
    outline/attachment.go): the elements of a parsed page in document order,
    as goquery's `Find` walks them, each with its tag, class tokens and
    attributes. */
module Dom {
  import opened Wrappers
  import opened Strs

  datatype Element = Element(tag: string, classes: seq<string>, attrs: map<string, string>)

  const AttachmentsPrefix: string := "attachments/"

  /** An attribute value that refers to a file of the export's attachments/ directory. */
  predicate IsAttachmentRef(e: Element, attr: string) {
    attr in e.attrs && HasPrefix(e.attrs[attr], AttachmentsPrefix)
  }

  /** processElement: only an existing attribute that points into attachments/
      is considered; `rewrite` decides whether it is replaced and by what. */
  function ProcessRef(e: Element, attr: string, rewrite: string -> Option<string>): (r: Element)
    ensures r.tag == e.tag && r.classes == e.classes && r.attrs.Keys == e.attrs.Keys
    ensures forall k :: k in e.attrs && k != attr ==> r.attrs[k] == e.attrs[k]
    ensures IsAttachmentRef(e, attr) && rewrite(e.attrs[attr]).Some? ==> r.attrs[attr] == rewrite(e.attrs[attr]).value
    ensures !IsAttachmentRef(e, attr) || rewrite(e.attrs[attr]).None? ==> r == e
  {
    if IsAttachmentRef(e, attr) && rewrite(e.attrs[attr]).Some?
    then e.(attrs := e.attrs[attr := rewrite(e.attrs[attr]).value])
    else e
  }

  predicate IsEmoticon(e: Element) {
    e.tag == "img" && "emoticon" in e.classes
  }

  /** What the img pass leaves in place of one element. */
  function ImgStep(e: Element, rewrite: string -> Option<string>): seq<Element> {
    if e.tag != "img" then [e]
    else if "emoticon" in e.classes then []
    else [ProcessRef(e, "src", rewrite)]
  }

  /** The img pass over the elements, one element at a time. */
  function ImgPass(es: seq<Element>, rewrite: string -> Option<string>): seq<Element>
    decreases |es|
  {
    if es == [] then [] else ImgPass(es[..|es| - 1], rewrite) + ImgStep(es[|es| - 1], rewrite)
  }

  function LinkStep(e: Element, rewrite: string -> Option<string>): Element {
    if e.tag == "a" then ProcessRef(e, "href", rewrite) else e
  }

  /** The a pass over the elements, one element at a time. */
  function LinkPass(es: seq<Element>, rewrite: string -> Option<string>): (r: seq<Element>)
    ensures |r| == |es|
    decreases |es|
  {
    if es == [] then [] else LinkPass(es[..|es| - 1], rewrite) + [LinkStep(es[|es| - 1], rewrite)]
  }

  /** Both passes, in the order the source runs them. */
  function Rewritten(es: seq<Element>, rewrite: string -> Option<string>): seq<Element> {
    LinkPass(ImgPass(es, rewrite), rewrite)
  }

  // ---------------------------------------------------------------------
  // A reference description of the two passes

  /** The elements that are not emoticon images, in order. */
  function Kept(es: seq<Element>): (r: seq<Element>)
    ensures |r| <= |es|
    decreases |es|
  {
    if es == [] then [] else Kept(es[..|es| - 1]) + (if IsEmoticon(es[|es| - 1]) then [] else [es[|es| - 1]])
  }

  /** An element is kept exactly when it is in the list and is not an emoticon image. */
  lemma {:induction false} KeptMembers(es: seq<Element>)
    ensures forall e :: e in Kept(es) <==> e in es && !IsEmoticon(e)
    decreases |es|
  {
    if es != [] {
      var front := es[..|es| - 1];
      KeptMembers(front);
      assert es == front + [es[|es| - 1]];
    }
  }

  /** A list without emoticon images is kept whole. */
  lemma {:induction false} KeptWithoutEmoticons(es: seq<Element>)
    requires forall i :: 0 <= i < |es| ==> !IsEmoticon(es[i])
    ensures Kept(es) == es
    decreases |es|
  {
    if es != [] {
      var front := es[..|es| - 1];
      assert forall i :: 0 <= i < |front| ==> front[i] == es[i];
      KeptWithoutEmoticons(front);
      assert es == front + [es[|es| - 1]];
    }
  }

  /** Each kept element has its own reference attribute processed once:
      `src` for an image, `href` for a link. */
  function RewriteOne(e: Element, rewrite: string -> Option<string>): Element {
    if e.tag == "img" then ProcessRef(e, "src", rewrite)
    else if e.tag == "a" then ProcessRef(e, "href", rewrite)
    else e
  }

  lemma {:induction false} ImgPassIsPerElement(es: seq<Element>, rewrite: string -> Option<string>)
    ensures |ImgPass(es, rewrite)| == |Kept(es)|
    ensures forall i :: 0 <= i < |Kept(es)| ==>
      ImgPass(es, rewrite)[i] == (if Kept(es)[i].tag == "img" then ProcessRef(Kept(es)[i], "src", rewrite) else Kept(es)[i])
    decreases |es|
  {
    if es != [] {
      ImgPassIsPerElement(es[..|es| - 1], rewrite);
    }
  }

  lemma {:induction false} LinkPassIsPerElement(es: seq<Element>, rewrite: string -> Option<string>)
    ensures |LinkPass(es, rewrite)| == |es|
    ensures forall i :: 0 <= i < |es| ==> LinkPass(es, rewrite)[i] == LinkStep(es[i], rewrite)
    decreases |es|
  {
    if es != [] {
      LinkPassIsPerElement(es[..|es| - 1], rewrite);
    }
  }

  /** The two passes drop exactly the emoticon images and otherwise rewrite
      every element on its own, keeping the document order. */
  lemma RewrittenIsPerElement(es: seq<Element>, rewrite: string -> Option<string>)
    ensures |Rewritten(es, rewrite)| == |Kept(es)|
    ensures forall i :: 0 <= i < |Kept(es)| ==> Rewritten(es, rewrite)[i] == RewriteOne(Kept(es)[i], rewrite)
  {
    var mid := ImgPass(es, rewrite);
    ImgPassIsPerElement(es, rewrite);
    LinkPassIsPerElement(mid, rewrite);
    forall i | 0 <= i < |Kept(es)| ensures Rewritten(es, rewrite)[i] == RewriteOne(Kept(es)[i], rewrite) {
      var e := Kept(es)[i];
      assert Rewritten(es, rewrite)[i] == LinkStep(mid[i], rewrite);
      if e.tag == "img" {
        assert mid[i] == ProcessRef(e, "src", rewrite);
      } else {
        assert mid[i] == e;
      }
    }
  }

  /** Every emoticon image is removed, whatever the attachments do. */
  lemma NoEmoticonRemains(es: seq<Element>, rewrite: string -> Option<string>)
    ensures forall e :: e in Rewritten(es, rewrite) ==> !IsEmoticon(e)
  {
    var r := Rewritten(es, rewrite);
    var kept := Kept(es);
    assert |r| == |kept| && forall i :: 0 <= i < |kept| ==> r[i] == RewriteOne(kept[i], rewrite)
    by { RewrittenIsPerElement(es, rewrite); }
    assert forall e :: e in kept ==> !IsEmoticon(e) by { KeptMembers(es); }
    forall e | e in r ensures !IsEmoticon(e) {
      var i :| 0 <= i < |r| && r[i] == e;
      assert kept[i] in kept;
      assert e.tag == kept[i].tag && e.classes == kept[i].classes;
    }
  }

  // ---------------------------------------------------------------------
  // The document and the passes over it

  class Document {
    var elements: seq<Element>

    constructor (es: seq<Element>)
      ensures elements == es
    {
      elements := es;
    }

    /** goquery's SetAttr on one element. */
    method SetAttr(i: nat, key: string, val: string)
      requires i < |elements|
      modifies this
      ensures elements == old(elements)[i := old(elements)[i].(attrs := old(elements)[i].attrs[key := val])]
    {
      elements := elements[i := elements[i].(attrs := elements[i].attrs[key := val])];
    }

    /** goquery's Remove on one element (images have no descendants). */
    method Remove(i: nat)
      requires i < |elements|
      modifies this
      ensures elements == old(elements)[..i] + old(elements)[i + 1..]
    {
      elements := elements[..i] + elements[i + 1..];
    }
  }

  lemma ReplaceMiddle<T>(a: seq<T>, x: T, b: seq<T>, y: T)
    ensures (a + [x] + b)[|a| := y] == a + [y] + b
  {
    var s := a + [x] + b;
    assert forall k :: 0 <= k < |s| ==> s[|a| := y][k] == (a + [y] + b)[k];
  }

  lemma DropMiddle<T>(a: seq<T>, x: T, b: seq<T>)
    ensures (a + [x] + b)[..|a|] + (a + [x] + b)[|a| + 1..] == a + b
  {
    var s := a + [x] + b;
    assert s[..|a|] == a;
    assert s[|a| + 1..] == b;
  }

  method ProcessElement(doc: Document, i: nat, attr: string, rewrite: string -> Option<string>)
    requires i < |doc.elements|
    modifies doc
    ensures doc.elements == old(doc.elements)[i := ProcessRef(old(doc.elements)[i], attr, rewrite)]
  {
    var e := doc.elements[i];
    if attr in e.attrs && HasPrefix(e.attrs[attr], AttachmentsPrefix) {
      var replacement := rewrite(e.attrs[attr]);
      if replacement.Some? {
        doc.SetAttr(i, attr, replacement.value);
      }
    }
  }

  /** processElement (or Remove) applied to one image inside the document. */
  method RewriteImage(doc: Document, i: nat, ghost done: seq<Element>, e: Element, ghost rest: seq<Element>, rewrite: string -> Option<string>)
    requires doc.elements == done + [e] + rest && i == |done|
    modifies doc
    ensures doc.elements == done + ImgStep(e, rewrite) + rest
  {
    assert doc.elements[i] == e;
    if e.tag == "img" && "emoticon" in e.classes {
      doc.Remove(i);
      DropMiddle(done, e, rest);
    } else if e.tag == "img" {
      ProcessElement(doc, i, "src", rewrite);
      ReplaceMiddle(done, e, rest, ProcessRef(e, "src", rewrite));
    }
  }

  /** One step of the image pass, as the loop of RewriteImages takes it. */
  lemma ImgPassStep(orig: seq<Element>, j: nat, rewrite: string -> Option<string>)
    requires j < |orig|
    ensures ImgPass(orig[..j], rewrite) + orig[j..] == ImgPass(orig[..j], rewrite) + [orig[j]] + orig[j + 1..]
    ensures ImgPass(orig[..j + 1], rewrite) + orig[j + 1..] == ImgPass(orig[..j], rewrite) + ImgStep(orig[j], rewrite) + orig[j + 1..]
    ensures |ImgStep(orig[j], rewrite)| == if IsEmoticon(orig[j]) then 0 else 1
  {
    assert orig[..j + 1][..j] == orig[..j];
    assert orig[j..] == [orig[j]] + orig[j + 1..];
  }

  /** The img pass, in place: emoticons are removed, other images processed. */
  method RewriteImages(doc: Document, rewrite: string -> Option<string>)
    modifies doc
    ensures doc.elements == ImgPass(old(doc.elements), rewrite)
  {
    var orig := doc.elements;
    var i, j := 0, 0;
    while j < |orig|
      invariant 0 <= j <= |orig|
      invariant doc.elements == ImgPass(orig[..j], rewrite) + orig[j..]
      invariant i == |ImgPass(orig[..j], rewrite)|
    {
      ImgPassStep(orig, j, rewrite);
      RewriteImage(doc, i, ImgPass(orig[..j], rewrite), orig[j], orig[j + 1..], rewrite);
      if !IsEmoticon(orig[j]) {
        i := i + 1;
      }
      j := j + 1;
    }
    assert orig[..j] == orig;
  }

  /** One step of the link pass, as the loop of RewriteLinks takes it. */
  lemma LinkPassStep(mid: seq<Element>, k: nat, rewrite: string -> Option<string>)
    requires k < |mid|
    ensures LinkPass(mid[..k], rewrite) + mid[k..] == LinkPass(mid[..k], rewrite) + [mid[k]] + mid[k + 1..]
    ensures LinkPass(mid[..k + 1], rewrite) + mid[k + 1..] == LinkPass(mid[..k], rewrite) + [LinkStep(mid[k], rewrite)] + mid[k + 1..]
  {
    assert mid[..k + 1][..k] == mid[..k];
    assert mid[k..] == [mid[k]] + mid[k + 1..];
  }

  /** The a pass, in place. */
  method RewriteLinks(doc: Document, rewrite: string -> Option<string>)
    modifies doc
    ensures doc.elements == LinkPass(old(doc.elements), rewrite)
  {
    var mid := doc.elements;
    var k := 0;
    while k < |mid|
      invariant 0 <= k <= |mid|
      invariant doc.elements == LinkPass(mid[..k], rewrite) + mid[k..]
    {
      LinkPassStep(mid, k, rewrite);
      if mid[k].tag == "a" {
        ProcessElement(doc, k, "href", rewrite);
        ReplaceMiddle(LinkPass(mid[..k], rewrite), mid[k], mid[k + 1..], LinkStep(mid[k], rewrite));
      }
      k := k + 1;
    }
    assert mid[..k] == mid;
  }

  /** The img pass followed by the a pass, in place. */
  method RewriteAttachments(doc: Document, rewrite: string -> Option<string>)
    modifies doc
    ensures doc.elements == Rewritten(old(doc.elements), rewrite)
  {
    RewriteImages(doc, rewrite);
    RewriteLinks(doc, rewrite);
  }
}

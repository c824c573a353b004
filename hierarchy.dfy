/** internal/confluence/hierarchy.go: recovering the page tree from the
    navigation lists of a parsed HTML export. */
module Hierarchy {
  import opened Wrappers
  import opened Strs
  import opened Seqs

  /** The node kinds of golang.org/x/net/html. */
  datatype NodeType = ErrorNode | TextNode | DocumentNode | ElementNode | CommentNode | DoctypeNode | RawNode

  datatype Attribute = Attribute(key: string, val: string)

  /** A parsed HTML node: for an element `data` is the tag name, for a text node the text. */
  datatype Node = Node(kind: NodeType, data: string, attr: seq<Attribute>, children: seq<Node>)

  /** One entry of the navigation tree. */
  datatype Page = Page(title: string, url: string, children: seq<Page>)

  predicate IsElement(n: Node, tag: string) {
    n.kind == ElementNode && n.data == tag
  }

  // ---------------------------------------------------------------------
  // extractText and extractPageInfo

  /** The text of a node: a text node's own data, otherwise the in-order
      concatenation of its children's text. */
  function Text(n: Node): string
    decreases n, 1
  {
    if n.kind == TextNode then n.data else TextScan(n, |n.children|)
  }

  /** The text gathered from the first `k` children. */
  function TextScan(n: Node, k: nat): string
    requires k <= |n.children|
    decreases n, 0, k
  {
    if k == 0 then "" else TextScan(n, k - 1) + Text(n.children[k - 1])
  }

  method ExtractText(n: Node) returns (text: string)
    ensures text == Text(n)
    decreases n
  {
    if n.kind == TextNode {
      return n.data;
    }
    text := "";
    var i := 0;
    while i < |n.children|
      invariant 0 <= i <= |n.children|
      invariant text == TextScan(n, i)
    {
      var t := ExtractText(n.children[i]);
      text := text + t;
      i := i + 1;
    }
  }

  /** The value of the first `href` attribute. */
  function Href(attrs: seq<Attribute>): string {
    if attrs == [] then ""
    else if attrs[0].key == "href" then attrs[0].val
    else Href(attrs[1..])
  }

  /** Without an `href` attribute the URL is empty. */
  lemma {:induction false} HrefAbsent(attrs: seq<Attribute>)
    requires forall i :: 0 <= i < |attrs| ==> attrs[i].key != "href"
    ensures Href(attrs) == ""
  {
    if attrs != [] {
      assert attrs[0].key != "href";
      HrefAbsent(attrs[1..]);
    }
  }

  /** Of several `href` attributes, the first one gives the URL. */
  lemma {:induction false} HrefIsFirst(attrs: seq<Attribute>, i: nat)
    requires i < |attrs| && attrs[i].key == "href"
    requires forall j :: 0 <= j < i ==> attrs[j].key != "href"
    ensures Href(attrs) == attrs[i].val
  {
    if i > 0 {
      HrefIsFirst(attrs[1..], i - 1);
    }
  }

  /** The page an anchor describes, before any children are attached. */
  function PageInfo(a: Node): Page {
    Page(TrimSpace(Text(a)), Href(a.attr), [])
  }

  method ExtractPageInfo(n: Node) returns (page: Page)
    ensures page == PageInfo(n)
    ensures page.children == []
    ensures page.title == [] || (!IsSpace(page.title[0]) && !IsSpace(page.title[|page.title| - 1]))
  {
    var url := "";
    var i := 0;
    while i < |n.attr|
      invariant 0 <= i <= |n.attr|
      invariant forall j :: 0 <= j < i ==> n.attr[j].key != "href"
      invariant url == ""
    {
      if n.attr[i].key == "href" {
        url := n.attr[i].val;
        assert url == Href(n.attr) by { HrefIsFirst(n.attr, i); }
        break;
      }
      i := i + 1;
    }
    if i == |n.attr| {
      assert url == Href(n.attr) by { HrefAbsent(n.attr); }
    }
    var text := ExtractText(n);
    page := Page(TrimSpace(text), url, []);
    assert page == PageInfo(n);
  }

  // ---------------------------------------------------------------------
  // processLI

  /** What processLI returns for a list item: None stands for nil. */
  function Candidate(li: Node): Option<Page>
    decreases li, 2, 0
  {
    LIScan(li, |li.children|)
  }

  /** The `page` variable of processLI after its first `k` direct children. */
  function LIScan(li: Node, k: nat): Option<Page>
    requires k <= |li.children|
    decreases li, 1, k
  {
    if k == 0 then None else LIStep(LIScan(li, k - 1), li.children[k - 1])
  }

  /** One direct child: an anchor replaces the page; a nested list adds its
      items to the page, creating an empty placeholder when there is none. */
  function LIStep(page: Option<Page>, c: Node): Option<Page>
    decreases c, 3, 0
  {
    if IsElement(c, "a") then Some(PageInfo(c))
    else if IsElement(c, "ul") then
      var p := page.GetOr(Page("", "", []));
      Some(p.(children := p.children + ChildScan(c, |c.children|)))
    else page
  }

  /** The child pages that the first `k` children of a nested list contribute:
      the non-nil candidates of its `li` elements, in order. */
  function ChildScan(ul: Node, k: nat): seq<Page>
    requires k <= |ul.children|
    decreases ul, 0, k
  {
    if k == 0 then []
    else
      var c := ul.children[k - 1];
      ChildScan(ul, k - 1) + (if IsElement(c, "li") && Candidate(c).Some? then [Candidate(c).value] else [])
  }

  function ChildPages(ul: Node): seq<Page> {
    ChildScan(ul, |ul.children|)
  }

  method ProcessLI(li: Node) returns (page: Option<Page>)
    ensures page == Candidate(li)
    decreases li
  {
    page := None;
    var i := 0;
    while i < |li.children|
      invariant 0 <= i <= |li.children|
      invariant page == LIScan(li, i)
    {
      var c := li.children[i];
      if IsElement(c, "a") {
        var info := ExtractPageInfo(c);
        page := Some(info);
      } else if IsElement(c, "ul") {
        var p := if page.None? then Page("", "", []) else page.value;
        var kids := p.children;
        var j := 0;
        while j < |c.children|
          invariant 0 <= j <= |c.children|
          invariant kids == p.children + ChildScan(c, j)
        {
          var child := c.children[j];
          if IsElement(child, "li") {
            var cp := ProcessLI(child);
            if cp.Some? {
              kids := kids + [cp.value];
            }
          }
          j := j + 1;
        }
        page := Some(p.(children := kids));
      }
      i := i + 1;
    }
  }

  // ---------------------------------------------------------------------
  // ProcessHTML

  /** The pages one `ul` adds to the flat result from its first `k` children:
      the non-nil candidates of its `li` children, except those titled "Home". */
  function TopScan(ul: Node, k: nat): seq<Page>
    requires k <= |ul.children|
    decreases ul, 0, k
  {
    if k == 0 then []
    else
      var c := ul.children[k - 1];
      TopScan(ul, k - 1)
        + (if IsElement(c, "li") && Candidate(c).Some? && Candidate(c).value.title != "Home"
           then [Candidate(c).value] else [])
  }

  function ListPages(ul: Node): seq<Page> {
    TopScan(ul, |ul.children|)
  }

  /** The pages that the walk `f` of ProcessHTML appends for the subtree at `n`. */
  function Walk(n: Node): seq<Page>
    decreases n, 1
  {
    (if IsElement(n, "ul") then ListPages(n) else []) + WalkScan(n, |n.children|)
  }

  function WalkScan(n: Node, k: nat): seq<Page>
    requires k <= |n.children|
    decreases n, 0, k
  {
    if k == 0 then [] else WalkScan(n, k - 1) + Walk(n.children[k - 1])
  }

  method ProcessHTML(root: Node) returns (pages: seq<Page>)
    ensures pages == Walk(root)
  {
    pages := WalkInto(root, []);
  }

  /** The closure `f`: appends the pages of the subtree at `n` to the captured list. */
  method WalkInto(n: Node, acc: seq<Page>) returns (pages: seq<Page>)
    ensures pages == acc + Walk(n)
    decreases n
  {
    pages := acc;
    if IsElement(n, "ul") {
      var i := 0;
      while i < |n.children|
        invariant 0 <= i <= |n.children|
        invariant pages == acc + TopScan(n, i)
      {
        var c := n.children[i];
        if IsElement(c, "li") {
          var page := ProcessLI(c);
          if page.Some? && page.value.title != "Home" {
            pages := pages + [page.value];
          }
        }
        i := i + 1;
      }
    }
    ghost var mid := pages;
    var i := 0;
    while i < |n.children|
      invariant 0 <= i <= |n.children|
      invariant pages == mid + WalkScan(n, i)
    {
      pages := WalkInto(n.children[i], pages);
      i := i + 1;
    }
  }

  // ---------------------------------------------------------------------
  // Properties of the extractor

  /** The pages of a list whose title is not "Home", in order. */
  function WithoutHome(ps: seq<Page>): seq<Page> {
    if ps == [] then []
    else WithoutHome(ps[..|ps| - 1]) + (if ps[|ps| - 1].title != "Home" then [ps[|ps| - 1]] else [])
  }

  /** A page survives the filter exactly when it is in the list and is not titled "Home". */
  lemma {:induction false} WithoutHomeMembers(ps: seq<Page>)
    ensures forall p :: p in WithoutHome(ps) <==> p in ps && p.title != "Home"
  {
    if ps != [] {
      var front := ps[..|ps| - 1];
      WithoutHomeMembers(front);
      assert ps == front + [ps[|ps| - 1]];
    }
  }

  lemma {:induction false} WithoutHomeConcat(ps: seq<Page>, qs: seq<Page>)
    ensures WithoutHome(ps + qs) == WithoutHome(ps) + WithoutHome(qs)
    decreases |qs|
  {
    if qs == [] {
      assert ps + qs == ps;
    } else {
      var front := qs[..|qs| - 1];
      assert (ps + qs)[..|ps + qs| - 1] == ps + front;
      WithoutHomeConcat(ps, front);
    }
  }

  /** What the `k`-th child of the list adds to both scans. */
  lemma ScanStep(ul: Node, k: nat) returns (add: seq<Page>)
    requires 0 < k <= |ul.children|
    ensures ChildScan(ul, k) == ChildScan(ul, k - 1) + add
    ensures TopScan(ul, k) == TopScan(ul, k - 1) + WithoutHome(add)
  {
    var c := ul.children[k - 1];
    if IsElement(c, "li") && Candidate(c).Some? {
      add := [Candidate(c).value];
      assert WithoutHome(add) == WithoutHome([]) + (if Candidate(c).value.title != "Home" then add else []);
    } else {
      add := [];
    }
  }

  /** The flat list takes exactly the child pages of the list minus those titled
      "Home"; the nested `Children` lists keep their "Home" entries. */
  lemma {:induction false} TopScanIsChildScanWithoutHome(ul: Node, k: nat)
    requires k <= |ul.children|
    ensures TopScan(ul, k) == WithoutHome(ChildScan(ul, k))
  {
    if k > 0 {
      var add := ScanStep(ul, k);
      TopScanIsChildScanWithoutHome(ul, k - 1);
      WithoutHomeConcat(ChildScan(ul, k - 1), add);
    }
  }

  lemma ListPagesOmitOnlyHome(ul: Node)
    ensures ListPages(ul) == WithoutHome(ChildPages(ul))
  {
    TopScanIsChildScanWithoutHome(ul, |ul.children|);
  }

  /** A child the scan keeps: an li from which a page is built. */
  predicate IsItem(c: Node) {
    IsElement(c, "li") && Candidate(c).Some?
  }

  /** The pages scanned from the first k children are those built from
      exactly the children that are items, in document order. */
  lemma {:induction false} ChildScanInOrder(ul: Node, k: nat)
    requires k <= |ul.children|
    ensures var pos := Positions(ul.children, IsItem, k);
      |ChildScan(ul, k)| == |pos|
      && forall i :: 0 <= i < |pos| ==>
        pos[i] < k && IsItem(ul.children[pos[i]]) && ChildScan(ul, k)[i] == Candidate(ul.children[pos[i]]).value
  {
    if k > 0 {
      ChildScanInOrder(ul, k - 1);
    }
  }

  /** A page is a child page of a list exactly when it is the candidate of one
      of the list's direct `li` element children; nothing else contributes. */
  lemma {:induction false} ChildScanFromListItems(ul: Node, k: nat)
    requires k <= |ul.children|
    ensures forall p :: p in ChildScan(ul, k) <==>
      exists j :: 0 <= j < k && IsElement(ul.children[j], "li") && Candidate(ul.children[j]) == Some(p)
  {
    if k > 0 {
      ChildScanFromListItems(ul, k - 1);
    }
  }

  /** The pre-order list of every `ul` element of the subtree at `n`. */
  function Lists(n: Node): seq<Node>
    decreases n, 1
  {
    (if IsElement(n, "ul") then [n] else []) + ListsScan(n, |n.children|)
  }

  function ListsScan(n: Node, k: nat): seq<Node>
    requires k <= |n.children|
    decreases n, 0, k
  {
    if k == 0 then [] else ListsScan(n, k - 1) + Lists(n.children[k - 1])
  }

  /** The concatenated flat contributions of a sequence of lists. */
  function Contributions(uls: seq<Node>): seq<Page> {
    if uls == [] then [] else ListPages(uls[0]) + Contributions(uls[1..])
  }

  lemma {:induction false} ContributionsAppend(a: seq<Node>, b: seq<Node>)
    ensures Contributions(a + b) == Contributions(a) + Contributions(b)
  {
    if a == [] {
      assert a + b == b;
    } else {
      assert (a + b)[1..] == a[1..] + b;
      ContributionsAppend(a[1..], b);
    }
  }

  /** ProcessHTML visits every `ul` at every depth: the flat result is the
      contribution of each list in document pre-order, an outer list's items
      before the items of the lists nested inside them. */
  lemma {:induction false} WalkIsPreorderOfLists(n: Node)
    ensures Walk(n) == Contributions(Lists(n))
    decreases n, 1
  {
    WalkScanIsPreorderOfLists(n, |n.children|);
    var own := if IsElement(n, "ul") then [n] else [];
    ContributionsAppend(own, ListsScan(n, |n.children|));
    if IsElement(n, "ul") {
      assert Contributions([n]) == ListPages(n) + Contributions([]);
    }
  }

  lemma {:induction false} WalkScanIsPreorderOfLists(n: Node, k: nat)
    requires k <= |n.children|
    ensures WalkScan(n, k) == Contributions(ListsScan(n, k))
    decreases n, 0, k
  {
    if k > 0 {
      WalkScanIsPreorderOfLists(n, k - 1);
      WalkIsPreorderOfLists(n.children[k - 1]);
      ContributionsAppend(ListsScan(n, k - 1), Lists(n.children[k - 1]));
    }
  }

  /** No page of the flat result is titled "Home". */
  lemma {:induction false} WalkHasNoHome(n: Node)
    ensures forall p :: p in Walk(n) ==> p.title != "Home"
    decreases n, 1
  {
    ListPagesOmitOnlyHome(n);
    WithoutHomeMembers(ChildPages(n));
    WalkScanHasNoHome(n, |n.children|);
  }

  lemma {:induction false} WalkScanHasNoHome(n: Node, k: nat)
    requires k <= |n.children|
    ensures forall p :: p in WalkScan(n, k) ==> p.title != "Home"
    decreases n, 0, k
  {
    if k > 0 {
      WalkScanHasNoHome(n, k - 1);
      WalkHasNoHome(n.children[k - 1]);
    }
  }

  /** processLI returns nil exactly when the item has no direct `a` and no
      direct `ul` element child. */
  lemma {:induction false} LIScanNoneIff(li: Node, k: nat)
    requires k <= |li.children|
    ensures LIScan(li, k).None? <==>
      forall j :: 0 <= j < k ==> !IsElement(li.children[j], "a") && !IsElement(li.children[j], "ul")
  {
    if k > 0 {
      LIScanNoneIff(li, k - 1);
    }
  }

  lemma CandidateNoneIff(li: Node)
    ensures Candidate(li).None? <==>
      forall j :: 0 <= j < |li.children| ==> !IsElement(li.children[j], "a") && !IsElement(li.children[j], "ul")
  {
    LIScanNoneIff(li, |li.children|);
  }

  /** The child pages of the nested lists among the direct children lo..hi-1. */
  function NestedPages(li: Node, lo: nat, hi: nat): seq<Page>
    requires hi <= |li.children|
    decreases hi
  {
    if hi <= lo then []
    else
      NestedPages(li, lo, hi - 1)
        + (if IsElement(li.children[hi - 1], "ul") then ChildPages(li.children[hi - 1]) else [])
  }

  lemma {:induction false} LIScanAfterAnchor(li: Node, k: nat, h: nat)
    requires k < h <= |li.children| && IsElement(li.children[k], "a")
    requires forall j :: k < j < h ==> !IsElement(li.children[j], "a")
    ensures LIScan(li, h) == Some(PageInfo(li.children[k]).(children := NestedPages(li, k + 1, h)))
    decreases h
  {
    var c := li.children[h - 1];
    if h > k + 1 {
      LIScanAfterAnchor(li, k, h - 1);
      var p := PageInfo(li.children[k]).(children := NestedPages(li, k + 1, h - 1));
      assert LIScan(li, h) == LIStep(Some(p), c);
      assert NestedPages(li, k + 1, h) == NestedPages(li, k + 1, h - 1)
        + (if IsElement(c, "ul") then ChildPages(c) else []);
      assert !IsElement(c, "a");
      if IsElement(c, "ul") {
        assert LIStep(Some(p), c) == Some(p.(children := p.children + ChildPages(c)));
      } else {
        assert LIStep(Some(p), c) == Some(p);
        assert NestedPages(li, k + 1, h - 1) + [] == NestedPages(li, k + 1, h - 1);
      }
    } else {
      assert LIScan(li, h) == LIStep(LIScan(li, k), c);
    }
  }

  /** The last direct anchor gives the page; only the nested lists after it
      supply children, so an anchor after a nested list drops what that
      list had added. */
  lemma LastAnchorWins(li: Node, k: nat)
    requires k < |li.children| && IsElement(li.children[k], "a")
    requires forall j :: k < j < |li.children| ==> !IsElement(li.children[j], "a")
    ensures Candidate(li) == Some(PageInfo(li.children[k]).(children := NestedPages(li, k + 1, |li.children|)))
  {
    LIScanAfterAnchor(li, k, |li.children|);
  }

  lemma {:induction false} LIScanWithoutAnchor(li: Node, h: nat)
    requires h <= |li.children|
    requires forall j :: 0 <= j < h ==> !IsElement(li.children[j], "a")
    ensures (exists j :: 0 <= j < h && IsElement(li.children[j], "ul")) ==>
      LIScan(li, h) == Some(Page("", "", NestedPages(li, 0, h)))
    ensures (forall j :: 0 <= j < h ==> !IsElement(li.children[j], "ul")) ==>
      LIScan(li, h) == None && NestedPages(li, 0, h) == []
  {
    if h > 0 {
      LIScanWithoutAnchor(li, h - 1);
      var c := li.children[h - 1];
      var prev := LIScan(li, h - 1);
      assert LIScan(li, h) == LIStep(prev, c);
      assert NestedPages(li, 0, h) == NestedPages(li, 0, h - 1)
        + (if IsElement(c, "ul") then ChildPages(c) else []);
      if IsElement(c, "ul") {
        var p := prev.GetOr(Page("", "", []));
        assert p == Page("", "", NestedPages(li, 0, h - 1));
        assert LIStep(prev, c) == Some(p.(children := p.children + ChildPages(c)));
      } else if exists j :: 0 <= j < h && IsElement(li.children[j], "ul") {
        var j :| 0 <= j < h && IsElement(li.children[j], "ul");
        assert j < h - 1;
        assert !IsElement(c, "a");
        assert LIStep(prev, c) == prev;
        assert NestedPages(li, 0, h - 1) + [] == NestedPages(li, 0, h - 1);
      }
    }
  }

  /** A list item with nested lists but no anchor yields a placeholder page
      with empty title and URL that carries all their child pages. */
  lemma PlaceholderWithoutAnchor(li: Node, u: nat)
    requires u < |li.children| && IsElement(li.children[u], "ul")
    requires forall j :: 0 <= j < |li.children| ==> !IsElement(li.children[j], "a")
    ensures Candidate(li) == Some(Page("", "", NestedPages(li, 0, |li.children|)))
  {
    LIScanWithoutAnchor(li, |li.children|);
  }

  function Item(cs: seq<Node>): Node {
    Node(ElementNode, "li", [], cs)
  }

  function List(cs: seq<Node>): Node {
    Node(ElementNode, "ul", [], cs)
  }

  lemma ItemWithNestedList(anchor: Node, inner: Node)
    requires IsElement(anchor, "a") && IsElement(inner, "ul") && Walk(anchor) == []
    ensures Candidate(Item([anchor, inner])) == Some(PageInfo(anchor).(children := ChildPages(inner)))
    ensures Walk(Item([anchor, inner])) == Walk(inner)
  {
    var a := Item([anchor, inner]);
    assert a.children[0] == anchor && a.children[1] == inner;
    assert LIScan(a, 1) == LIStep(LIScan(a, 0), anchor) == Some(PageInfo(anchor));
    assert LIScan(a, 2) == LIStep(LIScan(a, 1), inner);
    assert PageInfo(anchor).children + ChildPages(inner) == ChildPages(inner);
    assert Candidate(a) == LIScan(a, 2);
    assert WalkScan(a, 1) == WalkScan(a, 0) + Walk(anchor);
    assert WalkScan(a, 2) == WalkScan(a, 1) + Walk(inner);
  }

  lemma SingleItemList(li: Node)
    requires IsElement(li, "li") && Candidate(li).Some? && Candidate(li).value.title != "Home"
    ensures Walk(List([li])) == [Candidate(li).value] + Walk(li)
  {
    var outer := List([li]);
    assert outer.children[0] == li;
    assert TopScan(outer, 1) == TopScan(outer, 0) + [Candidate(li).value];
    assert WalkScan(outer, 1) == WalkScan(outer, 0) + Walk(li);
  }

  /** For `<ul><li><a>..</a><ul>..</ul></li></ul>` the anchor's page comes
      first, carrying the nested list's pages as its children, and the pages of
      the nested list follow it again in the flat result (Home excepted there). */
  lemma NestedPagesListedTwice(anchor: Node, inner: Node)
    requires IsElement(anchor, "a") && IsElement(inner, "ul") && Walk(anchor) == []
    requires PageInfo(anchor).title != "Home"
    ensures Walk(List([Item([anchor, inner])])) ==
      [PageInfo(anchor).(children := ChildPages(inner))] + WithoutHome(ChildPages(inner)) + WalkScan(inner, |inner.children|)
  {
    ItemWithNestedList(anchor, inner);
    SingleItemList(Item([anchor, inner]));
    assert Walk(inner) == ListPages(inner) + WalkScan(inner, |inner.children|);
    ListPagesOmitOnlyHome(inner);
  }
}

/**
 * The EPUB 3 navigation document: the nested `ol` lists the writer builds from the book's
 * table of contents (with the guide as landmarks), and the table of contents the reader
 * rebuilds from the `toc` nav, with hrefs resolved against the document's directory.
 */
module Nav {
  import opened Wrappers
  import opened Xml
  import opened Metadata
  import opened Items
  import opened Toc
  import opened Paths
  import opened Book
  import opened Opf

  // ---------------------------------------------------------------------------
  // Writing: `_get_nav`

  /** The names of the list parts, as they read back in the document's namespace. */
  datatype ListTags = ListTags(ol: string, li: string, a: string, span: string)

  function ListTagsIn(ns: Option<string>): ListTags {
    ListTags(QName(ns, "ol"), QName(ns, "li"), QName(ns, "a"), QName(ns, "span"))
  }

  /** A link to `href`, made relative to the nav document's directory `dir`. */
  function Anchor(t: ListTags, href: string, title: string, dir: string, cwd: string): (r: Result<Element>)
    ensures r.Ok? <==> href != ""
    ensures r.Ok? ==> r.value.tag == t.a && r.value.text == title && r.value.children == []
  {
    var rel :- Relpath(href, dir, cwd);
    Ok(El(t.a, map["href" := rel], title, []))
  }

  /** What heads a nested list: a link, or a plain `span` for a section without href. */
  function HeadingElement(t: ListTags, head: Heading, dir: string, cwd: string): (r: Result<Element>)
    ensures r.Ok? <==> !(head.Section? && head.href == "") ==> HeadHref(head) != ""
    ensures r.Ok? ==> r.value.text == HeadTitle(head) && r.value.children == []
    ensures r.Ok? ==> r.value.tag == (if head.Section? && head.href == "" then t.span else t.a)
  {
    match head
    case Section(title, href) =>
      if href != "" then Anchor(t, href, title, dir, cwd) else Ok(El(t.span, map[], title, []))
    case LinkHeading(href, title, _) => Anchor(t, href, title, dir, cwd)
    case DocHeading(d) => Anchor(t, d.fileName, d.title, dir, cwd)
  }

  /** `_create_section(parent, items)`: one `ol`, one `li` per entry. */
  function NavOl(t: ListTags, items: seq<Entry>, dir: string, cwd: string): Result<Element>
    decreases items, 2
  {
    var lis :- NavLis(t, items, dir, cwd);
    Ok(El(t.ol, map[], "", lis))
  }

  function NavLis(t: ListTags, items: seq<Entry>, dir: string, cwd: string): Result<seq<Element>>
    decreases items, 1
  {
    if items == [] then Ok([])
    else
      var li :- NavLi(t, items[0], dir, cwd);
      var rest :- NavLis(t, items[1..], dir, cwd);
      Ok([li] + rest)
  }

  /** A link or document becomes `li/a`; a heading `li` holds its link or span, then its own `ol`. */
  function NavLi(t: ListTags, e: Entry, dir: string, cwd: string): Result<Element>
    decreases e, 0
  {
    match e
    case Link(href, title, _) =>
      var a :- Anchor(t, href, title, dir, cwd);
      Ok(El(t.li, map[], "", [a]))
    case Document(d) =>
      var a :- Anchor(t, d.fileName, d.title, dir, cwd);
      Ok(El(t.li, map[], "", [a]))
    case Nest(head, children) =>
      var first :- HeadingElement(t, head, dir, cwd);
      var sub :- NavOl(t, children, dir, cwd);
      Ok(El(t.li, map[], "", [first, sub]))
  }

  /** EPUB 2 guide types renamed to the EPUB 3 landmark types they correspond to. */
  function LandmarkType(guideType: string): (r: string)
    ensures guideType == "notes" ==> r == "rearnotes"
    ensures guideType == "text" ==> r == "bodymatter"
    ensures guideType != "notes" && guideType != "text" ==> r == guideType
  {
    if guideType == "notes" then "rearnotes" else if guideType == "text" then "bodymatter" else guideType
  }

  /** The `epub:type` attribute's name. */
  const EPUB_TYPE := Clark(EPUB_NS, "type")

  /** A guide entry can be written as a landmark: it has a title and a non-empty href. */
  predicate Landmarkable(g: GuideEntry) {
    GuideTarget(g).Ok? && GuideTarget(g).value.0 != ""
  }

  /**
   * A landmark `li` for a guide entry: one link, of the entry's landmark type, to the entry's
   * href taken relative to the nav document's directory, with the entry's title.
   */
  predicate LandmarkLi(li: Element, g: GuideEntry, dir: string, cwd: string) {
    && GuideTarget(g).Ok?
    && |li.children| == 1
    && li.children[0].attrs.Keys == {EPUB_TYPE, "href"}
    && li.children[0].attrs[EPUB_TYPE] == LandmarkType(g.guideType)
    && Relpath(GuideTarget(g).value.0, dir, cwd) == Ok(li.children[0].attrs["href"])
    && li.children[0].text == GuideTarget(g).value.1
  }

  /** The `li/a` of one guide entry. */
  function LandmarkLink(ns: Option<string>, g: GuideEntry, dir: string, cwd: string): (r: Result<Element>)
    ensures r.Ok? <==> Landmarkable(g)
    ensures r.Ok? ==> LandmarkLi(r.value, g, dir, cwd)
    ensures GuideTarget(g).Err? ==> r == Err(GuideTarget(g).error)
    ensures GuideTarget(g).Ok? && !Landmarkable(g) ==> r == Err(ValueError("no path specified"))
  {
    var target :- GuideTarget(g);
    var rel :- Relpath(target.0, dir, cwd);
    Ok(El(QName(ns, "li"), map[], "", [El(QName(ns, "a"), map[EPUB_TYPE := LandmarkType(g.guideType), "href" := rel], target.1, [])]))
  }

  /** One landmark `li/a` per guide entry, typed with the landmark type of the entry's type. */
  function LandmarkItems(ns: Option<string>, guide: seq<GuideEntry>, dir: string, cwd: string): (r: Result<seq<Element>>)
    ensures r.Ok? <==> forall i :: 0 <= i < |guide| ==> Landmarkable(guide[i])
    ensures r.Ok? ==> |r.value| == |guide|
    ensures r.Ok? ==> forall i :: 0 <= i < |guide| ==> LandmarkLi(r.value[i], guide[i], dir, cwd)
  {
    MapResults(g => LandmarkLink(ns, g, dir, cwd), guide)
  }

  /** The landmarks nav, written only for a non-empty guide when the option asks for it. */
  function Landmarks(ns: Option<string>, guide: seq<GuideEntry>, options: Options, dir: string, cwd: string): (r: Result<seq<Element>>)
    ensures r.Ok? <==> (|guide| > 0 && options.epub3Landmark ==> forall i :: 0 <= i < |guide| ==> Landmarkable(guide[i]))
    ensures r.Ok? ==> (|r.value| == 1 <==> |guide| > 0 && options.epub3Landmark)
    ensures r.Ok? ==> |r.value| <= 1
    ensures r.Ok? && |r.value| == 1 ==> (
      && |r.value[0].children| == 2
      && r.value[0].children[0].text == options.landmarkTitle
      && |r.value[0].children[1].children| == |guide|
      && forall i :: 0 <= i < |guide| ==> LandmarkLi(r.value[0].children[1].children[i], guide[i], dir, cwd))
  {
    if |guide| > 0 && options.epub3Landmark then
      var lis :- LandmarkItems(ns, guide, dir, cwd);
      Ok([El(QName(ns, "nav"), map[EPUB_TYPE := "landmarks"], "", [
            El(QName(ns, "h2"), map[], options.landmarkTitle, []),
            El(QName(ns, "ol"), map[], "", lis)])])
    else Ok([])
  }

  /** A `link` element for each stylesheet link of the nav item. */
  function StyleLinks(ns: Option<string>, links: seq<map<string, string>>): (r: seq<Element>)
    ensures |r| == |links|
    ensures forall i :: 0 <= i < |links| ==> r[i].tag == QName(ns, "link") && r[i].children == []
    ensures forall i :: 0 <= i < |links| ==>
      && r[i].attrs.Keys == {"href", "rel", "type"}
      && r[i].attrs["href"] == (if "href" in links[i] then links[i]["href"] else "")
      && r[i].attrs["rel"] == "stylesheet" && r[i].attrs["type"] == "text/css"
  {
    seq(|links|, i requires 0 <= i < |links| =>
      El(QName(ns, "link"), map["href" := if "href" in links[i] then links[i]["href"] else "",
                                "rel" := "stylesheet", "type" := "text/css"], "", []))
  }

  /**
   * `_get_nav(item)`: the template's root, in the book's language, with a head (the title and
   * the item's stylesheet links) and a body holding the `toc` nav and the landmarks.
   */
  function NavDocument(template: Element, book: BookState, item: Item, options: Options, cwd: string): (r: Result<Element>)
    ensures r.Ok? ==> (
      && r.value.tag == template.tag
      && r.value.attrs == template.attrs["lang" := book.language][Clark(XML_NS, "lang") := book.language]
      && |r.value.children| == |template.children| + 2
      && r.value.children[..|template.children|] == template.children)
  {
    var ns := DefaultNs(template);
    var dir := Dirname(item.fileName);
    var ol :- NavOl(ListTagsIn(ns), book.toc, dir, cwd);
    var landmarks :- Landmarks(ns, book.guide, options, dir, cwd);
    Ok(template.(attrs := template.attrs["lang" := book.language][Clark(XML_NS, "lang") := book.language],
                 children := template.children + [NavHead(ns, book.title, item.links),
                                                  NavBody(ns, TocNav(ns, book.title, ol), landmarks)]))
  }

  /** The body: the `toc` nav, then the landmarks nav if there is one. */
  function NavBody(ns: Option<string>, tocNav: Element, landmarks: seq<Element>): (r: Element)
    ensures |r.children| > 0 && r.children[0] == tocNav
  {
    El(QName(ns, "body"), map[], "", [tocNav] + landmarks)
  }

  /** The head: the book's title, then the stylesheet links. */
  function NavHead(ns: Option<string>, title: string, links: seq<map<string, string>>): Element {
    El(QName(ns, "head"), map[], "", [El(QName(ns, "title"), map[], title, [])] + StyleLinks(ns, links))
  }

  /** The `toc` nav: a heading with the book's title, then the list. */
  function TocNav(ns: Option<string>, title: string, ol: Element): Element {
    El(QName(ns, "nav"), map[EPUB_TYPE := "toc", "id" := "id"], "", [El(QName(ns, "h2"), map[], title, []), ol])
  }

  // ---------------------------------------------------------------------------
  // Reading: `_parse_nav` and its `parse_list`

  /** A `nav` element with some attribute whose value is `toc`. */
  predicate IsTocNav(e: Element) {
    LocalName(e.tag) == "nav" && "toc" in e.attrs.Values
  }

  /** `//nav[@*='toc']`, first match: the first such element in document order. */
  function FirstTocNav(e: Element): (r: Option<Element>)
    ensures r.Some? ==> IsTocNav(r.value)
    ensures r == FirstOf(IsTocNav, Preorder(e))
    decreases e, 1
  {
    assert ([e] + PreorderIn(e.children))[1..] == PreorderIn(e.children);
    if IsTocNav(e) then Some(e) else FirstTocNavIn(e.children)
  }

  function FirstTocNavIn(es: seq<Element>): (r: Option<Element>)
    ensures r.Some? ==> IsTocNav(r.value)
    ensures r == FirstOf(IsTocNav, PreorderIn(es))
    decreases es, 0
  {
    if es == [] then None
    else
      FirstOfAppend(IsTocNav, Preorder(es[0]), PreorderIn(es[1..]));
      match FirstTocNav(es[0])
      case Some(n) => Some(n)
      case None => FirstTocNavIn(es[1..])
  }

  /** An `a` element's href resolved against the base directory; a missing href fails in `join`. */
  function Resolve(base: string, a: Element): (r: Result<string>)
    ensures r.Ok? <==> "href" in a.attrs
    ensures r.Ok? ==> r.value == Normpath(Join(base, a.attrs["href"]))
    ensures r.Err? ==> r.error.TypeError?
  {
    if "href" in a.attrs then Ok(Normpath(Join(base, a.attrs["href"])))
    else Err(TypeError("join() argument must be str, not 'NoneType'"))
  }

  /** `parse_list(ol)`: the entries of the `li` children, in order. */
  function NavList(ol: Element, base: string): Result<seq<Entry>>
    decreases ol, 2
  {
    NavItems(ol.children, base)
  }

  function NavItems(kids: seq<Element>, base: string): Result<seq<Entry>>
    decreases kids, 1
  {
    if kids == [] then Ok([])
    else
      var first :- if LocalName(kids[0].tag) == "li" then NavItem(kids[0], base) else Ok(None);
      var rest :- NavItems(kids[1..], base);
      Ok((if first.Some? then [first.value] else []) + rest)
  }

  /**
   * One `li`: with a nested `ol`, a section titled by the text of its first child (with the
   * href of its `a`, if any); else with an `a`, a link; else nothing.
   */
  function NavItem(li: Element, base: string): Result<Option<Entry>>
    decreases li, 0
  {
    match FindLocal(li.children, "ol")
    case Some(sub) =>
      var title := li.children[0].text;
      var children :- NavList(sub, base);
      (match FindLocal(li.children, "a")
       case Some(a) =>
         var href :- Resolve(base, a);
         Ok(Some(Nest(Section(title, href), children)))
       case None => Ok(Some(Nest(Section(title, ""), children))))
    case None =>
      match FindLocal(li.children, "a")
      case Some(a) =>
        var href :- Resolve(base, a);
        Ok(Some(Link(href, a.text, None)))
      case None => Ok(None)
  }

  /** `_parse_nav(data, base)`: the first `ol` of the `toc` nav. */
  function ParseNav(root: Element, base: string): Result<seq<Entry>> {
    var nav :- match FirstTocNav(root)
               case None => Err(IndexError("list index out of range"))
               case Some(n) => Ok(n);
    var ol :- match FindLocal(nav.children, "ol")
              case None => Err(AttributeError("'NoneType' object has no attribute 'findall'"))
              case Some(o) => Ok(o);
    NavList(ol, base)
  }

  // ---------------------------------------------------------------------------
  // When writing fails

  /** Some entry is linked with an empty href, which `relpath` refuses. */
  predicate AnchorMissing(toc: seq<Entry>)
    decreases toc, 1
  {
    exists i :: 0 <= i < |toc| && EntryAnchorMissing(toc[i])
  }

  predicate EntryAnchorMissing(e: Entry)
    decreases e, 0
  {
    match e
    case Link(href, _, _) => href == ""
    case Document(d) => d.fileName == ""
    case Nest(head, children) =>
      (!(head.Section? && head.href == "") && HeadHref(head) == "") || AnchorMissing(children)
  }

  lemma {:induction false} NavOlFails(t: ListTags, items: seq<Entry>, dir: string, cwd: string)
    ensures NavOl(t, items, dir, cwd).Ok? <==> !AnchorMissing(items)
    decreases items, 2
  {
    NavLisFails(t, items, dir, cwd);
  }

  lemma {:induction false} NavLisFails(t: ListTags, items: seq<Entry>, dir: string, cwd: string)
    ensures NavLis(t, items, dir, cwd).Ok? <==> !AnchorMissing(items)
    decreases items, 1
  {
    if items != [] {
      NavLiFails(t, items[0], dir, cwd);
      NavLisFails(t, items[1..], dir, cwd);
      if AnchorMissing(items[1..]) {
        var j :| 0 <= j < |items[1..]| && EntryAnchorMissing(items[1..][j]);
        assert items[1..][j] == items[j + 1];
      }
      if AnchorMissing(items) && !EntryAnchorMissing(items[0]) {
        var j :| 0 <= j < |items| && EntryAnchorMissing(items[j]);
        assert items[j] == items[1..][j - 1];
      }
    }
  }

  lemma {:induction false} NavLiFails(t: ListTags, e: Entry, dir: string, cwd: string)
    ensures NavLi(t, e, dir, cwd).Ok? <==> !EntryAnchorMissing(e)
    decreases e, 0
  {
    match e
    case Nest(head, children) => NavOlFails(t, children, dir, cwd);
    case _ =>
  }

  /**
   * Writing the nav document fails exactly when some table-of-contents entry links to an empty
   * href, or (when landmarks are written) some guide entry does, or holds an item that is not
   * a document and so has no title.
   */
  lemma NavDocumentFails(template: Element, book: BookState, item: Item, options: Options, cwd: string)
    ensures NavDocument(template, book, item, options, cwd).Ok? <==>
      && !AnchorMissing(book.toc)
      && (|book.guide| > 0 && options.epub3Landmark ==>
            forall i :: 0 <= i < |book.guide| ==> Landmarkable(book.guide[i]))
  {
    NavOlFails(ListTagsIn(DefaultNs(template)), book.toc, Dirname(item.fileName), cwd);
  }

  // ---------------------------------------------------------------------------
  // Reading back what was written

  /** An href the writer can make relative and the reader can resolve back. */
  predicate Target(href: string) {
    href != "" && Plain(href)
  }

  /** Every href the writer links to is a plain relative path. */
  predicate HrefsPlain(toc: seq<Entry>)
    decreases toc, 1
  {
    forall i :: 0 <= i < |toc| ==> EntryHrefsPlain(toc[i])
  }

  predicate EntryHrefsPlain(e: Entry)
    decreases e, 0
  {
    match e
    case Link(href, _, _) => Target(href)
    case Document(d) => Target(d.fileName)
    case Nest(head, children) =>
      ((head.Section? && head.href == "") || Target(HeadHref(head))) && HrefsPlain(children)
  }

  /**
   * What a table of contents reads back as from a nav document: links keep their href and
   * title and lose their uid, documents become links to their file, and every heading becomes
   * a section with the heading's title and target.
   */
  function NavCanon(toc: seq<Entry>): (r: seq<Entry>)
    ensures |r| == |toc|
    decreases toc, 1
  {
    if toc == [] then [] else [NavCanonEntry(toc[0])] + NavCanon(toc[1..])
  }

  function NavCanonEntry(e: Entry): Entry
    decreases e, 0
  {
    match e
    case Link(href, title, _) => Link(href, title, None)
    case Document(d) => Link(d.fileName, d.title, None)
    case Nest(head, children) => Nest(Section(HeadTitle(head), HeadHref(head)), NavCanon(children))
  }

  /** Tags that read back, by local name, as the list parts they stand for. */
  predicate TagsRead(t: ListTags) {
    LocalName(t.ol) == "ol" && LocalName(t.li) == "li" && LocalName(t.a) == "a" && LocalName(t.span) == "span"
  }

  lemma ListTagsRead(ns: Option<string>)
    ensures TagsRead(ListTagsIn(ns))
  {
    var t := ListTagsIn(ns);
    assert LocalName(t.ol) == "ol" by { LocalNameQName(ns, "ol"); }
    assert LocalName(t.li) == "li" by { LocalNameQName(ns, "li"); }
    assert LocalName(t.a) == "a" by { LocalNameQName(ns, "a"); }
    assert LocalName(t.span) == "span" by { LocalNameQName(ns, "span"); }
  }

  /** A written link resolves back to its target. */
  lemma AnchorReadBack(t: ListTags, href: string, title: string, dir: string, cwd: string)
    requires Target(href) && (dir == "" || Plain(dir)) && AbsoluteDir(cwd)
    ensures Anchor(t, href, title, dir, cwd).Ok?
    ensures Resolve(dir, Anchor(t, href, title, dir, cwd).value) == Ok(href)
  {
    RelpathRoundTrip(href, dir, cwd);
  }

  /** An `li` holding just a link reads as that link. */
  lemma LeafItem(li: Element, a: Element, href: string, dir: string)
    requires li.children == [a] && LocalName(a.tag) == "a" && Resolve(dir, a) == Ok(href)
    ensures NavItem(li, dir) == Ok(Some(Link(href, a.text, None)))
  {
    assert FindLocal(li.children, "ol").None? by {
      assert li.children[1..] == [];
    }
    assert FindLocal(li.children, "a") == Some(a);
    var href' := Normpath(Join(dir, a.attrs["href"]));
    assert href' == href;
  }

  /** An `li` holding a link or span and then a list reads as a section over that list. */
  lemma NestItem(li: Element, first: Element, ol: Element, href: string, children: seq<Entry>, dir: string)
    requires li.children == [first, ol] && LocalName(ol.tag) == "ol" && NavList(ol, dir) == Ok(children)
    requires LocalName(first.tag) == "a" ==> Resolve(dir, first) == Ok(href)
    requires LocalName(first.tag) != "a" ==> LocalName(first.tag) != "ol" && href == ""
    ensures NavItem(li, dir) == Ok(Some(Nest(Section(first.text, href), children)))
  {
    assert FindLocal(li.children, "ol") == Some(ol);
    if LocalName(first.tag) == "a" {
      assert FindLocal(li.children, "a") == Some(first);
    } else {
      assert FindLocal(li.children, "a").None?;
    }
  }

  lemma {:induction false} NavOlReadBack(t: ListTags, items: seq<Entry>, dir: string, cwd: string)
    requires TagsRead(t)
    requires HrefsPlain(items) && (dir == "" || Plain(dir)) && AbsoluteDir(cwd)
    ensures NavOl(t, items, dir, cwd).Ok?
    ensures LocalName(NavOl(t, items, dir, cwd).value.tag) == "ol"
    ensures NavList(NavOl(t, items, dir, cwd).value, dir) == Ok(NavCanon(items))
    decreases items, 2
  {
    NavLisReadBack(t, items, dir, cwd);
  }

  lemma {:induction false} NavLisReadBack(t: ListTags, items: seq<Entry>, dir: string, cwd: string)
    requires TagsRead(t)
    requires HrefsPlain(items) && (dir == "" || Plain(dir)) && AbsoluteDir(cwd)
    ensures NavLis(t, items, dir, cwd).Ok?
    ensures NavItems(NavLis(t, items, dir, cwd).value, dir) == Ok(NavCanon(items))
    decreases items, 1
  {
    if items != [] {
      NavLiReadBack(t, items[0], dir, cwd);
      assert HrefsPlain(items[1..]) by {
        forall i | 0 <= i < |items[1..]| ensures EntryHrefsPlain(items[1..][i]) {
          assert items[1..][i] == items[i + 1];
        }
      }
      NavLisReadBack(t, items[1..], dir, cwd);
      var li := NavLi(t, items[0], dir, cwd).value;
      var rest := NavLis(t, items[1..], dir, cwd).value;
      assert NavLis(t, items, dir, cwd).value == [li] + rest;
      assert ([li] + rest)[0] == li;
      assert ([li] + rest)[1..] == rest;
    }
  }

  lemma {:induction false} NavLiReadBack(t: ListTags, e: Entry, dir: string, cwd: string)
    requires TagsRead(t)
    requires EntryHrefsPlain(e) && (dir == "" || Plain(dir)) && AbsoluteDir(cwd)
    ensures NavLi(t, e, dir, cwd).Ok?
    ensures LocalName(NavLi(t, e, dir, cwd).value.tag) == "li"
    ensures NavItem(NavLi(t, e, dir, cwd).value, dir) == Ok(Some(NavCanonEntry(e)))
    decreases e, 0
  {
    match e
    case Link(href, title, _) =>
      AnchorReadBack(t, href, title, dir, cwd);
      var a := Anchor(t, href, title, dir, cwd).value;
      LeafItem(NavLi(t, e, dir, cwd).value, a, href, dir);
    case Document(d) =>
      AnchorReadBack(t, d.fileName, d.title, dir, cwd);
      var a := Anchor(t, d.fileName, d.title, dir, cwd).value;
      LeafItem(NavLi(t, e, dir, cwd).value, a, d.fileName, dir);
    case Nest(head, children) =>
      if !(head.Section? && head.href == "") {
        AnchorReadBack(t, HeadHref(head), HeadTitle(head), dir, cwd);
      }
      NavOlReadBack(t, children, dir, cwd);
      var first := HeadingElement(t, head, dir, cwd).value;
      var ol := NavOl(t, children, dir, cwd).value;
      NestItem(NavLi(t, e, dir, cwd).value, first, ol, HeadHref(head), NavCanon(children), dir);
  }

  lemma {:induction false} FirstTocNavInAppend(a: seq<Element>, b: seq<Element>)
    ensures FirstTocNavIn(a + b) == if FirstTocNavIn(a).Some? then FirstTocNavIn(a) else FirstTocNavIn(b)
  {
    if a == [] {
      assert a + b == b;
    } else {
      assert (a + b)[0] == a[0];
      assert (a + b)[1..] == a[1..] + b;
      FirstTocNavInAppend(a[1..], b);
    }
  }

  /** Leaves that are not `nav` elements hold no `toc` nav. */
  lemma {:induction false} NoTocNav(es: seq<Element>)
    requires forall i :: 0 <= i < |es| ==> LocalName(es[i].tag) != "nav" && es[i].children == []
    ensures FirstTocNavIn(es).None?
  {
    if es != [] {
      assert FirstTocNavIn(es[0].children).None?;
      NoTocNav(es[1..]);
    }
  }

  lemma HeadHoldsNoNav(ns: Option<string>, title: string, links: seq<map<string, string>>)
    ensures FirstTocNav(NavHead(ns, title, links)).None?
  {
    HeadPartsNotNav(ns);
    NoTocNavBefore(El(QName(ns, "title"), map[], title, []), StyleLinks(ns, links));
  }

  lemma HeadPartsNotNav(ns: Option<string>)
    ensures LocalName(QName(ns, "head")) != "nav"
    ensures LocalName(QName(ns, "title")) != "nav"
    ensures LocalName(QName(ns, "link")) != "nav"
  {
    LocalNameQName(ns, "head");
    LocalNameQName(ns, "title");
    LocalNameQName(ns, "link");
  }

  lemma NoTocNavBefore(first: Element, rest: seq<Element>)
    requires LocalName(first.tag) != "nav" && first.children == []
    requires forall i :: 0 <= i < |rest| ==> LocalName(rest[i].tag) != "nav" && rest[i].children == []
    ensures FirstTocNavIn([first] + rest).None?
  {
    var es := [first] + rest;
    forall i | 0 <= i < |es|
      ensures LocalName(es[i].tag) != "nav" && es[i].children == []
    {
      if i > 0 {
        assert es[i] == rest[i - 1];
      }
    }
    NoTocNav(es);
  }

  lemma TocNavFound(ns: Option<string>, title: string, ol: Element)
    requires LocalName(ol.tag) == "ol"
    ensures IsTocNav(TocNav(ns, title, ol))
    ensures FindLocal(TocNav(ns, title, ol).children, "ol") == Some(ol)
  {
    TocNavTyped(ns, title, ol);
    TocNavList(ns, title, ol);
  }

  lemma TocNavTyped(ns: Option<string>, title: string, ol: Element)
    ensures IsTocNav(TocNav(ns, title, ol))
  {
    var nav := TocNav(ns, title, ol);
    assert LocalName(nav.tag) == "nav" by { LocalNameQName(ns, "nav"); }
    assert EPUB_TYPE[0] == '{';
    assert nav.attrs[EPUB_TYPE] == "toc";
  }

  lemma TocNavList(ns: Option<string>, title: string, ol: Element)
    requires LocalName(ol.tag) == "ol"
    ensures FindLocal(TocNav(ns, title, ol).children, "ol") == Some(ol)
  {
    var kids := TocNav(ns, title, ol).children;
    assert LocalName(kids[0].tag) == "h2" by { LocalNameQName(ns, "h2"); }
    assert kids[1..] == [ol];
  }

  /** The first `toc` nav of a document made of a nav-free template, a nav-free head and a body that opens with a `toc` nav. */
  lemma FirstTocNavOf(doc: Element, template: Element, head: Element, body: Element, nav: Element)
    requires LocalName(doc.tag) != "nav" && doc.children == template.children + [head, body]
    requires FirstTocNavIn(template.children).None? && FirstTocNav(head).None?
    requires LocalName(body.tag) != "nav" && |body.children| > 0 && body.children[0] == nav && IsTocNav(nav)
    ensures FirstTocNav(doc) == Some(nav)
  {
    assert FirstTocNav(nav) == Some(nav);
    assert FirstTocNavIn(body.children) == Some(nav);
    assert FirstTocNav(body) == Some(nav);
    assert FirstTocNavIn([body]) == Some(nav);
    assert FirstTocNavIn([head, body]) == Some(nav) by {
      assert [head, body][1..] == [body];
    }
    FirstTocNavInAppend(template.children, [head, body]);
  }

  lemma BodyNotNav(ns: Option<string>, tocNav: Element, landmarks: seq<Element>)
    ensures LocalName(NavBody(ns, tocNav, landmarks).tag) != "nav"
  {
    LocalNameQName(ns, "body");
  }

  /** A written nav document is the template with the head and body after its own children. */
  lemma NavDocumentShape(template: Element, book: BookState, item: Item, options: Options, cwd: string)
    requires NavOl(ListTagsIn(DefaultNs(template)), book.toc, Dirname(item.fileName), cwd).Ok?
    requires Landmarks(DefaultNs(template), book.guide, options, Dirname(item.fileName), cwd).Ok?
    ensures var ns := DefaultNs(template);
            var dir := Dirname(item.fileName);
            && NavDocument(template, book, item, options, cwd).Ok?
            && NavDocument(template, book, item, options, cwd).value.children ==
                 template.children + [NavHead(ns, book.title, item.links),
                                      NavBody(ns, TocNav(ns, book.title, NavOl(ListTagsIn(ns), book.toc, dir, cwd).value),
                                              Landmarks(ns, book.guide, options, dir, cwd).value)]
  {
  }

  /**
   * The nav document the writer makes reads back as the book's table of contents, up to
   * `NavCanon`, when every linked href is a plain relative path and the template holds no
   * `toc` nav of its own.
   */
  lemma NavRoundTrip(template: Element, book: BookState, item: Item, options: Options, cwd: string)
    requires LocalName(template.tag) != "nav" && FirstTocNavIn(template.children).None?
    requires HrefsPlain(book.toc)
    requires Dirname(item.fileName) == "" || Plain(Dirname(item.fileName))
    requires AbsoluteDir(cwd)
    requires |book.guide| > 0 && options.epub3Landmark ==>
      forall i :: 0 <= i < |book.guide| ==> Landmarkable(book.guide[i])
    ensures NavDocument(template, book, item, options, cwd).Ok?
    ensures ParseNav(NavDocument(template, book, item, options, cwd).value, Dirname(item.fileName)) == Ok(NavCanon(book.toc))
  {
    var ns := DefaultNs(template);
    var dir := Dirname(item.fileName);
    ListTagsRead(ns);
    NavOlReadBack(ListTagsIn(ns), book.toc, dir, cwd);
    var landmarks := Landmarks(ns, book.guide, options, dir, cwd);
    assert landmarks.Ok?;
    NavDocumentShape(template, book, item, options, cwd);
    var doc := NavDocument(template, book, item, options, cwd).value;
    var ol := NavOl(ListTagsIn(ns), book.toc, dir, cwd).value;
    var nav := TocNav(ns, book.title, ol);
    var body := NavBody(ns, nav, landmarks.value);
    HeadHoldsNoNav(ns, book.title, item.links);
    TocNavFound(ns, book.title, ol);
    BodyNotNav(ns, nav, landmarks.value);
    FirstTocNavOf(doc, template, NavHead(ns, book.title, item.links), body, nav);
    ParseNavAt(doc, nav, ol, dir);
  }

  lemma ParseNavAt(doc: Element, nav: Element, ol: Element, base: string)
    requires FirstTocNav(doc) == Some(nav) && FindLocal(nav.children, "ol") == Some(ol)
    ensures ParseNav(doc, base) == NavList(ol, base)
  {
  }
}

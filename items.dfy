/**
 * The items of a book: `EpubItem` and its subclasses, as one value type whose `kind`
 * says which class built it.
 */
module Items {
  import opened Wrappers
  import opened Strings
  import opened Xml

  /** The class of an item. */
  datatype Kind = Generic | Ncx | Cover | Html | CoverHtml | Nav | Image

  /** `isinstance(item, EpubHtml)`: documents, the cover page and the navigation document. */
  predicate IsHtml(k: Kind) {
    k == Html || k == CoverHtml || k == Nav
  }

  /** The name of the class an item of each kind is an instance of. */
  function ClassName(k: Kind): string {
    match k
    case Generic => "EpubItem"
    case Ncx => "EpubNcx"
    case Cover => "EpubCover"
    case Html => "EpubHtml"
    case CoverHtml => "EpubCoverHtml"
    case Nav => "EpubNav"
    case Image => "EpubImage"
  }

  /**
   * An item. `title`, `lang`, `direction`, `links` and `properties` belong to documents
   * and `imageName` to the cover page; other kinds leave them at their defaults.
   * A missing id is the empty string.
   */
  datatype Item = Item(
    kind: Kind,
    id: string,
    fileName: string,
    mediaType: string,
    content: Blob,
    isLinear: bool,
    manifest: bool,
    title: string,
    lang: Option<string>,
    direction: Option<string>,
    links: seq<map<string, string>>,
    properties: seq<string>,
    imageName: string)

  const EMPTY: Blob := Bytes([])

  /** `EpubItem(uid, file_name, media_type, content, manifest)`. */
  function NewItem(uid: string := "", fileName: string := "", mediaType: string := "",
                   content: Blob := EMPTY, manifest: bool := true): Item {
    Item(Generic, uid, fileName, mediaType, content, true, manifest, "", None, None, [], [], "")
  }

  /** `EpubNcx(uid, file_name)`. */
  function NewNcx(uid: string := "ncx", fileName: string := "toc.ncx"): Item {
    NewItem(uid, fileName, "application/x-dtbncx+xml").(kind := Ncx)
  }

  /** `EpubCover(uid, file_name)`. */
  function NewCover(uid: string := "cover-img", fileName: string := ""): Item {
    NewItem(uid, fileName).(kind := Cover)
  }

  /** `EpubHtml(uid, file_name, media_type, content, title, lang, direction)`. */
  function NewHtml(uid: string := "", fileName: string := "", mediaType: string := "", content: Blob := EMPTY,
                   title: string := "", lang: Option<string> := None, direction: Option<string> := None): Item {
    NewItem(uid, fileName, mediaType, content).(kind := Html, title := title, lang := lang, direction := direction)
  }

  /** `EpubCoverHtml(uid, file_name, image_name, title)`: a document outside the linear reading order. */
  function NewCoverHtml(uid: string := "cover", fileName: string := "cover.xhtml", imageName: string := "",
                        title: string := "Cover"): Item {
    NewHtml(uid, fileName, "", EMPTY, title).(kind := CoverHtml, imageName := imageName, isLinear := false)
  }

  /** `EpubNav(uid, file_name, media_type)`. */
  function NewNav(uid: string := "nav", fileName: string := "nav.xhtml",
                  mediaType: string := "application/xhtml+xml"): Item {
    NewHtml(uid, fileName, mediaType).(kind := Nav)
  }

  /** `EpubImage()`. */
  function NewImage(): Item {
    NewItem().(kind := Image)
  }

  /** The defaults the constructors give. */
  lemma ConstructorDefaults()
    ensures NewNcx().id == "ncx" && NewNcx().fileName == "toc.ncx" && NewNcx().mediaType == "application/x-dtbncx+xml"
    ensures NewCover().id == "cover-img" && NewCover().mediaType == ""
    ensures NewCoverHtml().id == "cover" && NewCoverHtml().fileName == "cover.xhtml" && NewCoverHtml().title == "Cover"
    ensures NewNav().id == "nav" && NewNav().fileName == "nav.xhtml" && NewNav().mediaType == "application/xhtml+xml"
    ensures NewImage().id == "" && NewHtml().id == ""
    ensures !NewCoverHtml().isLinear
    ensures NewItem().isLinear && NewHtml().isLinear && NewNav().isLinear && NewImage().isLinear
    ensures NewItem().manifest && NewHtml().manifest && NewCoverHtml().manifest && NewNav().manifest
    ensures IsHtml(NewHtml().kind) && IsHtml(NewCoverHtml().kind) && IsHtml(NewNav().kind)
    ensures !IsHtml(NewItem().kind) && !IsHtml(NewNcx().kind) && !IsHtml(NewCover().kind) && !IsHtml(NewImage().kind)
  {
  }

  // ---------------------------------------------------------------------------
  // Item types

  /** The item types of the library (`ITEM_UNKNOWN` ... `ITEM_DOCUMENT`). */
  const ITEM_UNKNOWN: int := 0
  const ITEM_IMAGE: int := 1
  const ITEM_STYLE: int := 2
  const ITEM_SCRIPT: int := 3
  const ITEM_DOCUMENT: int := 9

  /** The position of the last `c` in `s`, or -1: `s.rfind(c)`. */
  function RFind(s: string, c: char): (k: int)
    ensures -1 <= k < |s|
    ensures k >= 0 ==> s[k] == c
    ensures forall i :: k < i < |s| ==> s[i] != c
  {
    if s == [] then -1
    else if s[|s| - 1] == c then |s| - 1
    else RFind(s[..|s| - 1], c)
  }

  /**
   * The extension `posixpath.splitext` gives: from the last '.' of the last segment, unless
   * every character of the segment before that dot is a dot too.
   */
  function Extension(p: string): (ext: string)
    ensures ext == "" || (ext[0] == '.' && '.' !in ext[1..] && '/' !in ext)
    ensures exists k :: 0 <= k <= |p| && ext == p[k..]
  {
    var sep := RFind(p, '/');
    var dot := RFind(p, '.');
    if dot > sep && exists i :: sep < i < dot && p[i] != '.' then
      assert p[dot..][1..] == p[dot + 1..];
      p[dot..]
    else
      assert "" == p[|p|..];
      ""
  }

  /**
   * The type the extension table gives an extension: the key of the first entry whose list holds
   * it, in the table's order, or `ITEM_UNKNOWN`.
   */
  function TypeOfExtension(ext: string, table: seq<(int, seq<string>)>): (t: int)
    ensures (forall i :: 0 <= i < |table| ==> ext !in table[i].1) ==> t == ITEM_UNKNOWN
    ensures forall i :: 0 <= i < |table| && ext in table[i].1 && (forall j :: 0 <= j < i ==> ext !in table[j].1) ==>
      t == table[i].0
  {
    if table == [] then ITEM_UNKNOWN
    else if ext in table[0].1 then table[0].0
    else
      var t := TypeOfExtension(ext, table[1..]);
      assert forall i :: 1 <= i < |table| ==> table[i] == table[1..][i - 1];
      t
  }

  /**
   * `get_type()`: documents are always `ITEM_DOCUMENT` and images `ITEM_IMAGE`; any other
   * item takes the type of its lower-cased extension from the extension table.
   */
  function GetType(item: Item, table: seq<(int, seq<string>)>): int {
    if IsHtml(item.kind) then ITEM_DOCUMENT
    else if item.kind == Image then ITEM_IMAGE
    else TypeOfExtension(LowerAscii(Extension(item.fileName)), table)
  }

  /** Documents and images have a fixed type; other items are typed by their file name alone. */
  lemma GetTypeByKind(item: Item, other: Item, table: seq<(int, seq<string>)>)
    ensures IsHtml(item.kind) ==> GetType(item, table) == ITEM_DOCUMENT
    ensures item.kind == Image ==> GetType(item, table) == ITEM_IMAGE
    ensures (!IsHtml(item.kind) && item.kind != Image && !IsHtml(other.kind) && other.kind != Image
             && item.fileName == other.fileName) ==> GetType(item, table) == GetType(other, table)
  {
  }

  /** `is_chapter()`: true for a plain document, false for the cover page and the navigation document. */
  function IsChapter(item: Item): (r: bool)
    requires IsHtml(item.kind)
    ensures r <==> item.kind == Html
  {
    match item.kind
    case Html => true
    case CoverHtml => false
    case Nav => false
  }

  /** A non-empty content, as Python's truth test on bytes sees it. */
  predicate Truthy(b: Blob) {
    b.Doc? || |b.data| > 0
  }

  /** `EpubItem.get_content(default)`: the content, or `default` when the content is empty. */
  function GetContent(item: Item, default: Blob): (r: Blob)
    ensures Truthy(item.content) ==> r == item.content
    ensures !Truthy(item.content) ==> r == default
  {
    if Truthy(item.content) then item.content else default
  }

  // ---------------------------------------------------------------------------
  // Links of a document

  /** `link.get('type', '')`. */
  function LinkType(link: map<string, string>): string {
    if "type" in link then link["type"] else ""
  }

  /** `add_link(**kwgs)`: the link goes at the end of the document's links. */
  function AddLink(doc: Item, link: map<string, string>): Item
    requires IsHtml(doc.kind)
  {
    doc.(links := doc.links + [link])
  }

  /** `get_links_of_type(link_type)`: the document's links of that type, in order. */
  function LinksOfType(links: seq<map<string, string>>, linkType: string): (r: seq<map<string, string>>)
    ensures forall i :: 0 <= i < |r| ==> LinkType(r[i]) == linkType && r[i] in links
    ensures forall l :: l in links && LinkType(l) == linkType ==> l in r
  {
    if links == [] then []
    else (if LinkType(links[0]) == linkType then [links[0]] else []) + LinksOfType(links[1..], linkType)
  }

  lemma {:induction false} LinksOfTypeAppend(a: seq<map<string, string>>, b: seq<map<string, string>>, linkType: string)
    ensures LinksOfType(a + b, linkType) == LinksOfType(a, linkType) + LinksOfType(b, linkType)
  {
    if a == [] {
      assert a + b == b;
    } else {
      assert (a + b)[1..] == a[1..] + b;
      LinksOfTypeAppend(a[1..], b, linkType);
    }
  }

  /** A link added to a document is the last of its type and leaves the other types' lists unchanged. */
  lemma AddLinkOfType(doc: Item, link: map<string, string>, linkType: string)
    requires IsHtml(doc.kind)
    ensures LinksOfType(AddLink(doc, link).links, linkType) ==
      LinksOfType(doc.links, linkType) + (if LinkType(link) == linkType then [link] else [])
  {
    LinksOfTypeAppend(doc.links, [link], linkType);
  }

  /** The link `add_item` adds for a style sheet. */
  function StyleLink(name: string): map<string, string> {
    map["href" := name, "rel" := "stylesheet", "type" := "text/css"]
  }

  /** The link `add_item` adds for a script. */
  function ScriptLink(name: string): map<string, string> {
    map["src" := name, "type" := "text/javascript"]
  }

  /** `EpubHtml.add_item(item)`: links a style sheet or a script into the document; other items add nothing. */
  function AttachItem(doc: Item, item: Item, table: seq<(int, seq<string>)>): Item
    requires IsHtml(doc.kind)
  {
    var t := GetType(item, table);
    if t == ITEM_STYLE then AddLink(doc, StyleLink(item.fileName))
    else if t == ITEM_SCRIPT then AddLink(doc, ScriptLink(item.fileName))
    else doc
  }

  /**
   * Attaching a style sheet makes its file the last `text/css` link of the document;
   * attaching a script makes it the last `text/javascript` one; anything else changes nothing.
   */
  lemma AttachItemLinks(doc: Item, item: Item, table: seq<(int, seq<string>)>)
    requires IsHtml(doc.kind)
    ensures var r := AttachItem(doc, item, table);
      var t := GetType(item, table);
      && IsHtml(r.kind)
      && (t == ITEM_STYLE ==> LinksOfType(r.links, "text/css") == LinksOfType(doc.links, "text/css") + [StyleLink(item.fileName)]
                              && LinksOfType(r.links, "text/javascript") == LinksOfType(doc.links, "text/javascript"))
      && (t == ITEM_SCRIPT ==> LinksOfType(r.links, "text/javascript") == LinksOfType(doc.links, "text/javascript") + [ScriptLink(item.fileName)]
                               && LinksOfType(r.links, "text/css") == LinksOfType(doc.links, "text/css"))
      && (t != ITEM_STYLE && t != ITEM_SCRIPT ==> r == doc)
  {
    var t := GetType(item, table);
    if t == ITEM_STYLE {
      AddLinkOfType(doc, StyleLink(item.fileName), "text/css");
      AddLinkOfType(doc, StyleLink(item.fileName), "text/javascript");
    } else if t == ITEM_SCRIPT {
      AddLinkOfType(doc, ScriptLink(item.fileName), "text/css");
      AddLinkOfType(doc, ScriptLink(item.fileName), "text/javascript");
    }
  }
}

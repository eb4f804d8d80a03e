/**
 * `EpubBook`: the metadata store, the items, the reading order (spine), the guide, the
 * table of contents and the templates, changed in place by the book's methods.
 */
module Book {
  import opened Wrappers
  import opened Strings
  import opened Dicts
  import opened Xml
  import opened Metadata
  import opened Items
  import opened Toc

  // ---------------------------------------------------------------------------
  // Spine, guide and the state of a book

  /** A spine entry names an item, or the id of one. */
  datatype SpineRef = ItemRef(item: Item) | IdRef(id: string)

  /** A spine entry: alone (`linear` is `None`) or in a tuple with a linear flag. */
  datatype SpineEntry = SpineEntry(ref: SpineRef, linear: Option<string>)

  /** A guide entry: a dictionary holding an item, or one holding an href and a title. */
  datatype GuideEntry =
    | ItemGuide(item: Item, guideType: string)
    | HrefGuide(href: string, title: string, guideType: string)

  /**
   * The href and title a guide entry is written with: its item's file name and title, or its
   * own. Only documents have a title; looking it up on any other item raises.
   */
  function GuideTarget(g: GuideEntry): (r: Result<(string, string)>)
    ensures g.HrefGuide? ==> r == Ok((g.href, g.title))
    ensures g.ItemGuide? ==> (r.Ok? <==> IsHtml(g.item.kind))
    ensures g.ItemGuide? && r.Ok? ==> r.value == (g.item.fileName, g.item.title)
    ensures r.Err? ==> r.error.AttributeError?
  {
    match g
    case ItemGuide(item, _) =>
      if IsHtml(item.kind) then Ok((item.fileName, item.title))
      else Err(AttributeError("'" + ClassName(item.kind) + "' object has no attribute 'title'"))
    case HrefGuide(href, title, _) => Ok((href, title))
  }

  /** Everything a book holds, as one value. */
  datatype BookState = BookState(
    metadata: Store,
    items: seq<Item>,
    spine: seq<SpineEntry>,
    guide: seq<GuideEntry>,
    toc: seq<Entry>,
    bindings: seq<map<string, string>>,
    identifierId: string,
    folderName: string,
    idHtml: nat,
    idImage: nat,
    idStatic: nat,
    title: string,
    language: string,
    direction: Option<string>,
    templates: map<string, Blob>,
    prefixes: seq<string>,
    namespaces: Dict<string, string>,
    uid: string,
    version: Option<string>)

  // ---------------------------------------------------------------------------
  // Templates

  const NCX_TEMPLATE: Blob :=
    Doc(Element(Clark(DAISY_NS, "ncx"), None, [(None, DAISY_NS)], map["version" := "2005-1"], "", []))

  const NAV_TEMPLATE: Blob :=
    Doc(Element(Clark(XHTML_NS, "html"), None, [(None, XHTML_NS), (Some("epub"), EPUB_NS)], map[], "", []))

  const CHAPTER_TEMPLATE: Blob :=
    Doc(Element(Clark(XHTML_NS, "html"), None, [(None, XHTML_NS), (Some("epub"), EPUB_NS)],
                map[Clark(EPUB_NS, "prefix") := "z3998: http://www.daisy.org/z3998/2012/vocab/structure/#"], "", []))

  const COVER_TEMPLATE: Blob :=
    var ns := [(None, XHTML_NS), (Some("epub"), EPUB_NS)];
    var style := "body { margin: 0em; padding: 0em; }\n    img { max-width: 100%; max-height: 100%; }";
    Doc(Element(Clark(XHTML_NS, "html"), None, ns, map["lang" := "en", Clark(XML_NS, "lang") := "en"], "", [
      Element(Clark(XHTML_NS, "head"), None, ns, map[], "", [
        Element(Clark(XHTML_NS, "style"), None, ns, map[], style, [])]),
      Element(Clark(XHTML_NS, "body"), None, ns, map[], "", [
        Element(Clark(XHTML_NS, "img"), None, ns, map["src" := "", "alt" := ""], "", [])])]))

  const DEFAULT_TEMPLATES: map<string, Blob> :=
    map["ncx" := NCX_TEMPLATE, "nav" := NAV_TEMPLATE, "chapter" := CHAPTER_TEMPLATE, "cover" := COVER_TEMPLATE]

  /**
   * `parse_string(book.get_template(name))`: the root of the template; an unknown name or a
   * template that is not an XML document fails.
   */
  function TemplateRoot(templates: map<string, Blob>, name: string): (r: Result<Element>)
    ensures r.Ok? <==> name in templates && templates[name].Doc?
    ensures r.Ok? ==> r.value == templates[name].root
  {
    if name in templates then Parse(templates[name]) else Err(TypeError("no template " + name))
  }

  /** The value of the generator entry: the library's name and version 0.15.0. */
  const GENERATOR := "Ebook-lib 0.15.0"

  // ---------------------------------------------------------------------------
  // The state `reset` leaves

  /**
   * The state `reset()` leaves, given the identifier it draws at random and the EPUB version,
   * which `reset` does not touch.
   */
  function ResetState(uuid: string, version: Option<string>): BookState {
    var generated := AddMeta([], Some("OPF"), "generator",
                             MetaEntry("", Some(map["name" := "generator", "content" := GENERATOR])));
    BookState(
      SetUniqueMeta(generated, Some("DC"), "identifier", MetaEntry(uuid, Some(map["id" := "id"]))),
      [], [], [], [], [], "id", "EPUB", 0, 0, 0, "", "en", None, DEFAULT_TEMPLATES, [], [], uuid, version)
  }

  /**
   * After `reset` the identifier is the only DC identifier, labelled with the identifier id
   * `id`; the generator is the only OPF generator; the book is empty, in English, untitled.
   */
  lemma {:induction false} ResetDefaults(uuid: string, version: Option<string>)
    ensures var s := ResetState(uuid, version);
      && Lookup(s.metadata, Some("DC"), "identifier") == Some([MetaEntry(uuid, Some(map["id" := s.identifierId]))])
      && Lookup(s.metadata, Some("OPF"), "generator") ==
           Some([MetaEntry("", Some(map["name" := "generator", "content" := GENERATOR]))])
      && Lookup(s.metadata, Some("DC"), "title").None?
      && s.uid == uuid && s.identifierId == "id" && s.folderName == "EPUB"
      && s.items == [] && s.spine == [] && s.toc == [] && s.guide == []
      && s.title == "" && s.language == "en" && s.direction.None?
      && s.idHtml == 0 && s.idImage == 0 && s.templates.Keys == {"ncx", "nav", "chapter", "cover"}
  {
    var generated := AddMeta([], Some("OPF"), "generator",
                             MetaEntry("", Some(map["name" := "generator", "content" := GENERATOR])));
    assert Lookup([], Some("OPF"), "generator").None?;
    assert Lookup([], Some("DC"), "title").None?;
    assert ResolveNs(Some("DC")) != ResolveNs(Some("OPF"));
  }

  // ---------------------------------------------------------------------------
  // add_item: media type and id

  /** What the media-type guesser answers for a file name: the pair the code unpacks. */
  datatype Guess = Guess(hasGuessed: Option<string>, mediaType: Option<string>)

  /** A string that Python's truth test accepts. */
  predicate Filled(s: Option<string>) {
    s.Some? && s.value != ""
  }

  /**
   * The media type `add_item` gives an item: its own when it has one; otherwise the guess for
   * its lower-cased file name, falling back to `application/octet-stream`.
   */
  function MediaTypeFor(item: Item, guess: string -> Guess): (mt: string)
    ensures item.mediaType != "" ==> mt == item.mediaType
    ensures item.mediaType == "" && !Filled(guess(LowerAscii(item.fileName)).hasGuessed) ==>
      mt == "application/octet-stream"
    ensures item.mediaType == "" && Filled(guess(LowerAscii(item.fileName)).hasGuessed) ==>
      var g := guess(LowerAscii(item.fileName));
      mt == (if g.mediaType.Some? then g.mediaType.value else g.hasGuessed.value)
  {
    if item.mediaType != "" then item.mediaType
    else
      var g := guess(LowerAscii(item.fileName));
      if Filled(g.hasGuessed) then
        if g.mediaType.Some? then g.mediaType.value else g.hasGuessed.value
      else "application/octet-stream"
  }

  /**
   * The item `add_item` stores and the two counters after it. An item without an id takes
   * `chapter_<n>` from the document counter when it is a document, and `image_<n>` or
   * `static_<n>` from the image counter otherwise; only the counter used moves, by one.
   */
  function Completed(item: Item, idHtml: nat, idImage: nat, guess: string -> Guess): (r: (Item, nat, nat))
    ensures r.0 == item.(id := r.0.id, mediaType := MediaTypeFor(item, guess))
    ensures item.id != "" ==> r == (r.0, idHtml, idImage) && r.0.id == item.id
    ensures item.id == "" && IsHtml(item.kind) ==> r.0.id == "chapter_" + NatStr(idHtml) && r.1 == idHtml + 1 && r.2 == idImage
    ensures item.id == "" && item.kind == Image ==> r.0.id == "image_" + NatStr(idImage) && r.1 == idHtml && r.2 == idImage + 1
    ensures item.id == "" && !IsHtml(item.kind) && item.kind != Image ==>
      r.0.id == "static_" + NatStr(idImage) && r.1 == idHtml && r.2 == idImage + 1
  {
    var typed := item.(mediaType := MediaTypeFor(item, guess));
    if item.id != "" then (typed, idHtml, idImage)
    else if IsHtml(item.kind) then (typed.(id := "chapter_" + NatStr(idHtml)), idHtml + 1, idImage)
    else if item.kind == Image then (typed.(id := "image_" + NatStr(idImage)), idHtml, idImage + 1)
    else (typed.(id := "static_" + NatStr(idImage)), idHtml, idImage + 1)
  }

  /** An item that already has an id keeps it and leaves both counters alone. */
  lemma KeptId(item: Item, idHtml: nat, idImage: nat, guess: string -> Guess)
    requires item.id != ""
    ensures Completed(item, idHtml, idImage, guess) == (item.(mediaType := MediaTypeFor(item, guess)), idHtml, idImage)
  {
  }

  /** The number in an id of the form `prefix` followed by decimal digits. */
  function AutoNumber(id: string, prefix: string): Option<nat> {
    if StartsWith(id, prefix) && |id| > |prefix| && AllDigits(id[|prefix|..]) then Some(ParseNat(id[|prefix|..]))
    else None
  }

  /**
   * Every id shaped like a generated one carries a number below the counter it would be drawn
   * from: `chapter_` ids below the document counter, `image_` and `static_` ids below the image one.
   */
  predicate IdsBelowCounters(items: seq<Item>, idHtml: nat, idImage: nat) {
    forall i :: 0 <= i < |items| ==> IdBelow(items[i].id, idHtml, idImage)
  }

  predicate IdBelow(id: string, idHtml: nat, idImage: nat) {
    && (AutoNumber(id, "chapter_").Some? ==> AutoNumber(id, "chapter_").value < idHtml)
    && (AutoNumber(id, "image_").Some? ==> AutoNumber(id, "image_").value < idImage)
    && (AutoNumber(id, "static_").Some? ==> AutoNumber(id, "static_").value < idImage)
  }

  lemma AutoNumberOf(prefix: string, n: nat)
    ensures AutoNumber(prefix + NatStr(n), prefix) == Some(n)
  {
    var id := prefix + NatStr(n);
    assert id[..|prefix|] == prefix && id[|prefix|..] == NatStr(n);
    ParseNatStr(n);
  }

  lemma AutoNumberOther(prefix: string, n: nat, other: string)
    requires |other| > 0 && |prefix| > 0 && other[0] != prefix[0]
    ensures AutoNumber(prefix + NatStr(n), other).None?
  {
    var id := prefix + NatStr(n);
    assert id[0] == prefix[0];
  }

  /** A generated id is below the counters after the counter it came from moved past it. */
  lemma GeneratedIdBelow(prefix: string, n: nat, idHtml: nat, idImage: nat)
    requires prefix == "chapter_" ==> n < idHtml
    requires prefix == "image_" || prefix == "static_" ==> n < idImage
    requires prefix in {"chapter_", "image_", "static_"}
    ensures IdBelow(prefix + NatStr(n), idHtml, idImage)
  {
    AutoNumberOf(prefix, n);
    var id := prefix + NatStr(n);
    if prefix == "chapter_" {
      AutoNumberOther(prefix, n, "image_");
      AutoNumberOther(prefix, n, "static_");
    } else if prefix == "image_" {
      AutoNumberOther(prefix, n, "chapter_");
      AutoNumberOther(prefix, n, "static_");
    } else {
      AutoNumberOther(prefix, n, "chapter_");
      AutoNumberOther(prefix, n, "image_");
    }
  }

  /**
   * While the ids of a book stay below its counters, an id `add_item` generates belongs to
   * no item already in the book, and the ids stay below the counters afterwards. An item that
   * brings its own id keeps it, so the property needs that id to stay below the counters too.
   */
  lemma {:induction false} CompletedIdFresh(items: seq<Item>, idHtml: nat, idImage: nat, item: Item, guess: string -> Guess)
    requires IdsBelowCounters(items, idHtml, idImage)
    requires item.id != "" ==> IdBelow(item.id, idHtml, idImage)
    ensures var r := Completed(item, idHtml, idImage, guess);
      && (item.id == "" ==> forall i :: 0 <= i < |items| ==> items[i].id != r.0.id)
      && IdsBelowCounters(items + [r.0], r.1, r.2)
  {
    var r := Completed(item, idHtml, idImage, guess);
    var all := items + [r.0];
    if item.id == "" {
      var prefix, n := if IsHtml(item.kind) then "chapter_" else if item.kind == Image then "image_" else "static_",
                       if IsHtml(item.kind) then idHtml else idImage;
      assert r.0.id == prefix + NatStr(n);
      AutoNumberOf(prefix, n);
      forall i | 0 <= i < |items|
        ensures items[i].id != r.0.id
      {
        assert IdBelow(items[i].id, idHtml, idImage);
      }
      GeneratedIdBelow(prefix, n, r.1, r.2);
    }
    forall i | 0 <= i < |all|
      ensures IdBelow(all[i].id, r.1, r.2)
    {
      if i < |items| {
        assert all[i] == items[i] && IdBelow(items[i].id, idHtml, idImage);
      }
    }
  }

  // ---------------------------------------------------------------------------
  // Lookups

  /** `get_item_with_id(uid)`: the first item with that id. */
  function FindById(items: seq<Item>, id: string): (r: Option<Item>)
    ensures r.Some? <==> exists i :: 0 <= i < |items| && items[i].id == id
    ensures r.Some? ==> exists i :: (0 <= i < |items| && items[i] == r.value && r.value.id == id &&
      forall j :: 0 <= j < i ==> items[j].id != id)
  {
    if items == [] then None
    else if items[0].id == id then Some(items[0])
    else
      var r := FindById(items[1..], id);
      assert forall i :: 1 <= i < |items| ==> items[i] == items[1..][i - 1];
      r
  }

  /** `get_item_with_href(href)`: the first item with that file name. */
  function FindByHref(items: seq<Item>, href: string): (r: Option<Item>)
    ensures r.Some? <==> exists i :: 0 <= i < |items| && items[i].fileName == href
    ensures r.Some? ==> exists i :: (0 <= i < |items| && items[i] == r.value && r.value.fileName == href &&
      forall j :: 0 <= j < i ==> items[j].fileName != href)
  {
    if items == [] then None
    else if items[0].fileName == href then Some(items[0])
    else
      var r := FindByHref(items[1..], href);
      assert forall i :: 1 <= i < |items| ==> items[i] == items[1..][i - 1];
      r
  }

  /** `get_items_of_type(t)`: the items of that type, in order. */
  function OfType(items: seq<Item>, t: int, table: seq<(int, seq<string>)>): (r: seq<Item>)
    ensures forall i :: 0 <= i < |r| ==> r[i] in items && GetType(r[i], table) == t
    ensures forall i :: 0 <= i < |items| && GetType(items[i], table) == t ==> items[i] in r
  {
    if items == [] then []
    else (if GetType(items[0], table) == t then [items[0]] else []) + OfType(items[1..], t, table)
  }

  /** Selecting by type from appended lists selects from the first, then from the second. */
  lemma {:induction false} OfTypeAppend(a: seq<Item>, b: seq<Item>, t: int, table: seq<(int, seq<string>)>)
    ensures OfType(a + b, t, table) == OfType(a, t, table) + OfType(b, t, table)
  {
    if a == [] {
      assert a + b == b;
    } else {
      assert (a + b)[0] == a[0] && (a + b)[1..] == a[1..] + b;
      OfTypeAppend(a[1..], b, t, table);
    }
  }

  /** A single item is selected once when it has the type, and not at all otherwise. */
  lemma OfTypeSingle(item: Item, t: int, table: seq<(int, seq<string>)>)
    ensures OfType([item], t, table) == if GetType(item, table) == t then [item] else []
  {
    assert [item][1..] == [];
  }

  /** `get_items_of_media_type(m)`: the items with that media type, in order. */
  function OfMediaType(items: seq<Item>, m: string): (r: seq<Item>)
    ensures forall i :: 0 <= i < |r| ==> r[i] in items && r[i].mediaType == m
    ensures forall i :: 0 <= i < |items| && items[i].mediaType == m ==> items[i] in r
  {
    if items == [] then []
    else (if items[0].mediaType == m then [items[0]] else []) + OfMediaType(items[1..], m)
  }

  /** Selecting by media type from appended lists selects from the first, then from the second. */
  lemma {:induction false} OfMediaTypeAppend(a: seq<Item>, b: seq<Item>, m: string)
    ensures OfMediaType(a + b, m) == OfMediaType(a, m) + OfMediaType(b, m)
  {
    if a == [] {
      assert a + b == b;
    } else {
      assert (a + b)[0] == a[0] && (a + b)[1..] == a[1..] + b;
      OfMediaTypeAppend(a[1..], b, m);
    }
  }

  /** A single item is selected once when it has the media type, and not at all otherwise. */
  lemma OfMediaTypeSingle(item: Item, m: string)
    ensures OfMediaType([item], m) == if item.mediaType == m then [item] else []
  {
    assert [item][1..] == [];
  }

  // ---------------------------------------------------------------------------
  // The book

  class EpubBook {
    var metadata: Store
    var items: seq<Item>
    var spine: seq<SpineEntry>
    var guide: seq<GuideEntry>
    var toc: seq<Entry>
    var bindings: seq<map<string, string>>
    var identifierId: string
    var folderName: string
    var idHtml: nat
    var idImage: nat
    var idStatic: nat
    var title: string
    var language: string
    var direction: Option<string>
    var templates: map<string, Blob>
    var prefixes: seq<string>
    var namespaces: Dict<string, string>
    var uid: string
    var version: Option<string>

    /** The book's fields as one value. */
    function State(): BookState
      reads this
    {
      BookState(metadata, items, spine, guide, toc, bindings, identifierId, folderName, idHtml, idImage,
                idStatic, title, language, direction, templates, prefixes, namespaces, uid, version)
    }

    /** `EpubBook()`: no EPUB version yet, then `reset`, with `uuid` as the drawn identifier. */
    constructor (uuid: string)
      ensures State() == ResetState(uuid, None)
    {
      version := None;
      var generated := AddMeta([], Some("OPF"), "generator", MetaEntry("", Some(map["name" := "generator", "content" := GENERATOR])));
      metadata := SetUniqueMeta(generated, Some("DC"), "identifier", MetaEntry(uuid, Some(map["id" := "id"])));
      items, spine, guide, toc, bindings := [], [], [], [], [];
      identifierId, folderName := "id", "EPUB";
      idHtml, idImage, idStatic := 0, 0, 0;
      title, language, direction := "", "en", None;
      templates := DEFAULT_TEMPLATES;
      prefixes, namespaces := [], [];
      uid := uuid;
    }

    /** `set_identifier(uid)`: the one DC identifier, labelled with the identifier id. */
    method SetIdentifier(newUid: string)
      modifies this
      ensures State() == old(State()).(uid := newUid,
        metadata := SetUniqueMeta(old(metadata), Some("DC"), "identifier", MetaEntry(newUid, Some(map["id" := identifierId]))))
    {
      uid := newUid;
      SetUniqueMetadata(Some("DC"), "identifier", newUid, Some(map["id" := identifierId]));
    }

    /** `set_title(t)`: the title, also appended to the DC titles. */
    method SetTitle(t: string)
      modifies this
      ensures State() == old(State()).(title := t, metadata := AddMeta(old(metadata), Some("DC"), "title", MetaEntry(t, None)))
    {
      title := t;
      AddMetadata(Some("DC"), "title", t, None);
    }

    /** `set_language(lang)`: the language, also appended to the DC languages. */
    method SetLanguage(lang: string)
      modifies this
      ensures State() == old(State()).(language := lang,
        metadata := AddMeta(old(metadata), Some("DC"), "language", MetaEntry(lang, None)))
    {
      language := lang;
      AddMetadata(Some("DC"), "language", lang, None);
    }

    /** `set_direction(d)`. */
    method SetDirection(d: Option<string>)
      modifies this
      ensures State() == old(State()).(direction := d)
    {
      direction := d;
    }

    /**
     * `set_cover(file_name, content, create_page)`: adds the cover image (id `cover-img`) and,
     * when asked, the cover page (id `cover`), then the `cover` meta entry.
     */
    method SetCover(fileName: string, content: Blob, createPage: bool, guess: string -> Guess)
      modifies this
      ensures var image := NewCover(fileName := fileName).(content := content);
        var page := NewCoverHtml(imageName := fileName);
        State() == old(State()).(
          items := old(items) + [image.(mediaType := MediaTypeFor(image, guess))]
                   + (if createPage then [page.(mediaType := MediaTypeFor(page, guess))] else []),
          metadata := AddMeta(old(metadata), None, "meta", MetaEntry("", Some(map["name" := "cover", "content" := "cover-img"]))))
    {
      var image := NewCover(fileName := fileName).(content := content);
      AddWithId(image, guess);
      if createPage {
        AddWithId(NewCoverHtml(imageName := fileName), guess);
      }
      AddMetadata(None, "meta", "", Some(map["name" := "cover", "content" := "cover-img"]));
    }

    /** `add_item` for an item that already has an id: only its media type is filled in. */
    method AddWithId(item: Item, guess: string -> Guess)
      requires item.id != ""
      modifies this
      ensures State() == old(State()).(items := old(items) + [item.(mediaType := MediaTypeFor(item, guess))])
    {
      KeptId(item, idHtml, idImage, guess);
      var _ := AddItem(item, guess);
    }

    /**
     * `add_author(author, file_as, role, uid)`: a DC creator labelled `uid`, then, for a
     * non-empty `file_as` and a non-empty `role`, a meta entry refining it.
     */
    method AddAuthor(author: string, fileAs: Option<string>, role: Option<string>, authorId: string := "creator")
      modifies this
      ensures var withCreator := AddMeta(old(metadata), Some("DC"), "creator", MetaEntry(author, Some(map["id" := authorId])));
        var withFileAs := if Filled(fileAs) then AddMeta(withCreator, None, "meta", MetaEntry(fileAs.value, Some(Refines(authorId, "file-as"))))
                          else withCreator;
        State() == old(State()).(metadata := if Filled(role) then AddMeta(withFileAs, None, "meta", MetaEntry(role.value, Some(Refines(authorId, "role"))))
                                             else withFileAs)
    {
      AddMetadata(Some("DC"), "creator", author, Some(map["id" := authorId]));
      if Filled(fileAs) {
        AddMetadata(None, "meta", fileAs.value, Some(Refines(authorId, "file-as")));
      }
      if Filled(role) {
        AddMetadata(None, "meta", role.value, Some(Refines(authorId, "role")));
      }
    }

    /** `add_metadata(ns, name, value, others)`. */
    method AddMetadata(ns: Option<string>, name: string, value: string, others: Option<map<string, string>>)
      modifies this
      ensures State() == old(State()).(metadata := AddMeta(old(metadata), ns, name, MetaEntry(value, others)))
    {
      metadata := AddMeta(metadata, ns, name, MetaEntry(value, others));
    }

    /** `get_metadata(ns, name)`: the list, or KeyError on the namespace or the name never added. */
    method GetMetadata(ns: Option<string>, name: string) returns (r: Result<seq<MetaEntry>>)
      ensures r.Ok? <==> Lookup(metadata, ns, name).Some?
      ensures r.Ok? ==> r.value == Lookup(metadata, ns, name).value
      ensures Get(metadata, ResolveNs(ns)).None? ==> r == Err(KeyError(ResolveNs(ns)))
      ensures Get(metadata, ResolveNs(ns)).Some? && Lookup(metadata, ns, name).None? ==> r == Err(KeyError(Some(name)))
    {
      match Get(metadata, ResolveNs(ns)) {
        case None => r := Err(KeyError(ResolveNs(ns)));
        case Some(names) =>
          match Get(names, name) {
            case None => r := Err(KeyError(Some(name)));
            case Some(values) => r := Ok(values);
          }
      }
    }

    /** `set_unique_metadata(ns, name, value, others)`. */
    method SetUniqueMetadata(ns: Option<string>, name: string, value: string, others: Option<map<string, string>>)
      modifies this
      ensures State() == old(State()).(metadata := SetUniqueMeta(old(metadata), ns, name, MetaEntry(value, others)))
    {
      metadata := SetUniqueMeta(metadata, ns, name, MetaEntry(value, others));
    }

    /** `add_item(item)`: completes the item's media type and id and appends it to the items. */
    method AddItem(item: Item, guess: string -> Guess) returns (added: Item)
      modifies this
      ensures var r := Completed(item, old(idHtml), old(idImage), guess);
        added == r.0 && State() == old(State()).(items := old(items) + [r.0], idHtml := r.1, idImage := r.2)
    {
      var r := Completed(item, idHtml, idImage, guess);
      added := r.0;
      items, idHtml, idImage := items + [added], r.1, r.2;
    }

    /** `get_item_with_id(uid)`: a scan of the items for the first with that id. */
    method GetItemWithId(id: string) returns (r: Option<Item>)
      ensures r == FindById(items, id)
    {
      var all := items;
      var i := 0;
      while i < |all|
        invariant 0 <= i <= |all|
        invariant FindById(all, id) == FindById(all[i..], id)
      {
        if all[i].id == id {
          return Some(all[i]);
        }
        assert all[i..][1..] == all[i + 1..];
        i := i + 1;
      }
      return None;
    }

    /** `get_item_with_href(href)`: a scan of the items for the first with that file name. */
    method GetItemWithHref(href: string) returns (r: Option<Item>)
      ensures r == FindByHref(items, href)
    {
      var all := items;
      var i := 0;
      while i < |all|
        invariant 0 <= i <= |all|
        invariant FindByHref(all, href) == FindByHref(all[i..], href)
      {
        if all[i].fileName == href {
          return Some(all[i]);
        }
        assert all[i..][1..] == all[i + 1..];
        i := i + 1;
      }
      return None;
    }

    /** `get_items_of_type(t)`, given the extension table. */
    method GetItemsOfType(t: int, table: seq<(int, seq<string>)>) returns (r: seq<Item>)
      ensures r == OfType(items, t, table)
    {
      r := [];
      var all := items;
      var i := |all|;
      while i > 0
        invariant 0 <= i <= |all|
        invariant r == OfType(all[i..], t, table)
      {
        i := i - 1;
        assert all[i..][1..] == all[i + 1..];
        if GetType(all[i], table) == t {
          r := [all[i]] + r;
        }
      }
    }

    /** `get_items_of_media_type(m)`. */
    method GetItemsOfMediaType(m: string) returns (r: seq<Item>)
      ensures r == OfMediaType(items, m)
    {
      r := [];
      var all := items;
      var i := |all|;
      while i > 0
        invariant 0 <= i <= |all|
        invariant r == OfMediaType(all[i..], m)
      {
        i := i - 1;
        assert all[i..][1..] == all[i + 1..];
        if all[i].mediaType == m {
          r := [all[i]] + r;
        }
      }
    }

    /** `set_template(name, value)`. */
    method SetTemplate(name: string, value: Blob)
      modifies this
      ensures State() == old(State()).(templates := old(templates)[name := value])
    {
      templates := templates[name := value];
    }

    /** `get_template(name)`: the template, or `None` for an unknown name. */
    method GetTemplate(name: string) returns (r: Option<Blob>)
      ensures r.Some? <==> name in templates
      ensures r.Some? ==> r.value == templates[name]
    {
      r := if name in templates then Some(templates[name]) else None;
    }

    /** `add_prefix(name, uri)`: `name: uri` goes at the end of the package prefixes. */
    method AddPrefix(name: string, uri: string)
      modifies this
      ensures State() == old(State()).(prefixes := old(prefixes) + [name + ": " + uri])
    {
      prefixes := prefixes + [name + ": " + uri];
    }
  }

  /** The attributes of a meta entry that refines the entry labelled `id` with a MARC relator property. */
  function Refines(id: string, property: string): map<string, string> {
    map["refines" := "#" + id, "property" := property, "scheme" := "marc:relators"]
  }
}

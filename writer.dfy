/**
 * `EpubWriter`: the members of the EPUB archive, written one after another — the
 * `mimetype`, the container pointing at the package document, the package document, then
 * one member per item of the book.
 */
module Writer {
  import opened Wrappers
  import opened Xml
  import opened Metadata
  import opened Items
  import opened Toc
  import opened Book
  import opened Opf
  import opened Ncx
  import opened Nav

  /** The members of an archive, in the order they were written. */
  type Entries = seq<(string, Blob)>

  const CONTAINER_PATH := "META-INF/container.xml"
  const MIMETYPE := "application/epub+zip"
  const OPF_MEDIA_TYPE := "application/oebps-package+xml"

  /** The bytes of a text made of single-byte characters. */
  function Ascii(s: string): (r: seq<byte>)
    ensures |r| == |s|
    ensures forall i :: 0 <= i < |s| ==> r[i] as int == s[i] as int % 256
  {
    seq(|s|, i requires 0 <= i < |s| => (s[i] as int % 256) as byte)
  }

  /** Where the package document of a book whose folder is `folder` goes. */
  function OpfPath(folder: string): string {
    folder + "/content.opf"
  }

  /** `CONTAINER_XML` with the folder name filled in: one root file, the package document. */
  function ContainerDocument(folder: string): (e: Element)
    ensures e.tag == Clark(CONTAINER_NS, "container") && |e.children| == 1
    ensures |e.children[0].children| == 1
    ensures e.children[0].children[0].tag == Clark(CONTAINER_NS, "rootfile")
    ensures e.children[0].children[0].attrs == map["media-type" := OPF_MEDIA_TYPE, "full-path" := OpfPath(folder)]
  {
    Element(Clark(CONTAINER_NS, "container"), None, [(None, CONTAINER_NS)], map["version" := "1.0"], "", [
      El(Clark(CONTAINER_NS, "rootfiles"), map[], "", [
        El(Clark(CONTAINER_NS, "rootfile"), map["media-type" := OPF_MEDIA_TYPE, "full-path" := OpfPath(folder)], "", [])])])
  }

  /** `item.get_content()`: documents and the cover page are rendered; other items give their content, or nothing. */
  function ItemBytes(item: Item, render: Item -> Blob): (r: Blob)
    ensures item.kind != Html && item.kind != CoverHtml && Truthy(item.content) ==> r == item.content
    ensures item.kind != Html && item.kind != CoverHtml && !Truthy(item.content) ==> r == EMPTY
  {
    if item.kind == Html || item.kind == CoverHtml then render(item) else GetContent(item, EMPTY)
  }

  /** The archive name `_write_items` gives an item: inside the book's folder when it is listed in the manifest. */
  function ItemPath(folder: string, item: Item): string {
    if item.kind == Ncx || item.kind == Nav || item.manifest then folder + "/" + item.fileName else item.fileName
  }

  /**
   * The member `_write_items` writes for one item: the NCX and the nav document are built from
   * their templates; any other item gives its content.
   */
  function ItemEntry(book: BookState, item: Item, options: Options, cwd: string, render: Item -> Blob): (r: Result<(string, Blob)>)
    ensures r.Ok? ==> r.value.0 == ItemPath(book.folderName, item)
    ensures item.kind != Ncx && item.kind != Nav ==> r == Ok((ItemPath(book.folderName, item), ItemBytes(item, render)))
  {
    match item.kind
    case Ncx =>
      var template :- TemplateRoot(book.templates, "ncx");
      var doc :- NcxDocument(template, book.uid, book.title, book.toc);
      Ok((ItemPath(book.folderName, item), Doc(doc)))
    case Nav =>
      var template :- TemplateRoot(book.templates, "nav");
      var doc :- NavDocument(template, book, item, options, cwd);
      Ok((ItemPath(book.folderName, item), Doc(doc)))
    case _ => Ok((ItemPath(book.folderName, item), ItemBytes(item, render)))
  }

  /** The members written for `items`, one per item in order, failing at the first item that fails. */
  function ItemEntries(book: BookState, items: seq<Item>, options: Options, cwd: string, render: Item -> Blob): (r: Result<Entries>)
    ensures r.Ok? <==> forall i :: 0 <= i < |items| ==> ItemEntry(book, items[i], options, cwd, render).Ok?
    ensures r.Ok? ==> |r.value| == |items|
    ensures r.Ok? ==> forall i :: 0 <= i < |items| ==> r.value[i] == ItemEntry(book, items[i], options, cwd, render).value
  {
    MapResults(item => ItemEntry(book, item, options, cwd, render), items)
  }

  /** An item that can be written, at or before the first failure, comes before it. */
  lemma BeforeFirstFailure(book: BookState, items: seq<Item>, i: nat, options: Options, cwd: string, render: Item -> Blob)
    requires i < |items| && i <= FirstFailure(book, items, options, cwd, render)
    requires ItemEntry(book, items[i], options, cwd, render).Ok?
    ensures i < FirstFailure(book, items, options, cwd, render)
  {
  }

  /** The members of one more item are those of the items before it, then its own. */
  lemma EntriesSnoc(book: BookState, items: seq<Item>, i: nat, options: Options, cwd: string, render: Item -> Blob)
    requires i < |items| && ItemEntries(book, items[..i], options, cwd, render).Ok?
    requires ItemEntry(book, items[i], options, cwd, render).Ok?
    ensures ItemEntries(book, items[..i + 1], options, cwd, render) ==
      Ok(ItemEntries(book, items[..i], options, cwd, render).value + [ItemEntry(book, items[i], options, cwd, render).value])
  {
    assert items[..i + 1][..i] == items[..i];
  }

  /** The first item whose member cannot be written, if any. */
  function FirstFailure(book: BookState, items: seq<Item>, options: Options, cwd: string, render: Item -> Blob): (k: nat)
    ensures k <= |items|
    ensures forall i :: 0 <= i < k ==> ItemEntry(book, items[i], options, cwd, render).Ok?
    ensures k < |items| ==> ItemEntry(book, items[k], options, cwd, render).Err?
    decreases |items|
  {
    if items == [] then 0
    else if ItemEntry(book, items[0], options, cwd, render).Err? then 0
    else
      var k := FirstFailure(book, items[1..], options, cwd, render);
      assert forall i :: 1 <= i < |items| ==> items[i] == items[1..][i - 1];
      k + 1
  }

  /**
   * `write()`: the whole archive — the `mimetype`, the container, the package document in the
   * book's folder, then the items' members.
   */
  function Archive(book: BookState, options: Options, cwd: string, render: Item -> Blob): (r: Result<Entries>)
    ensures r.Ok? <==> PackageDocument(book, options).Ok? && ItemEntries(book, book.items, options, cwd, render).Ok?
    ensures r.Ok? ==> (
      && |r.value| == 3 + |book.items|
      && r.value[0] == ("mimetype", Bytes(Ascii(MIMETYPE)))
      && r.value[1] == (CONTAINER_PATH, Doc(ContainerDocument(book.folderName)))
      && r.value[2] == (OpfPath(book.folderName), Doc(PackageDocument(book, options).value))
      && r.value[3..] == ItemEntries(book, book.items, options, cwd, render).value)
  {
    var opf :- PackageDocument(book, options);
    var members :- ItemEntries(book, book.items, options, cwd, render);
    Ok([("mimetype", Bytes(Ascii(MIMETYPE))), (CONTAINER_PATH, Doc(ContainerDocument(book.folderName))),
        (OpfPath(book.folderName), Doc(opf))] + members)
  }

  /**
   * The writer of one book. The book is the state it had when the writer was made, and
   * `out` the members written so far.
   */
  class EpubWriter {
    var fileName: string
    var book: BookState
    var options: Options
    var out: Entries

    /** `EpubWriter(name, book, options)`, with the options already merged into the defaults. */
    constructor (name: string, book: BookState, options: Options)
      ensures this.fileName == name && this.book == book && this.options == options && out == []
    {
      this.fileName := name;
      this.book := book;
      this.options := options;
      out := [];
    }

    /** `_write_container`. */
    method WriteContainer()
      modifies this
      ensures out == old(out) + [(CONTAINER_PATH, Doc(ContainerDocument(book.folderName)))]
      ensures fileName == old(fileName) && book == old(book) && options == old(options)
    {
      out := out + [(CONTAINER_PATH, Doc(ContainerDocument(book.folderName)))];
    }

    /** `_write_opf_file`: the package document goes to the book's folder; nothing is written when it fails. */
    method WriteOpfFile() returns (r: Result<()>)
      modifies this
      ensures r.Ok? <==> PackageDocument(book, options).Ok?
      ensures r.Err? ==> r.error == PackageDocument(book, options).error && out == old(out)
      ensures r.Ok? ==> out == old(out) + [(OpfPath(book.folderName), Doc(PackageDocument(book, options).value))]
      ensures fileName == old(fileName) && book == old(book) && options == old(options)
    {
      match PackageDocument(book, options)
      case Err(e) => r := Err(e);
      case Ok(root) =>
        out := out + [(OpfPath(book.folderName), Doc(root))];
        r := Ok(());
    }

    /** `_get_ncx`: the NCX document, its sections built by `CreateSection`. */
    method GetNcx(template: Element) returns (r: Result<Element>)
      ensures r == NcxDocument(template, book.uid, book.title, book.toc)
    {
      var ns := DefaultNs(template);
      var section := CreateSection(PointTagsIn(ns), book.toc, 0, None);
      NcxSectionFails(PointTagsIn(ns), book.toc, 0, None);
      if section.Err? {
        return Err(section.error);
      }
      SectionLength(PointTagsIn(ns), book.toc, 0, None);
      var docTitle := El(QName(ns, "docTitle"), map[], "", [El(QName(ns, "text"), map[], book.title, [])]);
      var navMap := El(QName(ns, "navMap"), map[], "", section.value.points);
      r := Ok(template.(children := template.children + [NcxHead(ns, book.uid), docTitle, navMap]));
    }

    /** The member for one item, as `_write_items` makes it. */
    method WriteItem(item: Item, cwd: string, render: Item -> Blob) returns (r: Result<(string, Blob)>)
      ensures r == ItemEntry(book, item, options, cwd, render)
    {
      match item.kind
      case Ncx =>
        var template := TemplateRoot(book.templates, "ncx");
        if template.Err? {
          return Err(template.error);
        }
        var doc := GetNcx(template.value);
        if doc.Err? {
          return Err(doc.error);
        }
        r := Ok((ItemPath(book.folderName, item), Doc(doc.value)));
      case Nav =>
        var template := TemplateRoot(book.templates, "nav");
        if template.Err? {
          return Err(template.error);
        }
        var doc := NavDocument(template.value, book, item, options, cwd);
        if doc.Err? {
          return Err(doc.error);
        }
        r := Ok((ItemPath(book.folderName, item), Doc(doc.value)));
      case _ =>
        r := Ok((ItemPath(book.folderName, item), ItemBytes(item, render)));
    }

    /**
     * `_write_items`: one member per item, in the book's order. When an item fails, the members
     * of the items before it stay written and the error is that item's.
     */
    method WriteItems(cwd: string, render: Item -> Blob) returns (r: Result<()>)
      modifies this
      ensures r.Ok? <==> ItemEntries(book, book.items, options, cwd, render).Ok?
      ensures r.Ok? ==> out == old(out) + ItemEntries(book, book.items, options, cwd, render).value
      ensures r.Err? ==>
        var k := FirstFailure(book, book.items, options, cwd, render);
        && k < |book.items|
        && r.error == ItemEntry(book, book.items[k], options, cwd, render).error
        && out == old(out) + ItemEntries(book, book.items[..k], options, cwd, render).value
      ensures fileName == old(fileName) && book == old(book) && options == old(options)
    {
      var b, opts := book, options;
      var items := b.items;
      var k := FirstFailure(b, items, opts, cwd, render);
      var i := 0;
      while i < |items|
        invariant 0 <= i <= |items| && i <= k
        invariant fileName == old(fileName) && book == b && options == opts
        invariant ItemEntries(b, items[..i], opts, cwd, render).Ok?
        invariant out == old(out) + ItemEntries(b, items[..i], opts, cwd, render).value
      {
        var entry := WriteItem(items[i], cwd, render);
        if entry.Err? {
          assert i == k;
          return Err(entry.error);
        }
        assert i < k by { BeforeFirstFailure(b, items, i, opts, cwd, render); }
        EntriesSnoc(b, items, i, opts, cwd, render);
        out := out + [entry.value];
        i := i + 1;
      }
      assert items[..i] == items;
      r := Ok(());
    }

    /**
     * `write()`: a new archive holding the `mimetype`, the container, the package document and
     * the items' members; it is complete exactly when every part could be written.
     */
    method Write(cwd: string, render: Item -> Blob) returns (r: Result<()>)
      modifies this
      ensures r.Ok? <==> Archive(book, options, cwd, render).Ok?
      ensures r.Ok? ==> out == Archive(book, options, cwd, render).value
      ensures fileName == old(fileName) && book == old(book) && options == old(options)
    {
      ghost var b, opts := book, options;
      out := [("mimetype", Bytes(Ascii(MIMETYPE)))];
      WriteContainer();
      r := WriteOpfFile();
      if r.Err? {
        return;
      }
      ghost var front := out;
      r := WriteItems(cwd, render);
      if r.Ok? {
        ArchiveOf(b, opts, cwd, render, front, out);
      }
    }
  }

  /**
   * `write_epub(name, book, options)`: a writer over the book, then `write`; the members it
   * stores are the archive of the book. Failures other than I/O reach the caller.
   */
  method WriteEpub(name: string, book: BookState, options: Options, cwd: string, render: Item -> Blob)
    returns (r: Result<Entries>)
    ensures r.Ok? <==> Archive(book, options, cwd, render).Ok?
    ensures r.Ok? ==> r.value == Archive(book, options, cwd, render).value
  {
    var writer := new EpubWriter(name, book, options);
    var written := writer.Write(cwd, render);
    if written.Err? {
      return Err(written.error);
    }
    return Ok(writer.out);
  }

  // ---------------------------------------------------------------------------
  // Properties of the archive

  /** The three leading members followed by the items' members make up the archive. */
  lemma ArchiveOf(book: BookState, options: Options, cwd: string, render: Item -> Blob, front: Entries, all: Entries)
    requires PackageDocument(book, options).Ok? && ItemEntries(book, book.items, options, cwd, render).Ok?
    requires front == [("mimetype", Bytes(Ascii(MIMETYPE)))] + [(CONTAINER_PATH, Doc(ContainerDocument(book.folderName)))] +
                      [(OpfPath(book.folderName), Doc(PackageDocument(book, options).value))]
    requires all == front + ItemEntries(book, book.items, options, cwd, render).value
    ensures Archive(book, options, cwd, render) == Ok(all)
  {
    assert front == [("mimetype", Bytes(Ascii(MIMETYPE))), (CONTAINER_PATH, Doc(ContainerDocument(book.folderName))),
                     (OpfPath(book.folderName), Doc(PackageDocument(book, options).value))];
  }

  /** Member names are those of `_write_items`: manifest items, the NCX and the nav document inside the folder, others at the top. */
  lemma ItemsPlaced(book: BookState, options: Options, cwd: string, render: Item -> Blob)
    requires Archive(book, options, cwd, render).Ok?
    ensures forall i :: 0 <= i < |book.items| ==>
      var name := Archive(book, options, cwd, render).value[3 + i].0;
      (book.items[i].manifest || book.items[i].kind in {Ncx, Nav} ==> name == book.folderName + "/" + book.items[i].fileName) &&
      (!book.items[i].manifest && book.items[i].kind !in {Ncx, Nav} ==> name == book.items[i].fileName)
  {
    var members := ItemEntries(book, book.items, options, cwd, render).value;
    var written := Archive(book, options, cwd, render).value;
    forall i | 0 <= i < |book.items|
      ensures written[3 + i].0 == ItemPath(book.folderName, book.items[i])
    {
      assert written[3 + i] == written[3..][i] == members[i];
    }
  }

  /** An item fails only as the NCX or the nav document: a missing template, a link without uid, an empty href. */
  predicate ItemFails(book: BookState, item: Item, options: Options, cwd: string) {
    || (item.kind == Ncx && (TemplateRoot(book.templates, "ncx").Err? || UidMissing(book.toc)))
    || (item.kind == Nav && (TemplateRoot(book.templates, "nav").Err? ||
          NavDocument(TemplateRoot(book.templates, "nav").value, book, item, options, cwd).Err?))
  }

  lemma ItemEntryFails(book: BookState, item: Item, options: Options, cwd: string, render: Item -> Blob)
    ensures ItemEntry(book, item, options, cwd, render).Err? <==> ItemFails(book, item, options, cwd)
  {
  }

  /**
   * Writing fails exactly when the package document fails, or some NCX item meets a missing
   * template or a link without uid, or some nav item meets a missing template or an empty href.
   */
  lemma ArchiveFails(book: BookState, options: Options, cwd: string, render: Item -> Blob)
    ensures Archive(book, options, cwd, render).Ok? <==>
      && PackageDocument(book, options).Ok?
      && forall i :: 0 <= i < |book.items| ==> !ItemFails(book, book.items[i], options, cwd)
  {
    if !Archive(book, options, cwd, render).Ok? && PackageDocument(book, options).Ok? {
      var k :| 0 <= k < |book.items| && ItemEntry(book, book.items[k], options, cwd, render).Err?;
      ItemEntryFails(book, book.items[k], options, cwd, render);
    }
    if Archive(book, options, cwd, render).Ok? {
      forall i | 0 <= i < |book.items| ensures !ItemFails(book, book.items[i], options, cwd) {
        ItemEntryFails(book, book.items[i], options, cwd, render);
      }
    }
  }
}

/**
 * The package document `EpubWriter._write_opf_file` writes, as the element tree a reader
 * gets back: elements the writer names without a namespace are in the package namespace,
 * which the root declares as the default one.
 */
module Opf {
  import opened Wrappers
  import opened Strings
  import opened Dicts
  import opened Xml
  import opened Metadata
  import opened Items
  import opened Book

  /** The writer's options; `mtime` is the modification time, already formatted. */
  datatype Options = Options(
    epub2Guide: bool,
    epub3Landmark: bool,
    landmarkTitle: string,
    spineDirection: bool,
    packageDirection: bool,
    mtime: string)

  /** `DEFAULT_OPTIONS`, with the modification time the writer would take from the clock. */
  function DefaultOptions(mtime: string): Options {
    Options(true, true, "Guide", true, false, mtime)
  }

  /** A name in the package namespace. */
  function Opf(local: string): string {
    Clark(OPF_NS, local)
  }

  const RENDITION_PREFIX := "rendition: http://www.idpf.org/vocab/rendition/#"

  // ---------------------------------------------------------------------------
  // Metadata

  /** An element that declares a modification date. */
  predicate IsModified(e: Element) {
    "property" in e.attrs && e.attrs["property"] == "dcterms:modified"
  }

  /** Attributes that declare a modification date. */
  predicate ModifiedAttrs(others: Option<map<string, string>>) {
    others.Some? && "property" in others.value && others.value["property"] == "dcterms:modified"
  }

  /**
   * The elements one metadata entry gives. An entry of the package namespace becomes a `meta`
   * element carrying its attributes, and is dropped when it declares a modification date;
   * iterating its attributes fails when it has none. Any other entry becomes an element named
   * after its namespace and name (a missing namespace leaves the name in the package one).
   */
  function ValueElement(ns: Option<string>, name: string, v: MetaEntry): (r: Result<seq<Element>>)
    ensures r.Err? <==> ns == Some(OPF_NS) && v.others.None?
    ensures r.Ok? && ns == Some(OPF_NS) ==> |r.value| == (if ModifiedAttrs(v.others) then 0 else 1)
    ensures r.Ok? && ns != Some(OPF_NS) ==> |r.value| == 1 && r.value[0].text == v.value
    ensures r.Ok? ==> forall e :: e in r.value ==> e.attrs == v.others.GetOr(map[])
  {
    if ns == Some(OPF_NS) then
      if v.others.None? then Err(TypeError("argument of type 'NoneType' is not iterable"))
      else if ModifiedAttrs(v.others) then Ok([])
      else Ok([El(Opf("meta"), v.others.value, v.value, [])])
    else
      var tag := if Filled(ns) then Clark(ns.value, name) else Opf(name);
      Ok([El(tag, v.others.GetOr(map[]), v.value, [])])
  }

  function ValueElements(ns: Option<string>, name: string, values: seq<MetaEntry>): Result<seq<Element>> {
    if values == [] then Ok([])
    else
      var first :- ValueElement(ns, name, values[0]);
      var rest :- ValueElements(ns, name, values[1..]);
      Ok(first + rest)
  }

  function NameElements(ns: Option<string>, names: Names): Result<seq<Element>> {
    if names == [] then Ok([])
    else
      var first :- ValueElements(ns, names[0].0, names[0].1);
      var rest :- NameElements(ns, names[1..]);
      Ok(first + rest)
  }

  /** The elements of the whole store, namespace by namespace, in the store's order. */
  function StoreElements(store: Store): Result<seq<Element>> {
    if store == [] then Ok([])
    else
      var first :- NameElements(store[0].0, store[0].1);
      var rest :- StoreElements(store[1..]);
      Ok(first + rest)
  }

  /** The `metadata` block: the modification date first, then the store's elements. */
  function MetadataBlock(store: Store, mtime: string): Result<Element> {
    var entries :- StoreElements(store);
    Ok(El(Opf("metadata"), map[], "", [El(Opf("meta"), map["property" := "dcterms:modified"], mtime, [])] + entries))
  }

  /** Only entries of the package namespace may declare a modification date. */
  predicate ModifiedOnlyInOpf(store: Store) {
    forall i, j, k ::
      (0 <= i < |store| && 0 <= j < |store[i].1| && 0 <= k < |store[i].1[j].1| && store[i].0 != Some(OPF_NS)) ==>
      !ModifiedAttrs(store[i].1[j].1[k].others)
  }

  lemma {:induction false} ValueElementsNotModified(ns: Option<string>, name: string, values: seq<MetaEntry>)
    requires ns != Some(OPF_NS) ==> forall k :: 0 <= k < |values| ==> !ModifiedAttrs(values[k].others)
    ensures ValueElements(ns, name, values).Ok? ==> forall e :: e in ValueElements(ns, name, values).value ==> !IsModified(e)
  {
    if values != [] {
      ValueElementsNotModified(ns, name, values[1..]);
    }
  }

  lemma {:induction false} NameElementsNotModified(ns: Option<string>, names: Names)
    requires ns != Some(OPF_NS) ==> forall j, k :: 0 <= j < |names| && 0 <= k < |names[j].1| ==> !ModifiedAttrs(names[j].1[k].others)
    ensures NameElements(ns, names).Ok? ==> forall e :: e in NameElements(ns, names).value ==> !IsModified(e)
  {
    if names != [] {
      ValueElementsNotModified(ns, names[0].0, names[0].1);
      NameElementsNotModified(ns, names[1..]);
    }
  }

  lemma {:induction false} StoreElementsNotModified(store: Store)
    requires ModifiedOnlyInOpf(store)
    ensures StoreElements(store).Ok? ==> forall e :: e in StoreElements(store).value ==> !IsModified(e)
  {
    if store != [] {
      NameElementsNotModified(store[0].0, store[0].1);
      assert ModifiedOnlyInOpf(store[1..]) by {
        forall i, j, k | 0 <= i < |store[1..]| && 0 <= j < |store[1..][i].1| && 0 <= k < |store[1..][i].1[j].1| &&
          store[1..][i].0 != Some(OPF_NS)
          ensures !ModifiedAttrs(store[1..][i].1[j].1[k].others)
        {
          assert store[1..][i] == store[i + 1];
        }
      }
      StoreElementsNotModified(store[1..]);
    }
  }

  /**
   * The written modification date is the only one in the metadata block: entries of the
   * package namespace that declare one are dropped, and no other namespace declares one.
   */
  lemma ModifiedWrittenOnce(store: Store, mtime: string)
    requires ModifiedOnlyInOpf(store)
    ensures var r := MetadataBlock(store, mtime);
      r.Ok? ==> (|r.value.children| >= 1 && IsModified(r.value.children[0]) && r.value.children[0].text == mtime &&
                 forall i :: 1 <= i < |r.value.children| ==> !IsModified(r.value.children[i]))
  {
    StoreElementsNotModified(store);
    var r := MetadataBlock(store, mtime);
    if r.Ok? {
      var entries := StoreElements(store).value;
      assert forall i :: 1 <= i < |r.value.children| ==> r.value.children[i] == entries[i - 1];
    }
  }

  /** Entries of the package namespace without attributes. */
  predicate HasBareOpfEntry(store: Store) {
    exists i, j, k :: 0 <= i < |store| && 0 <= j < |store[i].1| && 0 <= k < |store[i].1[j].1| &&
      store[i].0 == Some(OPF_NS) && store[i].1[j].1[k].others.None?
  }

  lemma {:induction false} ValueElementsFail(ns: Option<string>, name: string, values: seq<MetaEntry>)
    ensures ValueElements(ns, name, values).Err? <==>
      ns == Some(OPF_NS) && exists k :: 0 <= k < |values| && values[k].others.None?
  {
    if values != [] {
      ValueElementsFail(ns, name, values[1..]);
      assert forall k :: 1 <= k < |values| ==> values[k] == values[1..][k - 1];
    }
  }

  lemma {:induction false} NameElementsFail(ns: Option<string>, names: Names)
    ensures NameElements(ns, names).Err? <==>
      ns == Some(OPF_NS) && exists j, k :: 0 <= j < |names| && 0 <= k < |names[j].1| && names[j].1[k].others.None?
  {
    if names != [] {
      ValueElementsFail(ns, names[0].0, names[0].1);
      NameElementsFail(ns, names[1..]);
      assert forall j :: 1 <= j < |names| ==> names[j] == names[1..][j - 1];
    }
  }

  /** Writing the metadata fails exactly when an entry of the package namespace has no attributes. */
  lemma {:induction false} StoreElementsFail(store: Store)
    ensures StoreElements(store).Err? <==> HasBareOpfEntry(store)
  {
    if store != [] {
      NameElementsFail(store[0].0, store[0].1);
      StoreElementsFail(store[1..]);
      assert forall i :: 1 <= i < |store| ==> store[i] == store[1..][i - 1];
      if HasBareOpfEntry(store) && !NameElements(store[0].0, store[0].1).Err? {
        var i, j, k :| 0 <= i < |store| && 0 <= j < |store[i].1| && 0 <= k < |store[i].1[j].1| &&
          store[i].0 == Some(OPF_NS) && store[i].1[j].1[k].others.None?;
        assert i > 0;
        assert store[1..][i - 1] == store[i];
      }
    }
  }

  // ---------------------------------------------------------------------------
  // Manifest

  /** The `item` element for one item of the manifest. */
  function ManifestItem(item: Item): (e: Element)
    ensures e.tag == Opf("item")
    ensures e.attrs.Keys >= {"href", "id", "media-type"}
    ensures e.attrs["href"] == item.fileName && e.attrs["id"] == item.id && e.attrs["media-type"] == item.mediaType
    ensures item.kind == Nav ==> "properties" in e.attrs && e.attrs["properties"] == "nav"
    ensures item.kind == Cover ==> "properties" in e.attrs && e.attrs["properties"] == "cover-image"
    ensures item.kind == Ncx ==> "properties" !in e.attrs
    ensures item.kind !in {Nav, Cover, Ncx} ==>
      ("properties" in e.attrs <==> |item.properties| > 0) &&
      ("properties" in e.attrs ==> e.attrs["properties"] == JoinWith(" ", item.properties))
  {
    var base := map["href" := item.fileName, "id" := item.id, "media-type" := item.mediaType];
    match item.kind
    case Nav => El(Opf("item"), base["properties" := "nav"], "", [])
    case Ncx => El(Opf("item"), base, "", [])
    case Cover => El(Opf("item"), base["properties" := "cover-image"], "", [])
    case _ =>
      if |item.properties| > 0 then El(Opf("item"), base["properties" := JoinWith(" ", item.properties)], "", [])
      else El(Opf("item"), base, "", [])
  }

  /** The items listed in the manifest, in the book's order. */
  function InManifest(items: seq<Item>): (r: seq<Item>)
    ensures forall i :: 0 <= i < |r| ==> r[i].manifest && r[i] in items
    ensures forall i :: 0 <= i < |items| && items[i].manifest ==> items[i] in r
    ensures |r| <= |items|
  {
    if items == [] then []
    else (if items[0].manifest then [items[0]] else []) + InManifest(items[1..])
  }

  /** The manifest of appended item lists is the first list's manifest, then the second's. */
  lemma {:induction false} InManifestAppend(a: seq<Item>, b: seq<Item>)
    ensures InManifest(a + b) == InManifest(a) + InManifest(b)
  {
    if a == [] {
      assert a + b == b;
    } else {
      assert (a + b)[0] == a[0] && (a + b)[1..] == a[1..] + b;
      InManifestAppend(a[1..], b);
    }
  }

  /** A single item is listed once when it is marked for the manifest, and not at all otherwise. */
  lemma InManifestSingle(item: Item)
    ensures InManifest([item]) == if item.manifest then [item] else []
  {
    assert [item][1..] == [];
  }

  /** The `manifest` block: one `item` element per item of the manifest, in order. */
  function ManifestBlock(items: seq<Item>): (e: Element)
    ensures e.tag == Opf("manifest")
    ensures |e.children| == |InManifest(items)|
    ensures forall i :: 0 <= i < |e.children| ==> e.children[i] == ManifestItem(InManifest(items)[i])
  {
    var listed := InManifest(items);
    El(Opf("manifest"), map[], "", seq(|listed|, i requires 0 <= i < |listed| => ManifestItem(listed[i])))
  }

  /** An item that is listed in the manifest as the NCX. */
  predicate ManifestNcx(item: Item) {
    item.manifest && item.kind == Ncx
  }

  /** Item `i` is a manifest NCX and no later item is one. */
  predicate LastNcxAt(items: seq<Item>, i: int) {
    && 0 <= i < |items|
    && ManifestNcx(items[i])
    && forall j :: i < j < |items| ==> !ManifestNcx(items[j])
  }

  /** `_ncx_id`: the id of the last NCX item of the manifest. */
  function NcxId(items: seq<Item>): (r: Option<string>)
    ensures r.Some? ==> exists i :: LastNcxAt(items, i) && items[i].id == r.value
    ensures r.None? ==> forall i :: 0 <= i < |items| ==> !ManifestNcx(items[i])
    decreases |items|
  {
    if items == [] then None
    else
      var n := |items| - 1;
      if ManifestNcx(items[n]) then
        assert LastNcxAt(items, n);
        Some(items[n].id)
      else
        var r := NcxId(items[..n]);
        assert r.Some? ==> exists i :: LastNcxAt(items, i) && items[i].id == r.value by {
          if r.Some? {
            var i :| LastNcxAt(items[..n], i) && items[..n][i].id == r.value;
            assert LastNcxAt(items, i);
          }
        }
        assert r.None? ==> forall i :: 0 <= i < |items| ==> !ManifestNcx(items[i]) by {
          if r.None? {
            forall i | 0 <= i < |items| ensures !ManifestNcx(items[i]) {
              if i < n { assert items[i] == items[..n][i]; }
            }
          }
        }
        r
  }

  // ---------------------------------------------------------------------------
  // Spine

  /** Whether a spine entry is a tuple whose second element is `no`. */
  predicate MarkedNonLinear(e: SpineEntry) {
    e.linear == Some("no")
  }

  /** The item a spine entry stands for: the item itself, or the first with its id. */
  function Referenced(e: SpineEntry, items: seq<Item>): Option<Item> {
    match e.ref
    case ItemRef(item) => Some(item)
    case IdRef(id) => FindById(items, id)
  }

  /**
   * The `itemref` for one spine entry. It has `linear="no"` exactly when the entry resolves to
   * an item that is not linear or the entry is marked `no`; an id that names no item gets no
   * `linear` attribute whatever its mark.
   */
  function Itemref(e: SpineEntry, items: seq<Item>): (r: Element)
    ensures r.tag == Opf("itemref") && "idref" in r.attrs
    ensures r.attrs["idref"] == (match e.ref case ItemRef(item) => item.id case IdRef(id) => id)
    ensures "linear" in r.attrs <==>
      Referenced(e, items).Some? && (!Referenced(e, items).value.isLinear || MarkedNonLinear(e))
    ensures "linear" in r.attrs ==> r.attrs["linear"] == "no"
    ensures r.attrs.Keys <= {"idref", "linear"}
  {
    var linear := !MarkedNonLinear(e);
    match e.ref
    case ItemRef(item) =>
      var opts := map["idref" := item.id];
      El(Opf("itemref"), if !item.isLinear || !linear then opts["linear" := "no"] else opts, "", [])
    case IdRef(id) =>
      var opts := map["idref" := id];
      match FindById(items, id)
      case Some(itm) => El(Opf("itemref"), if !itm.isLinear || !linear then opts["linear" := "no"] else opts, "", [])
      case None => El(Opf("itemref"), opts, "", [])
  }

  /** The `spine` block: its `toc` names the NCX item, or `ncx` when there is none. */
  function SpineBlock(book: BookState, options: Options): (e: Element)
    ensures e.tag == Opf("spine") && "toc" in e.attrs
    ensures e.attrs["toc"] == if Filled(NcxId(book.items)) then NcxId(book.items).value else "ncx"
    ensures "page-progression-direction" in e.attrs <==> Filled(book.direction) && options.spineDirection
    ensures |e.children| == |book.spine|
    ensures forall i :: 0 <= i < |book.spine| ==> e.children[i] == Itemref(book.spine[i], book.items)
  {
    var ncx := NcxId(book.items);
    var attrs := map["toc" := if Filled(ncx) then ncx.value else "ncx"];
    var attrs' := if Filled(book.direction) && options.spineDirection
                  then attrs["page-progression-direction" := book.direction.value] else attrs;
    El(Opf("spine"), attrs', "",
       seq(|book.spine|, i requires 0 <= i < |book.spine| => Itemref(book.spine[i], book.items)))
  }

  // ---------------------------------------------------------------------------
  // Guide and bindings

  /**
   * The `reference` for one guide entry; an entry holding an item takes its file name and
   * title, and fails when the item is not a document.
   */
  function Reference(g: GuideEntry): (r: Result<Element>)
    ensures g.HrefGuide? ==> r.Ok?
    ensures g.ItemGuide? ==> (r.Ok? <==> IsHtml(g.item.kind))
    ensures r.Err? ==> r.error.AttributeError?
    ensures r.Ok? ==> r.value.tag == Opf("reference") && r.value.attrs.Keys == {"type", "title", "href"}
    ensures r.Ok? ==> r.value.attrs["type"] == g.guideType && r.value.children == []
    ensures r.Ok? && g.ItemGuide? ==> r.value.attrs["href"] == g.item.fileName && r.value.attrs["title"] == g.item.title
    ensures g.HrefGuide? ==> r.value.attrs["href"] == g.href && r.value.attrs["title"] == g.title
  {
    var target :- GuideTarget(g);
    Ok(El(Opf("reference"), map["type" := g.guideType, "title" := target.1, "href" := target.0], "", []))
  }

  /** The `guide` block: one `reference` per guide entry, in order, failing at the first entry that fails. */
  function GuideBlock(guide: seq<GuideEntry>): (r: Result<Element>)
    ensures r.Ok? <==> forall i :: 0 <= i < |guide| ==> GuideTarget(guide[i]).Ok?
    ensures r.Ok? ==> r.value.tag == Opf("guide") && |r.value.children| == |guide|
    ensures r.Ok? ==> forall i :: 0 <= i < |guide| ==> r.value.children[i] == Reference(guide[i]).value
  {
    var refs :- MapResults(Reference, guide);
    Ok(El(Opf("guide"), map[], "", refs))
  }

  function BindingsBlock(bindings: seq<map<string, string>>): Element {
    El(Opf("bindings"), map[], "", seq(|bindings|, i requires 0 <= i < |bindings| => El(Opf("mediaType"), bindings[i], "", [])))
  }

  // ---------------------------------------------------------------------------
  // The package

  /** The attributes of the `package` root. */
  function PackageAttrs(book: BookState, options: Options): map<string, string> {
    var attrs := map["unique-identifier" := book.identifierId, "version" := "3.0",
                     "prefix" := JoinWith(" ", [RENDITION_PREFIX] + book.prefixes)];
    if Filled(book.direction) && options.packageDirection then attrs["dir" := book.direction.value] else attrs
  }

  /** `_write_opf_file`: the package document. */
  function PackageDocument(book: BookState, options: Options): Result<Element> {
    var metadata :- MetadataBlock(book.metadata, options.mtime);
    var guide :- if |book.guide| > 0 && options.epub2Guide then (var g :- GuideBlock(book.guide); Ok([g])) else Ok([]);
    var bindings := if |book.bindings| > 0 then [BindingsBlock(book.bindings)] else [];
    Ok(Element(Opf("package"), None, [(None, OPF_NS)], PackageAttrs(book, options), "",
               [metadata, ManifestBlock(book.items), SpineBlock(book, options)] + guide + bindings))
  }

  /** The tags of the package's children, in order. */
  function Tags(es: seq<Element>): seq<string> {
    seq(|es|, i requires 0 <= i < |es| => es[i].tag)
  }

  /**
   * Writing the package fails exactly when a package-namespace metadata entry has no
   * attributes, or the EPUB 2 guide is written and holds an item that is not a document.
   */
  lemma PackageFails(book: BookState, options: Options)
    ensures PackageDocument(book, options).Err? <==>
      || HasBareOpfEntry(book.metadata)
      || (|book.guide| > 0 && options.epub2Guide &&
          exists i :: 0 <= i < |book.guide| && GuideTarget(book.guide[i]).Err?)
  {
    StoreElementsFail(book.metadata);
  }

  /**
   * The package holds metadata, manifest and spine, then a guide only when the book has one
   * and the EPUB 2 guide is asked for, then bindings only when the book has some.
   */
  lemma PackageBlocks(book: BookState, options: Options)
    ensures var r := PackageDocument(book, options);
      r.Ok? ==> (Tags(r.value.children) ==
                 [Opf("metadata"), Opf("manifest"), Opf("spine")]
                 + (if |book.guide| > 0 && options.epub2Guide then [Opf("guide")] else [])
                 + (if |book.bindings| > 0 then [Opf("bindings")] else []))
  {
  }

  /** The root declares version 3.0 and the identifier id; `dir` only when both the book and the options ask for it. */
  lemma PackageRoot(book: BookState, options: Options)
    ensures var r := PackageDocument(book, options);
      r.Ok? ==> (r.value.tag == Opf("package") && r.value.attrs["version"] == "3.0" &&
                 r.value.attrs["unique-identifier"] == book.identifierId &&
                 ("dir" in r.value.attrs <==> Filled(book.direction) && options.packageDirection))
  {
  }
}

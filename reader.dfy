/**
 * `EpubReader`: a book rebuilt from an archive — the container names the package document,
 * whose metadata, manifest, spine and guide fill the book, and whose NCX or nav document
 * gives the table of contents.
 */
module Reader {
  import opened Wrappers
  import opened Strings
  import opened Dicts
  import opened Xml
  import opened Metadata
  import opened Items
  import opened Toc
  import opened Paths
  import opened Book
  import opened Opf
  import opened Ncx
  import opened Nav
  import opened Writer

  // ---------------------------------------------------------------------------
  // The archive and the container

  /** Opening the archive: its members, or the failure `zipfile` reports. */
  datatype Zip = Opened(members: map<string, Blob>) | BadZip | LargeZip

  /** `read_file(name)`: a missing member raises KeyError. */
  function ReadFile(archive: map<string, Blob>, name: string): (r: Result<Blob>)
    ensures r.Ok? <==> name in archive
    ensures r.Ok? ==> r.value == archive[name]
  {
    if name in archive then Ok(archive[name]) else Err(KeyError(Some(name)))
  }

  /** A `rootfile` element of the container namespace with a media type. */
  predicate IsRootFile(e: Element) {
    e.tag == Clark(CONTAINER_NS, "rootfile") && "media-type" in e.attrs
  }

  /**
   * `findall('//rootfile[@media-type]')` on a tree: the matching elements below the root,
   * in document order, given the root's children.
   */
  function RootFilesIn(es: seq<Element>): (r: seq<Element>)
    ensures forall i :: 0 <= i < |r| ==> IsRootFile(r[i])
    ensures r == Filter(IsRootFile, PreorderIn(es))
    decreases es, 1
  {
    if es == [] then []
    else
      FilterAppend(IsRootFile, Preorder(es[0]), PreorderIn(es[1..]));
      RootFilesOf(es[0]) + RootFilesIn(es[1..])
  }

  /** The matching elements of a subtree, its own root included. */
  function RootFilesOf(e: Element): (r: seq<Element>)
    ensures forall i :: 0 <= i < |r| ==> IsRootFile(r[i])
    ensures r == Filter(IsRootFile, Preorder(e))
    decreases e, 0
  {
    assert ([e] + PreorderIn(e.children))[1..] == PreorderIn(e.children);
    (if IsRootFile(e) then [e] else []) + RootFilesIn(e.children)
  }

  /** A root file of the package document's media type. */
  predicate IsPackageRoot(e: Element) {
    Attr(e, "media-type", "") == OPF_MEDIA_TYPE
  }

  /**
   * The package document the root files name, and its directory: the `full-path` of the last
   * root file of the package media type, or `current` when there is none.
   */
  function OpfLocation(rootFiles: seq<Element>, current: (string, string)): (r: (string, string))
    ensures (forall i :: 0 <= i < |rootFiles| ==> !IsPackageRoot(rootFiles[i])) ==> r == current
    decreases |rootFiles|
  {
    if rootFiles == [] then current
    else
      var init := rootFiles[..|rootFiles| - 1];
      var last := rootFiles[|rootFiles| - 1];
      assert forall i :: 0 <= i < |init| ==> init[i] == rootFiles[i];
      NextLocation(OpfLocation(init, current), last)
  }

  /** One root file scanned: one of the package media type moves the location to its `full-path`. */
  function NextLocation(location: (string, string), rootFile: Element): (r: (string, string))
    ensures !IsPackageRoot(rootFile) ==> r == location
  {
    if IsPackageRoot(rootFile) then (Attr(rootFile, "full-path", ""), Dirname(Attr(rootFile, "full-path", ""))) else location
  }

  /** Scanning one more root file moves on from the location of those before it. */
  lemma LocationSnoc(rootFiles: seq<Element>, i: nat, current: (string, string))
    requires i < |rootFiles|
    ensures OpfLocation(rootFiles[..i + 1], current) == NextLocation(OpfLocation(rootFiles[..i], current), rootFiles[i])
  {
    assert rootFiles[..i + 1][..i] == rootFiles[..i];
  }

  /** The last root file of the package media type decides the location: its `full-path` and that path's directory. */
  lemma {:induction false} LastPackageRootWins(rootFiles: seq<Element>, current: (string, string), k: nat)
    requires k < |rootFiles| && IsPackageRoot(rootFiles[k])
    requires forall j :: k < j < |rootFiles| ==> !IsPackageRoot(rootFiles[j])
    ensures OpfLocation(rootFiles, current) == (Attr(rootFiles[k], "full-path", ""), Dirname(Attr(rootFiles[k], "full-path", "")))
    decreases |rootFiles|
  {
    if k < |rootFiles| - 1 {
      var init := rootFiles[..|rootFiles| - 1];
      assert init[k] == rootFiles[k];
      assert forall j :: k < j < |init| ==> init[j] == rootFiles[j];
      LastPackageRootWins(init, current, k);
    }
  }

  /** `_load_container`: the package document's location; a missing container is a KeyError. */
  function ContainerOpf(archive: map<string, Blob>, current: (string, string)): (r: Result<(string, string)>)
    ensures CONTAINER_PATH !in archive ==> r == Err(KeyError(Some(CONTAINER_PATH)))
    ensures CONTAINER_PATH in archive && archive[CONTAINER_PATH].Bytes? ==> r.Err? && r.error.XmlSyntaxError?
    ensures CONTAINER_PATH in archive && archive[CONTAINER_PATH].Doc? ==>
      r == Ok(OpfLocation(RootFilesIn(archive[CONTAINER_PATH].root.children), current))
  {
    var data :- ReadFile(archive, CONTAINER_PATH);
    var tree :- Parse(data);
    Ok(OpfLocation(RootFilesIn(tree.children), current))
  }

  // ---------------------------------------------------------------------------
  // Manifest entries

  const NCX_MEDIA_TYPE := "application/x-dtbncx+xml"
  const XHTML_MEDIA_TYPE := "application/xhtml+xml"
  const IMAGE_MEDIA_TYPES: seq<string> := ["image/jpeg", "image/jpg", "image/png", "image/svg+xml"]

  /** `s.split(sep)`: the pieces between separators, empty pieces kept. */
  function SplitOn(s: string, sep: char): (r: seq<string>)
    ensures |r| >= 1
    ensures forall i :: 0 <= i < |r| ==> sep !in r[i]
  {
    if s == [] then [""]
    else
      var rest := SplitOn(s[1..], sep);
      if s[0] == sep then [""] + rest else [[s[0]] + rest[0]] + rest[1..]
  }

  /** Joining the pieces again gives the string back. */
  lemma {:induction false} JoinSplitOn(s: string, sep: char)
    ensures JoinWith([sep], SplitOn(s, sep)) == s
  {
    if s != [] {
      var rest := SplitOn(s[1..], sep);
      JoinSplitOn(s[1..], sep);
      if s[0] == sep {
        assert SplitOn(s, sep) == [""] + rest;
        assert ([""] + rest)[1..] == rest;
      } else if |rest| == 1 {
        assert JoinWith([sep], rest) == rest[0];
        assert s == [s[0]] + s[1..];
      } else {
        assert JoinWith([sep], rest) == rest[0] + [sep] + JoinWith([sep], rest[1..]);
        var r := [[s[0]] + rest[0]] + rest[1..];
        assert r[1..] == rest[1..];
        assert s == [s[0]] + s[1..];
      }
    }
  }

  /** A piece without separator in front of the rest joins the first piece of the rest. */
  lemma {:induction false} SplitOnPrefix(a: string, b: string, sep: char)
    requires sep !in a
    ensures SplitOn(a + b, sep) == [a + SplitOn(b, sep)[0]] + SplitOn(b, sep)[1..]
  {
    if a != [] {
      assert (a + b)[1..] == a[1..] + b;
      SplitOnPrefix(a[1..], b, sep);
      assert [a[0]] + (a[1..] + SplitOn(b, sep)[0]) == a + SplitOn(b, sep)[0];
    } else {
      assert a + b == b;
      assert a + SplitOn(b, sep)[0] == SplitOn(b, sep)[0];
      assert SplitOn(b, sep) == [SplitOn(b, sep)[0]] + SplitOn(b, sep)[1..];
    }
  }

  /** Splitting the joined pieces gives the pieces back when none holds the separator. */
  lemma {:induction false} SplitJoinWith(parts: seq<string>, sep: char)
    requires |parts| >= 1
    requires forall i :: 0 <= i < |parts| ==> sep !in parts[i]
    ensures SplitOn(JoinWith([sep], parts), sep) == parts
  {
    if |parts| == 1 {
      SplitOnPrefix(parts[0], "", sep);
      assert SplitOn("", sep) == [""];
      assert parts[0] + "" == parts[0];
      assert JoinWith([sep], parts) == parts[0];
    } else {
      var rest := JoinWith([sep], parts[1..]);
      SplitJoinWith(parts[1..], sep);
      assert JoinWith([sep], parts) == parts[0] + ([sep] + rest);
      SplitOnPrefix(parts[0], [sep] + rest, sep);
      assert ([sep] + rest)[1..] == rest;
      assert SplitOn([sep] + rest, sep) == [""] + parts[1..];
      assert parts[0] + "" == parts[0];
      assert parts == [parts[0]] + parts[1..];
    }
  }

  /** The `properties` attribute as a list: split at spaces when not empty. */
  function PropertiesOf(attr: string): (r: seq<string>)
    ensures attr == "" ==> r == []
    ensures attr != "" ==> JoinWith(" ", r) == attr
  {
    if attr != "" then JoinSplitOn(attr, ' '); SplitOn(attr, ' ') else []
  }

  /** Properties that are words: not empty and without spaces. */
  predicate Words(properties: seq<string>) {
    forall i :: 0 <= i < |properties| ==> properties[i] != "" && ' ' !in properties[i]
  }

  /** Properties written as the manifest writes them read back as themselves. */
  lemma PropertiesReadBack(properties: seq<string>)
    requires Words(properties)
    ensures PropertiesOf(if |properties| > 0 then JoinWith(" ", properties) else "") == properties
  {
    if |properties| > 0 {
      SplitJoinWith(properties, ' ');
      assert " " == [' '];
      assert JoinWith(" ", properties) != "" by {
        if |properties| > 1 {
          assert JoinWith(" ", properties) == properties[0] + " " + JoinWith(" ", properties[1..]);
        }
      }
    }
  }

  /** People write `image/jpg`; the reader takes it for `image/jpeg`. */
  function FixMediaType(mediaType: string): (r: string)
    ensures mediaType == "image/jpg" ==> r == "image/jpeg"
    ensures mediaType != "image/jpg" ==> r == mediaType
  {
    if mediaType == "image/jpg" then "image/jpeg" else mediaType
  }

  /**
   * The class the reader builds for a manifest entry, from its media type and properties:
   * the NCX, the nav document, the cover page, a document, the cover image, an image, or a
   * plain item.
   */
  function Classify(mediaType: string, properties: seq<string>): (k: Kind)
    ensures k == Ncx <==> mediaType == NCX_MEDIA_TYPE
    ensures k == Nav <==> mediaType == XHTML_MEDIA_TYPE && "nav" in properties
    ensures k == CoverHtml <==> mediaType == XHTML_MEDIA_TYPE && "nav" !in properties && "cover" in properties
    ensures k == Html <==> mediaType == XHTML_MEDIA_TYPE && "nav" !in properties && "cover" !in properties
    ensures k == Cover <==> mediaType in IMAGE_MEDIA_TYPES && "cover-image" in properties
    ensures k == Image <==> mediaType in IMAGE_MEDIA_TYPES && "cover-image" !in properties
    ensures k == Generic <==> mediaType != NCX_MEDIA_TYPE && mediaType != XHTML_MEDIA_TYPE && mediaType !in IMAGE_MEDIA_TYPES
  {
    if mediaType == NCX_MEDIA_TYPE then Ncx
    else if mediaType == XHTML_MEDIA_TYPE then
      (if "nav" in properties then Nav else if "cover" in properties then CoverHtml else Html)
    else if mediaType in IMAGE_MEDIA_TYPES then
      (if "cover-image" in properties then Cover else Image)
    else Generic
  }

  /** The class of a manifest `item` element. */
  function ManifestKind(e: Element): Kind {
    Classify(FixMediaType(Attr(e, "media-type", "")), PropertiesOf(Attr(e, "properties", "")))
  }

  /** An item whose media type and properties agree with its class, as the reader tells classes apart. */
  predicate Consistent(item: Item) {
    match item.kind
    case Ncx => item.mediaType == NCX_MEDIA_TYPE
    case Nav => item.mediaType == XHTML_MEDIA_TYPE
    case Cover => item.mediaType in IMAGE_MEDIA_TYPES
    case CoverHtml => item.mediaType == XHTML_MEDIA_TYPE && Words(item.properties) &&
                      "nav" !in item.properties && "cover" in item.properties
    case Html => item.mediaType == XHTML_MEDIA_TYPE && Words(item.properties) &&
                 "nav" !in item.properties && "cover" !in item.properties
    case Image => item.mediaType in IMAGE_MEDIA_TYPES && Words(item.properties) && "cover-image" !in item.properties
    case Generic => item.mediaType != NCX_MEDIA_TYPE && item.mediaType != XHTML_MEDIA_TYPE &&
                    item.mediaType !in IMAGE_MEDIA_TYPES && Words(item.properties)
  }

  /** The manifest entry written for a consistent item is read back as an item of the same class. */
  lemma KindReadBack(item: Item)
    requires Consistent(item)
    ensures ManifestKind(ManifestItem(item)) == item.kind
  {
    var e := ManifestItem(item);
    var props := match item.kind
                 case Nav => ["nav"]
                 case Cover => ["cover-image"]
                 case Ncx => []
                 case _ => item.properties;
    assert PropertiesOf(Attr(e, "properties", "")) == props by {
      if item.kind == Nav {
        PropertyWord("nav");
      } else if item.kind == Cover {
        PropertyWord("cover-image");
      } else if item.kind != Ncx {
        PropertiesReadBack(item.properties);
      }
    }
    assert Attr(e, "media-type", "") == item.mediaType;
    ClassifyConsistent(item, props);
  }

  /** A single word reads back as itself. */
  lemma PropertyWord(w: string)
    requires w != "" && ' ' !in w
    ensures PropertiesOf(w) == [w]
  {
    PropertiesReadBack([w]);
    assert JoinWith(" ", [w]) == w;
  }

  /** The properties the manifest writes for a consistent item classify it as its own class. */
  lemma ClassifyConsistent(item: Item, props: seq<string>)
    requires Consistent(item)
    requires props == match item.kind
                      case Nav => ["nav"]
                      case Cover => ["cover-image"]
                      case Ncx => []
                      case _ => item.properties
    ensures Classify(FixMediaType(item.mediaType), props) == item.kind
  {
  }

  /**
   * The archive member a manifest entry's content is read from, relative to the package
   * document's directory: the unquoted href, except that the nav document's is the raw href.
   */
  function ManifestMember(e: Element, opfDir: string, unquote: string -> string): string {
    if ManifestKind(e) == Nav then Join(opfDir, Attr(e, "href", "")) else Join(opfDir, unquote(Attr(e, "href", "")))
  }

  /**
   * The item `_load_manifest` builds for a manifest entry, with its content read from the
   * archive; a missing member fails with KeyError. Every class but the cover page takes the
   * entry's id, unquoted href and corrected media type, and only a plain document keeps the
   * entry's properties; the cover page keeps all its constructor's defaults.
   */
  function ManifestEntry(e: Element, opfDir: string, archive: map<string, Blob>, unquote: string -> string): (r: Result<Item>)
    ensures r.Ok? <==> ManifestMember(e, opfDir, unquote) in archive
    ensures r.Err? ==> r.error == KeyError(Some(ManifestMember(e, opfDir, unquote)))
    ensures r.Ok? ==> r.value.kind == ManifestKind(e) && r.value.content == archive[ManifestMember(e, opfDir, unquote)]
    ensures r.Ok? && r.value.kind == CoverHtml ==> r.value == NewCoverHtml().(content := r.value.content)
    ensures r.Ok? && r.value.kind != CoverHtml ==>
      r.value == Item(r.value.kind, Attr(e, "id", ""), unquote(Attr(e, "href", "")), FixMediaType(Attr(e, "media-type", "")),
                      r.value.content, true, true, "", None, None, [],
                      if r.value.kind == Html then PropertiesOf(Attr(e, "properties", "")) else [], "")
  {
    var mediaType := FixMediaType(Attr(e, "media-type", ""));
    var properties := PropertiesOf(Attr(e, "properties", ""));
    var id := Attr(e, "id", "");
    var href := Attr(e, "href", "");
    match Classify(mediaType, properties)
    case Ncx =>
      var content :- ReadFile(archive, Join(opfDir, unquote(href)));
      Ok(NewNcx(id, unquote(href)).(content := content))
    case Nav =>
      var content :- ReadFile(archive, Join(opfDir, href));
      Ok(NewNav(id, unquote(href)).(content := content))
    case CoverHtml =>
      var content :- ReadFile(archive, Join(opfDir, unquote(href)));
      Ok(NewCoverHtml().(content := content))
    case Html =>
      var content :- ReadFile(archive, Join(opfDir, unquote(href)));
      Ok(NewHtml().(id := id, fileName := unquote(href), mediaType := mediaType, content := content, properties := properties))
    case Cover =>
      var content :- ReadFile(archive, Join(opfDir, unquote(href)));
      Ok(NewCover(id, unquote(href)).(mediaType := mediaType, content := content))
    case Image =>
      var content :- ReadFile(archive, Join(opfDir, unquote(href)));
      Ok(NewImage().(id := id, fileName := unquote(href), mediaType := mediaType, content := content))
    case Generic =>
      var content :- ReadFile(archive, Join(opfDir, unquote(href)));
      Ok(NewItem().(id := id, fileName := unquote(href), mediaType := mediaType, content := content))
  }

  /**
   * A consistent item's manifest entry, read back with its member in the archive and hrefs
   * taken as they are, gives an item of the same class, id and file name, with the member as
   * content and the media type as the reader corrects it; a document keeps its properties and
   * every other class reads back without any. The cover page is left out: the reader gives it
   * its own id and file name.
   */
  lemma ManifestEntryReadBack(item: Item, opfDir: string, archive: map<string, Blob>)
    requires Consistent(item) && item.kind != CoverHtml
    requires Join(opfDir, item.fileName) in archive
    ensures var r := ManifestEntry(ManifestItem(item), opfDir, archive, s => s);
      && r.Ok?
      && r.value.kind == item.kind && r.value.id == item.id && r.value.fileName == item.fileName
      && r.value.mediaType == FixMediaType(item.mediaType)
      && r.value.content == archive[Join(opfDir, item.fileName)]
      && r.value.properties == (if item.kind == Html then item.properties else [])
  {
    var e := ManifestItem(item);
    KindReadBack(item);
    if item.kind == Html {
      PropertiesReadBack(item.properties);
    }
    assert Attr(e, "href", "") == item.fileName && Attr(e, "id", "") == item.id;
  }

  // ---------------------------------------------------------------------------
  // Metadata

  /** The first index of `c` in `s`, or `|s|`. */
  function IndexOf(s: string, c: char): (k: nat)
    ensures k <= |s|
    ensures k < |s| ==> s[k] == c
    ensures forall i :: 0 <= i < k ==> s[i] != c
  {
    if s == [] then 0 else if s[0] == c then 0 else 1 + IndexOf(s[1..], c)
  }

  /** A `meta` name with a colon splits at the first colon into a prefix and a name. */
  function SplitName(name: string): (r: (Option<string>, string))
    ensures r.0.Some? <==> ':' in name
    ensures r.0.None? ==> r.1 == name
    ensures r.0.Some? ==> ':' !in r.0.value && r.0.value + ":" + r.1 == name
  {
    var k := IndexOf(name, ':');
    if k < |name| then
      assert name == name[..k] + ":" + name[k + 1..];
      (Some(name[..k]), name[k + 1..])
    else (None, name)
  }

  /** The read list of `name` in namespace `ns`, without alias resolution. */
  function LookupRaw(s: Store, ns: Option<string>, name: string): Option<seq<MetaEntry>> {
    match Get(s, ns)
    case None => None
    case Some(names) => Get(names, name)
  }

  /** `_load_metadata.add_item`: the entry goes at the end of its list, no other list changes. */
  function AddRead(s: Store, ns: Option<string>, name: string, e: MetaEntry): (r: Store)
    ensures LookupRaw(r, ns, name) == Some(LookupRaw(s, ns, name).GetOr([]) + [e])
    ensures forall ns', name' :: ns' != ns || name' != name ==> LookupRaw(r, ns', name') == LookupRaw(s, ns', name')
  {
    var names := GetOr(s, ns, []);
    var values := GetOr(names, name, []);
    Put(s, ns, Put(names, name, values + [e]))
  }

  /** `dict((v, {}) for v in nsmap.values())`: an empty name table per declared namespace. */
  function InitialStore(nsmap: Dict<Option<string>, string>): (r: Store)
    ensures forall i :: 0 <= i < |nsmap| ==> Get(r, Some(nsmap[i].1)) == Some([])
    ensures forall ns :: Get(r, ns).Some? ==> exists i :: 0 <= i < |nsmap| && ns == Some(nsmap[i].1)
    decreases |nsmap|
  {
    if nsmap == [] then []
    else
      var init := nsmap[..|nsmap| - 1];
      var before := InitialStore(init);
      InitialStoreStep(before, init, nsmap);
      Put(before, Some(nsmap[|nsmap| - 1].1), [])
  }

  /** One more declared namespace: its empty table joins those of the namespaces before it. */
  lemma InitialStoreStep(before: Store, init: Dict<Option<string>, string>, nsmap: Dict<Option<string>, string>)
    requires nsmap != [] && init == nsmap[..|nsmap| - 1]
    requires forall i :: 0 <= i < |init| ==> Get(before, Some(init[i].1)) == Some([])
    requires forall ns :: Get(before, ns).Some? ==> exists i :: 0 <= i < |init| && ns == Some(init[i].1)
    ensures var r := Put(before, Some(nsmap[|nsmap| - 1].1), []);
      && (forall i :: 0 <= i < |nsmap| ==> Get(r, Some(nsmap[i].1)) == Some([]))
      && (forall ns :: Get(r, ns).Some? ==> exists i :: 0 <= i < |nsmap| && ns == Some(nsmap[i].1))
  {
    var k := Some(nsmap[|nsmap| - 1].1);
    var r := Put(before, k, []);
    forall i | 0 <= i < |nsmap|
      ensures Get(r, Some(nsmap[i].1)) == Some([])
    {
      var ns := Some(nsmap[i].1);
      if i < |init| && ns != k {
        assert nsmap[i] == init[i];
        assert Get(r, ns) == Get(before, ns);
      }
    }
    forall ns | Get(r, ns).Some?
      ensures exists i :: 0 <= i < |nsmap| && ns == Some(nsmap[i].1)
    {
      if ns != k {
        assert Get(before, ns) == Get(r, ns);
        var i :| 0 <= i < |init| && ns == Some(init[i].1);
        assert init[i] == nsmap[i];
      }
    }
  }

  /** The metadata read so far and the identifier id chosen so far. */
  datatype MetaState = MetaState(store: Store, identifierId: string)

  /** The namespace a `meta` entry goes under: its prefix's namespace, the prefix itself, or the default namespace. */
  function MetaNamespace(t: Element, prefix: Option<string>): Option<string> {
    match prefix
    case Some(p) => (match Get(t.nsmap, Some(p)) case Some(uri) => Some(uri) case None => Some(p))
    case None => Get(t.nsmap, None)
  }

  /**
   * One child of the metadata block: a `meta` of the default namespace goes under its name's
   * namespace and local name; any other element under its own namespace and local name, and a
   * `dc:identifier` with a non-empty id makes that id the identifier id.
   */
  function ReadMetaChild(st: MetaState, t: Element, defaultNs: string): (r: Result<MetaState>)
    ensures t.tag == defaultNs + "meta" ==>
      (var (prefix, name) := SplitName(Attr(t, "name", ""));
       r.Ok? && r.value.store == AddRead(st.store, MetaNamespace(t, prefix), name, MetaEntry(t.text, Some(t.attrs))))
    ensures t.tag != defaultNs + "meta" ==> (r.Ok? <==> Get(t.nsmap, t.prefix).Some?)
    ensures r.Err? ==> r.error == KeyError(t.prefix)
    ensures r.Ok? && t.tag != defaultNs + "meta" ==>
      r.value.store == AddRead(st.store, Get(t.nsmap, t.prefix), LocalName(t.tag), MetaEntry(t.text, Some(t.attrs)))
    ensures r.Ok? && t.tag != defaultNs + "meta" ==>
      r.value.identifierId ==
        (if t.prefix.Some? && LowerAscii(t.prefix.value) == "dc" && LocalName(t.tag) == "identifier" && Attr(t, "id", "") != ""
         then Attr(t, "id", "") else st.identifierId)
    ensures t.tag == defaultNs + "meta" ==> r.Ok? && r.value.identifierId == st.identifierId
  {
    var entry := MetaEntry(t.text, Some(t.attrs));
    if t.tag == defaultNs + "meta" then
      var (prefix, name) := SplitName(Attr(t, "name", ""));
      Ok(st.(store := AddRead(st.store, MetaNamespace(t, prefix), name, entry)))
    else
      var tag := LocalName(t.tag);
      var id := Attr(t, "id", "");
      var identifierId := if t.prefix.Some? && LowerAscii(t.prefix.value) == "dc" && tag == "identifier" && id != ""
                          then id else st.identifierId;
      match Get(t.nsmap, t.prefix)
      case None => Err(KeyError(t.prefix))
      case Some(uri) => Ok(MetaState(AddRead(st.store, Some(uri), tag, entry), identifierId))
  }

  /**
   * The children of the metadata block, read in order: the loop of `_load_metadata`, which
   * fails only on a child whose prefix is undeclared, with KeyError on that prefix.
   */
  function ReadMetaChildren(st: MetaState, kids: seq<Element>, defaultNs: string): (r: Result<MetaState>)
    ensures r.Err? ==>
      exists i :: (0 <= i < |kids| && kids[i].tag != defaultNs + "meta" &&
                   Get(kids[i].nsmap, kids[i].prefix).None? && r.error == KeyError(kids[i].prefix))
    decreases |kids|
  {
    if kids == [] then Ok(st)
    else
      var before :- ReadMetaChildren(st, kids[..|kids| - 1], defaultNs);
      ReadMetaChild(before, kids[|kids| - 1], defaultNs)
  }

  /** Reading one more child of the metadata block. */
  lemma ReadMetaChildrenSnoc(st: MetaState, kids: seq<Element>, i: nat, defaultNs: string)
    requires i < |kids|
    ensures ReadMetaChildren(st, kids[..i + 1], defaultNs) ==
      (var before := ReadMetaChildren(st, kids[..i], defaultNs);
       if before.Err? then before else ReadMetaChild(before.value, kids[i], defaultNs))
  {
    assert kids[..i + 1][..i] == kids[..i];
  }

  /** A failure on a prefix of the metadata block is the failure of the whole block. */
  lemma {:induction false} ReadMetaChildrenFails(st: MetaState, kids: seq<Element>, n: nat, defaultNs: string)
    requires n <= |kids| && ReadMetaChildren(st, kids[..n], defaultNs).Err?
    ensures ReadMetaChildren(st, kids, defaultNs) == ReadMetaChildren(st, kids[..n], defaultNs)
    decreases |kids| - n
  {
    if n < |kids| {
      var next := kids[..n + 1];
      assert next[..n] == kids[..n];
      assert ReadMetaChildren(st, next, defaultNs) == ReadMetaChildren(st, kids[..n], defaultNs);
      ReadMetaChildrenFails(st, kids, n + 1, defaultNs);
    } else {
      assert kids[..n] == kids;
    }
  }

  /** Whether an identifier entry carries the identifier id. */
  predicate Labelled(e: MetaEntry, id: string) {
    e.others.Some? && "id" in e.others.value && e.others.value["id"] == id
  }

  /** The uid: the value of the last identifier labelled with the identifier id, else the current uid. */
  function UidOf(ids: seq<MetaEntry>, id: string, current: string): (r: Result<string>)
    ensures r.Ok? <==> forall i :: 0 <= i < |ids| ==> ids[i].others.Some?
    ensures r.Err? ==> r == Err(AttributeError("'NoneType' object has no attribute 'get'"))
    ensures r.Ok? && (forall i :: 0 <= i < |ids| ==> !Labelled(ids[i], id)) ==> r.value == current
    ensures r.Ok? && (exists i :: 0 <= i < |ids| && Labelled(ids[i], id)) ==>
      exists i :: 0 <= i < |ids| && Labelled(ids[i], id) && r.value == ids[i].value &&
        forall j :: i < j < |ids| ==> !Labelled(ids[j], id)
    decreases |ids|
  {
    if ids == [] then Ok(current)
    else
      var init := ids[..|ids| - 1];
      var last := ids[|ids| - 1];
      assert forall i :: 0 <= i < |init| ==> init[i] == ids[i];
      var before :- UidOf(init, id, current);
      if last.others.None? then Err(AttributeError("'NoneType' object has no attribute 'get'"))
      else Ok(if Labelled(last, id) then last.value else before)
  }

  /** The namespace prefix in Clark notation of the default namespace, or nothing. */
  function DefaultPrefix(e: Element): string {
    match Get(e.nsmap, None)
    case Some(uri) => "{" + uri + "}"
    case None => ""
  }

  /** The identifier id the package names, if any, else the current one. */
  function PackageIdentifierId(root: Element, current: string): string {
    if Attr(root, "unique-identifier", "") != "" then Attr(root, "unique-identifier", "") else current
  }

  /** The package's version attribute. */
  function VersionOf(root: Element): Option<string> {
    if "version" in root.attrs then Some(root.attrs["version"]) else None
  }

  /** The package's metadata block; a missing one fails on its `nsmap`. */
  function MetadataElement(root: Element): (r: Result<Element>)
    ensures r.Ok? <==> Find(root.children, Opf.Opf("metadata")).Some?
  {
    match Find(root.children, Opf.Opf("metadata"))
    case None => Err(AttributeError("'NoneType' object has no attribute 'nsmap'"))
    case Some(m) => Ok(m)
  }

  /** What `_load_metadata` reads from the package: the metadata, the identifier id, the DC titles and the uid. */
  datatype MetadataRead = MetadataRead(store: Store, identifierId: string, titles: seq<MetaEntry>, uid: string)

  /** The package's metadata block, read child by child from the declared namespaces. */
  function MetadataBlock(root: Element, identifierId: string): (r: Result<MetaState>)
    ensures MetadataElement(root).Err? ==> r == Err(MetadataElement(root).error)
    ensures MetadataElement(root).Ok? ==>
      var md := MetadataElement(root).value;
      r == ReadMetaChildren(MetaState(InitialStore(md.nsmap), PackageIdentifierId(root, identifierId)),
                            md.children, DefaultPrefix(md))
  {
    var md :- MetadataElement(root);
    ReadMetaChildren(MetaState(InitialStore(md.nsmap), PackageIdentifierId(root, identifierId)),
                     md.children, DefaultPrefix(md))
  }

  /**
   * The metadata block read, then the DC titles and the uid looked up in it; a package without
   * DC title or DC identifier fails with KeyError.
   */
  function PackageMetadata(root: Element, identifierId: string, uid: string): (r: Result<MetadataRead>)
    ensures r.Ok? <==>
      (MetadataBlock(root, identifierId).Ok? &&
       var st := MetadataBlock(root, identifierId).value;
       && Lookup(st.store, Some("DC"), "title").Some?
       && Lookup(st.store, Some("DC"), "identifier").Some?
       && UidOf(Lookup(st.store, Some("DC"), "identifier").value, st.identifierId, uid).Ok?)
    ensures MetadataBlock(root, identifierId).Err? ==> r == Err(MetadataBlock(root, identifierId).error)
    ensures MetadataBlock(root, identifierId).Ok? &&
            Get(MetadataBlock(root, identifierId).value.store, Some(DC_NS)).None? ==>
      r == Err(KeyError(Some(DC_NS)))
    ensures MetadataBlock(root, identifierId).Ok? &&
            Get(MetadataBlock(root, identifierId).value.store, Some(DC_NS)).Some? &&
            Lookup(MetadataBlock(root, identifierId).value.store, Some("DC"), "title").None? ==>
      r == Err(KeyError(Some("title")))
    ensures MetadataBlock(root, identifierId).Ok? &&
            Lookup(MetadataBlock(root, identifierId).value.store, Some("DC"), "title").Some? &&
            Lookup(MetadataBlock(root, identifierId).value.store, Some("DC"), "identifier").None? ==>
      r == Err(KeyError(Some("identifier")))
    ensures r.Ok? ==> Lookup(r.value.store, Some("DC"), "title") == Some(r.value.titles)
    ensures r.Ok? ==> Lookup(r.value.store, Some("DC"), "identifier").Some?
    ensures r.Ok? ==>
      (MetadataElement(root).Ok? &&
       var md := MetadataElement(root).value;
       ReadMetaChildren(MetaState(InitialStore(md.nsmap), PackageIdentifierId(root, identifierId)), md.children, DefaultPrefix(md))
         == Ok(MetaState(r.value.store, r.value.identifierId)))
    ensures r.Ok? ==> UidOf(Lookup(r.value.store, Some("DC"), "identifier").value, r.value.identifierId, uid) == Ok(r.value.uid)
  {
    var st :- MetadataBlock(root, identifierId);
    var titles :- GetMetadata(st.store, Some("DC"), "title");
    var ids :- GetMetadata(st.store, Some("DC"), "identifier");
    var newUid :- UidOf(ids, st.identifierId, uid);
    Ok(MetadataRead(st.store, st.identifierId, titles, newUid))
  }

  /** `_load_metadata`: the version, the metadata, the identifier id, the first DC title and the uid. */
  function LoadedMetadata(s: BookState, root: Element): (r: Result<BookState>)
    ensures r.Ok? <==> PackageMetadata(root, s.identifierId, s.uid).Ok?
    ensures r.Err? ==> r.error == PackageMetadata(root, s.identifierId, s.uid).error
    ensures r.Ok? ==>
      var m := PackageMetadata(root, s.identifierId, s.uid).value;
      r.value == s.(version := VersionOf(root), metadata := m.store, identifierId := m.identifierId,
                    title := if |m.titles| > 0 then m.titles[0].value else s.title, uid := m.uid)
  {
    var m :- PackageMetadata(root, s.identifierId, s.uid);
    Ok(s.(version := VersionOf(root), metadata := m.store, identifierId := m.identifierId,
          title := if |m.titles| > 0 then m.titles[0].value else s.title, uid := m.uid))
  }

  /** The reading part of `_load_metadata`. */
  method ReadMetadata(root: Element, identifierId: string, uid: string) returns (r: Result<MetadataRead>)
    ensures r == PackageMetadata(root, identifierId, uid)
  {
    var found := MetadataElement(root);
    if found.Err? {
      return Err(found.error);
    }
    var metadata := found.value;
    var read := ReadMetaBlock(metadata, MetaState(InitialStore(metadata.nsmap), PackageIdentifierId(root, identifierId)));
    if read.Err? {
      return Err(read.error);
    }
    var titles := GetMetadata(read.value.store, Some("DC"), "title");
    if titles.Err? {
      return Err(titles.error);
    }
    var ids := GetMetadata(read.value.store, Some("DC"), "identifier");
    if ids.Err? {
      return Err(ids.error);
    }
    var newUid := ResolveUid(ids.value, read.value.identifierId, uid);
    if newUid.Err? {
      return Err(newUid.error);
    }
    return Ok(MetadataRead(read.value.store, read.value.identifierId, titles.value, newUid.value));
  }

  /** The loop of `_load_metadata` over the children of the metadata block. */
  method ReadMetaBlock(metadata: Element, start: MetaState) returns (r: Result<MetaState>)
    ensures r == ReadMetaChildren(start, metadata.children, DefaultPrefix(metadata))
  {
    var defaultNs := DefaultPrefix(metadata);
    var kids := metadata.children;
    var st := start;
    var i := 0;
    while i < |kids|
      invariant 0 <= i <= |kids|
      invariant ReadMetaChildren(start, kids[..i], defaultNs) == Ok(st)
    {
      ReadMetaChildrenSnoc(start, kids, i, defaultNs);
      var next := ReadMetaChild(st, kids[i], defaultNs);
      if next.Err? {
        ReadMetaChildrenFails(start, kids, i + 1, defaultNs);
        return next;
      }
      st := next.value;
      i := i + 1;
    }
    assert kids[..i] == kids;
    return Ok(st);
  }

  /** The loop of `_load_metadata` over the DC identifiers: the last one labelled with the identifier id gives the uid. */
  method ResolveUid(ids: seq<MetaEntry>, identifierId: string, current: string) returns (r: Result<string>)
    ensures r == UidOf(ids, identifierId, current)
  {
    var uid := current;
    var j := 0;
    while j < |ids|
      invariant 0 <= j <= |ids|
      invariant UidOf(ids[..j], identifierId, current) == Ok(uid)
    {
      assert ids[..j + 1][..j] == ids[..j];
      if ids[j].others.None? {
        assert ids[..j + 1][j].others.None?;
        return Err(AttributeError("'NoneType' object has no attribute 'get'"));
      }
      if Labelled(ids[j], identifierId) {
        uid := ids[j].value;
      }
      j := j + 1;
    }
    assert ids[..j] == ids;
    return Ok(uid);
  }

  // ---------------------------------------------------------------------------
  // Spine and guide

  /** `(idref, linear)` for each child of the spine, `linear` defaulting to `yes`. */
  function SpineEntries(kids: seq<Element>): (r: seq<SpineEntry>)
    ensures |r| == |kids|
    ensures forall i :: 0 <= i < |kids| ==>
      r[i] == SpineEntry(IdRef(Attr(kids[i], "idref", "")), Some(Attr(kids[i], "linear", "yes")))
  {
    seq(|kids|, i requires 0 <= i < |kids| => SpineEntry(IdRef(Attr(kids[i], "idref", "")), Some(Attr(kids[i], "linear", "yes"))))
  }

  /** The id a spine entry is written with. */
  function RefId(e: SpineEntry): string {
    match e.ref
    case ItemRef(item) => item.id
    case IdRef(id) => id
  }

  /**
   * The written spine reads back entry by entry as the ids written, marked `no` exactly
   * where the writer marked the itemref non-linear, and `yes` elsewhere.
   */
  lemma SpineReadBack(book: BookState, options: Options)
    ensures var read := SpineEntries(SpineBlock(book, options).children);
      && |read| == |book.spine|
      && forall i :: 0 <= i < |book.spine| ==>
           read[i] == SpineEntry(IdRef(RefId(book.spine[i])),
             Some(if Referenced(book.spine[i], book.items).Some? &&
                     (!Referenced(book.spine[i], book.items).value.isLinear || MarkedNonLinear(book.spine[i]))
                  then "no" else "yes"))
  {
    var kids := SpineBlock(book, options).children;
    forall i | 0 <= i < |book.spine|
      ensures Attr(kids[i], "idref", "") == RefId(book.spine[i])
    {
      assert kids[i] == Itemref(book.spine[i], book.items);
    }
  }

  /** `{'href', 'title', 'type'}` for each child of the guide. */
  function GuideEntries(kids: seq<Element>): (r: seq<GuideEntry>)
    ensures |r| == |kids|
    ensures forall i :: 0 <= i < |kids| ==>
      r[i] == HrefGuide(Attr(kids[i], "href", ""), Attr(kids[i], "title", ""), Attr(kids[i], "type", ""))
  {
    seq(|kids|, i requires 0 <= i < |kids| => HrefGuide(Attr(kids[i], "href", ""), Attr(kids[i], "title", ""), Attr(kids[i], "type", "")))
  }

  /** The written guide reads back as href entries: an entry holding an item becomes its file name and title. */
  lemma GuideReadBack(guide: seq<GuideEntry>)
    requires GuideBlock(guide).Ok?
    ensures var read := GuideEntries(GuideBlock(guide).value.children);
      && |read| == |guide|
      && forall i :: 0 <= i < |guide| ==>
           (GuideTarget(guide[i]).Ok? &&
            read[i] == HrefGuide(GuideTarget(guide[i]).value.0, GuideTarget(guide[i]).value.1, guide[i].guideType))
  {
    var kids := GuideBlock(guide).value.children;
    forall i | 0 <= i < |guide|
      ensures GuideTarget(guide[i]).Ok? &&
        GuideEntries(kids)[i] == HrefGuide(GuideTarget(guide[i]).value.0, GuideTarget(guide[i]).value.1, guide[i].guideType)
    {
      assert kids[i] == Reference(guide[i]).value;
    }
  }

  /** The container the writer stores names the package document where the writer puts it. */
  lemma ContainerReadBack(archive: map<string, Blob>, folder: string, current: (string, string))
    requires CONTAINER_PATH in archive && archive[CONTAINER_PATH] == Doc(ContainerDocument(folder))
    ensures ContainerOpf(archive, current) == Ok((OpfPath(folder), Dirname(OpfPath(folder))))
  {
    var doc := ContainerDocument(folder);
    var rootfiles := doc.children[0];
    var rootfile := rootfiles.children[0];
    assert rootfiles.tag == Clark(CONTAINER_NS, "rootfiles");
    OneRootFile(doc, rootfiles, rootfile);
    assert OpfLocation([rootfile], current) == NextLocation(current, rootfile) by {
      assert [rootfile][..0] == [];
    }
  }

  /** A container whose one child holds one root file and nothing else names that root file alone. */
  lemma OneRootFile(doc: Element, rootfiles: Element, rootfile: Element)
    requires doc.children == [rootfiles] && rootfiles.children == [rootfile] && rootfile.children == []
    requires !IsRootFile(rootfiles) && IsRootFile(rootfile)
    ensures RootFilesIn(doc.children) == [rootfile]
  {
    assert RootFilesOf(rootfile) == [rootfile];
    assert RootFilesIn(rootfiles.children) == [rootfile];
    assert RootFilesOf(rootfiles) == [rootfile];
  }

  // ---------------------------------------------------------------------------
  // The whole package document, as functions of the state before each step

  /** The manifest block; a missing one fails when iterated. */
  function ManifestElement(root: Element): (r: Result<Element>)
    ensures r.Ok? <==> Find(root.children, Opf.Opf("manifest")).Some?
  {
    match Find(root.children, Opf.Opf("manifest"))
    case None => Err(TypeError("'NoneType' object is not iterable"))
    case Some(m) => Ok(m)
  }

  /** The items of the manifest's `item` children, in order; other children are skipped. */
  function ReadManifest(kids: seq<Element>, opfDir: string, archive: map<string, Blob>, unquote: string -> string): (r: Result<seq<Item>>)
    ensures r.Ok? ==> |r.value| <= |kids|
    decreases |kids|
  {
    if kids == [] then Ok([])
    else
      var before :- ReadManifest(kids[..|kids| - 1], opfDir, archive, unquote);
      var last := kids[|kids| - 1];
      if last.tag != Opf.Opf("item") then Ok(before)
      else
        var item :- ManifestEntry(last, opfDir, archive, unquote);
        Ok(before + [item])
  }

  /** A failure on a prefix of the manifest is the failure of the whole manifest. */
  lemma {:induction false} ReadManifestFails(kids: seq<Element>, n: nat, opfDir: string, archive: map<string, Blob>, unquote: string -> string)
    requires n <= |kids| && ReadManifest(kids[..n], opfDir, archive, unquote).Err?
    ensures ReadManifest(kids, opfDir, archive, unquote) == ReadManifest(kids[..n], opfDir, archive, unquote)
    decreases |kids| - n
  {
    if n < |kids| {
      var next := kids[..n + 1];
      assert next[..n] == kids[..n];
      assert ReadManifest(next, opfDir, archive, unquote) == ReadManifest(kids[..n], opfDir, archive, unquote);
      ReadManifestFails(kids, n + 1, opfDir, archive, unquote);
    } else {
      assert kids[..n] == kids;
    }
  }

  /** Reading one more child of the manifest. */
  lemma ReadManifestSnoc(kids: seq<Element>, i: nat, opfDir: string, archive: map<string, Blob>, unquote: string -> string)
    requires i < |kids|
    ensures ReadManifest(kids[..i + 1], opfDir, archive, unquote) ==
      (var before := ReadManifest(kids[..i], opfDir, archive, unquote);
       if before.Err? || kids[i].tag != Opf.Opf("item") then before
       else
         var entry := ManifestEntry(kids[i], opfDir, archive, unquote);
         if entry.Err? then Err(entry.error) else Ok(before.value + [entry.value]))
  {
    assert kids[..i + 1][..i] == kids[..i];
  }

  /**
   * `add_item` applied to each item in turn: the items are appended in order, each completed
   * with the counters left by the ones before; nothing else of the book changes.
   */
  function AddAll(s: BookState, items: seq<Item>, guess: string -> Guess): (r: BookState)
    ensures r == s.(items := r.items, idHtml := r.idHtml, idImage := r.idImage)
    ensures |r.items| == |s.items| + |items| && r.items[..|s.items|] == s.items
    ensures forall k :: 0 <= k < |items| ==>
      r.items[|s.items| + k] == items[k].(id := r.items[|s.items| + k].id, mediaType := r.items[|s.items| + k].mediaType)
    ensures forall k :: 0 <= k < |items| && items[k].id != "" ==> r.items[|s.items| + k].id == items[k].id
    decreases |items|
  {
    if items == [] then s
    else
      var before := AddAll(s, items[..|items| - 1], guess);
      var c := Completed(items[|items| - 1], before.idHtml, before.idImage, guess);
      var r := before.(items := before.items + [c.0], idHtml := c.1, idImage := c.2);
      AddAllStep(s, items[..|items| - 1], items[|items| - 1], before, r);
      assert items[..|items| - 1] + [items[|items| - 1]] == items;
      r
  }

  /** One more completed item appended keeps what `AddAll` promises. */
  lemma AddAllStep(s: BookState, init: seq<Item>, last: Item, before: BookState, r: BookState)
    requires before == s.(items := before.items, idHtml := before.idHtml, idImage := before.idImage)
    requires |before.items| == |s.items| + |init| && before.items[..|s.items|] == s.items
    requires forall k :: 0 <= k < |init| ==>
      before.items[|s.items| + k] == init[k].(id := before.items[|s.items| + k].id, mediaType := before.items[|s.items| + k].mediaType)
    requires forall k :: 0 <= k < |init| && init[k].id != "" ==> before.items[|s.items| + k].id == init[k].id
    requires |r.items| == |before.items| + 1 && r.items[..|before.items|] == before.items
    requires r == before.(items := r.items, idHtml := r.idHtml, idImage := r.idImage)
    requires r.items[|before.items|] == last.(id := r.items[|before.items|].id, mediaType := r.items[|before.items|].mediaType)
    requires last.id != "" ==> r.items[|before.items|].id == last.id
    ensures var items := init + [last];
      && r == s.(items := r.items, idHtml := r.idHtml, idImage := r.idImage)
      && |r.items| == |s.items| + |items| && r.items[..|s.items|] == s.items
      && (forall k :: 0 <= k < |items| ==>
            r.items[|s.items| + k] == items[k].(id := r.items[|s.items| + k].id, mediaType := r.items[|s.items| + k].mediaType))
      && (forall k :: 0 <= k < |items| && items[k].id != "" ==> r.items[|s.items| + k].id == items[k].id)
  {
    var items := init + [last];
    assert forall k :: 0 <= k < |before.items| ==> r.items[k] == before.items[k];
    assert forall k :: 0 <= k < |init| ==> items[k] == init[k];
    assert r.items[..|s.items|] == before.items[..|s.items|];
  }

  /** Adding one more item. */
  lemma AddAllSnoc(s: BookState, items: seq<Item>, item: Item, guess: string -> Guess)
    ensures AddAll(s, items + [item], guess) ==
      (var before := AddAll(s, items, guess);
       var c := Completed(item, before.idHtml, before.idImage, guess);
       before.(items := before.items + [c.0], idHtml := c.1, idImage := c.2))
  {
    assert (items + [item])[..|items|] == items;
  }

  /** `_load_manifest`: the manifest's items added to the book. */
  function LoadedManifest(s: BookState, root: Element, opfDir: string, archive: map<string, Blob>,
                          unquote: string -> string, guess: string -> Guess): (r: Result<BookState>)
    ensures r.Ok? <==> ManifestElement(root).Ok? && ReadManifest(ManifestElement(root).value.children, opfDir, archive, unquote).Ok?
    ensures r.Ok? ==> r.value == AddAll(s, ReadManifest(ManifestElement(root).value.children, opfDir, archive, unquote).value, guess)
  {
    var manifest :- ManifestElement(root);
    var items :- ReadManifest(manifest.children, opfDir, archive, unquote);
    Ok(AddAll(s, items, guess))
  }

  /** The spine block; a missing one fails when iterated. */
  function SpineElement(root: Element): (r: Result<Element>)
    ensures r.Ok? <==> Find(root.children, Opf.Opf("spine")).Some?
  {
    match Find(root.children, Opf.Opf("spine"))
    case None => Err(TypeError("'NoneType' object is not iterable"))
    case Some(m) => Ok(m)
  }

  /** The spine's page progression direction, if it has one. */
  function DirectionOf(spine: Element): Option<string> {
    if "page-progression-direction" in spine.attrs then Some(spine.attrs["page-progression-direction"]) else None
  }

  /** The table of contents of an XML blob holding an NCX document. */
  function NcxOf(data: Blob): (r: Result<seq<Entry>>)
    ensures data.Bytes? ==> r.Err? && r.error.XmlSyntaxError?
    ensures data.Doc? ==> r == ParseNcx(data.root)
  {
    var root :- Parse(data);
    ParseNcx(root)
  }

  /**
   * The NCX the spine names, read from the archive: an unknown id fails on the missing item,
   * a missing member with code -1.
   */
  function NcxToc(items: seq<Item>, tocId: string, opfDir: string, archive: map<string, Blob>): (r: Result<seq<Entry>>)
    ensures FindById(items, tocId).None? ==> r.Err? && r.error.AttributeError?
    ensures FindById(items, tocId).Some? && Join(opfDir, FindById(items, tocId).value.fileName) !in archive ==>
      r == Err(EpubException(-1, "Can not find ncx file."))
    ensures FindById(items, tocId).Some? && Join(opfDir, FindById(items, tocId).value.fileName) in archive ==>
      r == NcxOf(archive[Join(opfDir, FindById(items, tocId).value.fileName)])
  {
    match FindById(items, tocId)
    case None => Err(AttributeError("'NoneType' object has no attribute 'get_name'"))
    case Some(item) =>
      var data := ReadFile(archive, Join(opfDir, item.fileName));
      if data.Err? then Err(EpubException(-1, "Can not find ncx file.")) else NcxOf(data.value)
  }

  /**
   * `_load_spine`: the spine's entries and direction, and, when the spine names a table of
   * contents, the NCX it names.
   */
  function LoadedSpine(s: BookState, root: Element, opfDir: string, archive: map<string, Blob>): (r: Result<BookState>)
    ensures r.Ok? <==>
      (SpineElement(root).Ok? &&
       (Attr(SpineElement(root).value, "toc", "") == "" ||
        NcxToc(s.items, Attr(SpineElement(root).value, "toc", ""), opfDir, archive).Ok?))
    ensures Find(root.children, Opf.Opf("spine")).None? ==> r == Err(TypeError("'NoneType' object is not iterable"))
    ensures r.Ok? ==>
      var spine := SpineElement(root).value;
      && r.value == s.(spine := SpineEntries(spine.children), direction := DirectionOf(spine), toc := r.value.toc)
      && (Attr(spine, "toc", "") == "" ==> r.value.toc == s.toc)
      && (Attr(spine, "toc", "") != "" ==> NcxToc(s.items, Attr(spine, "toc", ""), opfDir, archive) == Ok(r.value.toc))
    ensures (SpineElement(root).Ok? && Attr(SpineElement(root).value, "toc", "") != "" &&
             NcxToc(s.items, Attr(SpineElement(root).value, "toc", ""), opfDir, archive).Err?) ==>
      r == Err(NcxToc(s.items, Attr(SpineElement(root).value, "toc", ""), opfDir, archive).error)
  {
    var spine :- SpineElement(root);
    var tocId := Attr(spine, "toc", "");
    var toc :- if tocId == "" then Ok(s.toc) else NcxToc(s.items, tocId, opfDir, archive);
    Ok(s.(spine := SpineEntries(spine.children), direction := DirectionOf(spine), toc := toc))
  }

  /** `_load_guide`: the guide's references, when the package has a guide. */
  function LoadedGuide(s: BookState, root: Element): (r: BookState)
    ensures Find(root.children, Opf.Opf("guide")).None? ==> r == s
    ensures Find(root.children, Opf.Opf("guide")).Some? ==>
      r == s.(guide := GuideEntries(Find(root.children, Opf.Opf("guide")).value.children))
  {
    match Find(root.children, Opf.Opf("guide"))
    case None => s
    case Some(guide) => s.(guide := GuideEntries(guide.children))
  }

  /** The first nav document of the items, if any. */
  function FirstNav(items: seq<Item>): (r: Option<Item>)
    ensures r.None? <==> forall i :: 0 <= i < |items| ==> items[i].kind != Nav
    ensures r.Some? ==> exists i :: (0 <= i < |items| && items[i] == r.value && r.value.kind == Nav &&
      forall j :: 0 <= j < i ==> items[j].kind != Nav)
  {
    if items == [] then None
    else if items[0].kind == Nav then Some(items[0])
    else
      var r := FirstNav(items[1..]);
      assert forall i :: 1 <= i < |items| ==> items[i] == items[1..][i - 1];
      r
  }

  /** The table of contents of a nav document's content, links resolved against its directory. */
  function NavOf(content: Blob, base: string): (r: Result<seq<Entry>>)
    ensures content.Bytes? ==> r.Err? && r.error.IndexError?
    ensures content.Doc? ==> r == ParseNav(content.root, base)
  {
    match content
    case Bytes(_) => Err(IndexError("list index out of range"))
    case Doc(root) => ParseNav(root, base)
  }

  /** Without a table of contents from the NCX, the first nav document gives one. */
  function NavToc(s: BookState): (r: Result<BookState>)
    ensures r.Ok? ==> r.value == s.(toc := r.value.toc)
    ensures s.toc != [] || FirstNav(s.items).None? ==> r == Ok(s)
    ensures s.toc == [] && FirstNav(s.items).Some? ==>
      var nav := FirstNav(s.items).value;
      && (r.Ok? <==> NavOf(nav.content, Dirname(nav.fileName)).Ok?)
      && (r.Ok? ==> r.value == s.(toc := NavOf(nav.content, Dirname(nav.fileName)).value))
  {
    if s.toc != [] then Ok(s)
    else
      match FirstNav(s.items)
      case None => Ok(s)
      case Some(nav) =>
        var toc :- NavOf(nav.content, Dirname(nav.fileName));
        Ok(s.(toc := toc))
  }

  /**
   * `_load_opf_file` after parsing: metadata, manifest, spine, guide, then the nav document if
   * needed. This is the specification of `EpubReader.LoadPackage`; `LoadedOpfSteps` states
   * what each step leaves to the next.
   */
  function LoadedOpf(s: BookState, root: Element, opfDir: string, archive: map<string, Blob>,
                     unquote: string -> string, guess: string -> Guess): Result<BookState>
  {
    var withMetadata :- LoadedMetadata(s, root);
    var withItems :- LoadedManifest(withMetadata, root, opfDir, archive, unquote, guess);
    var withSpine :- LoadedSpine(withItems, root, opfDir, archive);
    NavToc(LoadedGuide(withSpine, root))
  }

  /**
   * The metadata is read first, so its failure is the load's; the steps after the manifest
   * keep the metadata and the items it read.
   */
  lemma LoadedOpfSteps(s: BookState, root: Element, opfDir: string, archive: map<string, Blob>,
                       unquote: string -> string, guess: string -> Guess)
    ensures LoadedMetadata(s, root).Err? ==>
      LoadedOpf(s, root, opfDir, archive, unquote, guess) == Err(LoadedMetadata(s, root).error)
    ensures LoadedOpf(s, root, opfDir, archive, unquote, guess).Ok? ==>
      (LoadedMetadata(s, root).Ok? &&
       var withItems := LoadedManifest(LoadedMetadata(s, root).value, root, opfDir, archive, unquote, guess);
       var r := LoadedOpf(s, root, opfDir, archive, unquote, guess).value;
       && withItems.Ok?
       && r.items == withItems.value.items
       && r.metadata == LoadedMetadata(s, root).value.metadata)
  {
    var withMetadata := LoadedMetadata(s, root);
    if withMetadata.Ok? {
      var withItems := LoadedManifest(withMetadata.value, root, opfDir, archive, unquote, guess);
      if withItems.Ok? {
        assert withItems.value.metadata == withMetadata.value.metadata;
        var withSpine := LoadedSpine(withItems.value, root, opfDir, archive);
        if withSpine.Ok? {
          assert LoadedOpf(s, root, opfDir, archive, unquote, guess) == NavToc(LoadedGuide(withSpine.value, root));
          AfterManifestKeeps(withItems.value, root, opfDir, archive);
        }
      }
    }
  }

  /** The spine, guide and nav document steps keep the metadata and the items. */
  lemma AfterManifestKeeps(w: BookState, root: Element, opfDir: string, archive: map<string, Blob>)
    requires LoadedSpine(w, root, opfDir, archive).Ok?
    ensures var r := NavToc(LoadedGuide(LoadedSpine(w, root, opfDir, archive).value, root));
      r.Ok? ==> r.value.items == w.items && r.value.metadata == w.metadata
  {
  }

  /** `_load_opf_file`: a missing package document fails with code -1. */
  function LoadedOpfFile(s: BookState, archive: map<string, Blob>, opfFile: string, opfDir: string,
                         unquote: string -> string, guess: string -> Guess): (r: Result<BookState>)
    ensures opfFile !in archive ==> r == Err(EpubException(-1, "Can not find container file"))
    ensures opfFile in archive && archive[opfFile].Bytes? ==> r.Err? && r.error.XmlSyntaxError?
    ensures opfFile in archive && archive[opfFile].Doc? ==> r == LoadedOpf(s, archive[opfFile].root, opfDir, archive, unquote, guess)
  {
    var data := ReadFile(archive, opfFile);
    if data.Err? then Err(EpubException(-1, "Can not find container file"))
    else
      var root :- Parse(data.value);
      LoadedOpf(s, root, opfDir, archive, unquote, guess)
  }

  /**
   * `_load`: the book read from the archive. An archive that does not open fails with code 0,
   * one that needs ZIP64 with code 1, a missing container with KeyError.
   */
  function ReadBook(s: BookState, zip: Zip, location: (string, string), unquote: string -> string, guess: string -> Guess): (r: Result<BookState>)
    ensures zip.BadZip? ==> r == Err(EpubException(0, "Bad Zip file"))
    ensures zip.LargeZip? ==> r == Err(EpubException(1, "Large Zip file"))
    ensures zip.Opened? && CONTAINER_PATH !in zip.members ==> r == Err(KeyError(Some(CONTAINER_PATH)))
    ensures zip.Opened? && ContainerOpf(zip.members, location).Err? ==> r == Err(ContainerOpf(zip.members, location).error)
    ensures zip.Opened? && ContainerOpf(zip.members, location).Ok? ==>
      var at := ContainerOpf(zip.members, location).value;
      r == LoadedOpfFile(s, zip.members, at.0, at.1, unquote, guess)
  {
    match zip
    case BadZip => Err(EpubException(0, "Bad Zip file"))
    case LargeZip => Err(EpubException(1, "Large Zip file"))
    case Opened(members) =>
      var at :- ContainerOpf(members, location);
      LoadedOpfFile(s, members, at.0, at.1, unquote, guess)
  }

  /** The work of `_load_container`: read and parse the container, then scan its root files. */
  method FindPackage(archive: map<string, Blob>, current: (string, string)) returns (r: Result<(string, string)>)
    ensures r == ContainerOpf(archive, current)
  {
    var data := ReadFile(archive, CONTAINER_PATH);
    if data.Err? {
      return Err(data.error);
    }
    var tree := Parse(data.value);
    if tree.Err? {
      return Err(tree.error);
    }
    var rootFiles := RootFilesIn(tree.value.children);
    var location := current;
    var i := 0;
    while i < |rootFiles|
      invariant 0 <= i <= |rootFiles|
      invariant location == OpfLocation(rootFiles[..i], current)
    {
      LocationSnoc(rootFiles, i, current);
      if IsPackageRoot(rootFiles[i]) {
        var path := Attr(rootFiles[i], "full-path", "");
        location := (path, Dirname(path));
      }
      i := i + 1;
    }
    assert rootFiles[..i] == rootFiles;
    return Ok(location);
  }

  // ---------------------------------------------------------------------------
  // The reader

  /**
   * A reader over one archive. Each loading step updates the book in place, as the reader's
   * methods do; the functions above give the book each step leaves behind.
   */
  class EpubReader {
    var fileName: string
    var book: EpubBook
    var archive: map<string, Blob>
    var opfFile: string
    var opfDir: string
    /** The parsed package document, set by `LoadOpfFile`. */
    var container: Element

    constructor (fileName: string, uuid: string)
      ensures this.fileName == fileName && fresh(book) && book.State() == ResetState(uuid, None)
      ensures archive == map[] && opfFile == "" && opfDir == ""
    {
      this.fileName := fileName;
      book := new EpubBook(uuid);
      archive := map[];
      opfFile := "";
      opfDir := "";
      container := El("", map[], "", []);
    }

    /** `_load_container`: finds the package document through the container's root files. */
    method LoadContainer() returns (r: Result<()>)
      modifies this`opfFile, this`opfDir
      ensures book == old(book)
      ensures r.Ok? ==> ContainerOpf(archive, (old(opfFile), old(opfDir))) == Ok((opfFile, opfDir))
      ensures r.Err? ==> ContainerOpf(archive, (old(opfFile), old(opfDir))) == Err(r.error)
    {
      var found := FindPackage(archive, (opfFile, opfDir));
      if found.Err? {
        return Err(found.error);
      }
      var location := found.value;
      opfFile, opfDir := location.0, location.1;
      return Ok(());
    }

    /** `_load_metadata`: the version, the metadata, the identifier id, the title and the uid. */
    method LoadMetadata() returns (r: Result<()>)
      modifies book
      ensures r.Ok? ==> LoadedMetadata(old(book.State()), container) == Ok(book.State())
      ensures r.Err? ==> LoadedMetadata(old(book.State()), container) == Err(r.error)
    {
      var read := ReadMetadata(container, book.identifierId, book.uid);
      if read.Err? {
        return Err(read.error);
      }
      var m := read.value;
      StoreMetadata(VersionOf(container), m, if |m.titles| > 0 then m.titles[0].value else book.title);
      return Ok(());
    }

    /** The assignments of `_load_metadata`. */
    method StoreMetadata(version: Option<string>, m: MetadataRead, title: string)
      modifies book
      ensures book.State() == old(book.State()).(version := version, metadata := m.store, identifierId := m.identifierId,
                                                 title := title, uid := m.uid)
    {
      book.version, book.metadata, book.identifierId, book.title, book.uid := version, m.store, m.identifierId, title, m.uid;
    }

    /** `_load_manifest`: reads each manifest item from the archive and adds it to the book. */
    method LoadManifest(unquote: string -> string, guess: string -> Guess) returns (r: Result<()>)
      modifies book
      ensures r.Ok? ==> LoadedManifest(old(book.State()), container, opfDir, archive, unquote, guess) == Ok(book.State())
      ensures r.Err? ==> LoadedManifest(old(book.State()), container, opfDir, archive, unquote, guess) == Err(r.error)
    {
      var found := ManifestElement(container);
      if found.Err? {
        return Err(found.error);
      }
      var target, dir, members, kids := book, opfDir, archive, found.value.children;
      ghost var s := target.State();
      ghost var read: seq<Item> := [];
      var i := 0;
      while i < |kids|
        invariant 0 <= i <= |kids|
        invariant ReadManifest(kids[..i], dir, members, unquote) == Ok(read)
        invariant target.State() == AddAll(s, read, guess)
      {
        ReadManifestSnoc(kids, i, dir, members, unquote);
        if kids[i].tag == Opf.Opf("item") {
          var entry := ManifestEntry(kids[i], dir, members, unquote);
          if entry.Err? {
            ReadManifestFails(kids, i + 1, dir, members, unquote);
            return Err(entry.error);
          }
          AddAllSnoc(s, read, entry.value, guess);
          var _ := target.AddItem(entry.value, guess);
          read := read + [entry.value];
        }
        i := i + 1;
      }
      assert kids[..i] == kids;
      return Ok(());
    }

    /** `_load_spine`: the spine, the direction and, when the spine names one, the NCX table of contents. */
    method LoadSpine() returns (r: Result<()>)
      modifies book
      ensures r.Ok? ==> LoadedSpine(old(book.State()), container, opfDir, archive) == Ok(book.State())
      ensures r.Err? ==> LoadedSpine(old(book.State()), container, opfDir, archive) == Err(r.error)
    {
      var found := SpineElement(container);
      if found.Err? {
        return Err(found.error);
      }
      var spine := found.value;
      var tocId := Attr(spine, "toc", "");
      var toc := book.toc;
      if tocId != "" {
        var item := book.GetItemWithId(tocId);
        if item.None? {
          return Err(AttributeError("'NoneType' object has no attribute 'get_name'"));
        }
        var data := ReadFile(archive, Join(opfDir, item.value.fileName));
        if data.Err? {
          return Err(EpubException(-1, "Can not find ncx file."));
        }
        var read := NcxOf(data.value);
        if read.Err? {
          return Err(read.error);
        }
        toc := read.value;
      }
      StoreSpine(SpineEntries(spine.children), DirectionOf(spine), toc);
      return Ok(());
    }

    /** The assignments of `_load_spine`: the spine, the direction through `set_direction`, and the table of contents. */
    method StoreSpine(spine: seq<SpineEntry>, direction: Option<string>, toc: seq<Entry>)
      modifies book
      ensures book.State() == old(book.State()).(spine := spine, direction := direction, toc := toc)
    {
      book.spine := spine;
      book.SetDirection(direction);
      book.toc := toc;
    }

    /** `_load_guide`: the guide's references, when the package has a guide. */
    method LoadGuide()
      modifies book
      ensures book.State() == LoadedGuide(old(book.State()), container)
    {
      var found := Find(container.children, Opf.Opf("guide"));
      if found.Some? {
        book.guide := GuideEntries(found.value.children);
      }
    }

    /** The last step of `_load_opf_file`: without a table of contents, the first nav document gives one. */
    method LoadNav() returns (r: Result<()>)
      modifies book
      ensures r.Ok? ==> NavToc(old(book.State())) == Ok(book.State())
      ensures r.Err? ==> NavToc(old(book.State())) == Err(r.error)
    {
      if book.toc == [] {
        var nav := FirstNav(book.items);
        if nav.Some? {
          var toc := NavOf(nav.value.content, Dirname(nav.value.fileName));
          if toc.Err? {
            return Err(toc.error);
          }
          book.toc := toc.value;
        }
      }
      return Ok(());
    }

    /** `_load_opf_file` once the package document is parsed: metadata, manifest, spine, guide, nav document. */
    method LoadPackage(unquote: string -> string, guess: string -> Guess) returns (r: Result<()>)
      modifies book
      ensures r.Ok? ==> LoadedOpf(old(book.State()), container, opfDir, archive, unquote, guess) == Ok(book.State())
      ensures r.Err? ==> LoadedOpf(old(book.State()), container, opfDir, archive, unquote, guess) == Err(r.error)
    {
      ghost var s0 := book.State();
      r := LoadMetadata();
      if r.Err? {
        return;
      }
      ghost var s1 := book.State();
      r := LoadManifest(unquote, guess);
      if r.Err? {
        assert LoadedMetadata(s0, container) == Ok(s1);
        return;
      }
      ghost var s2 := book.State();
      r := LoadSpine();
      if r.Err? {
        assert LoadedMetadata(s0, container) == Ok(s1);
        assert LoadedManifest(s1, container, opfDir, archive, unquote, guess) == Ok(s2);
        return;
      }
      ghost var s3 := book.State();
      LoadGuide();
      r := LoadNav();
      assert LoadedMetadata(s0, container) == Ok(s1);
      assert LoadedManifest(s1, container, opfDir, archive, unquote, guess) == Ok(s2);
      assert LoadedSpine(s2, container, opfDir, archive) == Ok(s3);
    }

    /** `_load_opf_file`: reads and parses the package document, then loads it. */
    method LoadOpfFile(unquote: string -> string, guess: string -> Guess) returns (r: Result<()>)
      modifies this, book
      ensures book == old(book) && archive == old(archive) && opfFile == old(opfFile) && opfDir == old(opfDir)
      ensures r.Ok? ==> LoadedOpfFile(old(book.State()), archive, opfFile, opfDir, unquote, guess) == Ok(book.State())
      ensures r.Err? ==> LoadedOpfFile(old(book.State()), archive, opfFile, opfDir, unquote, guess) == Err(r.error)
    {
      ghost var s0 := book.State();
      var data := ReadFile(archive, opfFile);
      if data.Err? {
        return Err(EpubException(-1, "Can not find container file"));
      }
      var root := Parse(data.value);
      if root.Err? {
        return Err(root.error);
      }
      container := root.value;
      assert LoadedOpfFile(s0, archive, opfFile, opfDir, unquote, guess) == LoadedOpf(s0, container, opfDir, archive, unquote, guess);
      r := LoadPackage(unquote, guess);
    }

    /** `load`: opens the archive, finds the package document through the container, and reads it. */
    method Load(zip: Zip, unquote: string -> string, guess: string -> Guess) returns (r: Result<()>)
      modifies this, book
      ensures book == old(book)
      ensures r.Ok? ==> ReadBook(old(book.State()), zip, (old(opfFile), old(opfDir)), unquote, guess) == Ok(book.State())
      ensures r.Err? ==> ReadBook(old(book.State()), zip, (old(opfFile), old(opfDir)), unquote, guess) == Err(r.error)
    {
      match zip {
        case BadZip => return Err(EpubException(0, "Bad Zip file"));
        case LargeZip => return Err(EpubException(1, "Large Zip file"));
        case Opened(members) =>
          archive := members;
      }
      r := LoadContainer();
      if r.Err? {
        return;
      }
      r := LoadOpfFile(unquote, guess);
    }
  }

  /**
   * `read_epub(name)`: a new reader, whose book starts from `reset` with `uuid` drawn as its
   * identifier, loads the archive; the book is the one read from a fresh start.
   */
  method ReadEpub(name: string, zip: Zip, uuid: string, unquote: string -> string, guess: string -> Guess)
    returns (book: EpubBook, r: Result<()>)
    ensures fresh(book)
    ensures r.Ok? ==> ReadBook(ResetState(uuid, None), zip, ("", ""), unquote, guess) == Ok(book.State())
    ensures r.Err? ==> ReadBook(ResetState(uuid, None), zip, ("", ""), unquote, guess) == Err(r.error)
  {
    var reader := new EpubReader(name, uuid);
    r := reader.Load(zip, unquote, guess);
    book := reader.book;
  }
}

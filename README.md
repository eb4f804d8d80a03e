# ebooklib's EPUB core, modelled in Dafny

This project models the core of ebooklib, `ebooklib/epub.py`: the in-memory EPUB book, the
writer that turns it into an EPUB 3 archive (container, OPF package document, EPUB 2 NCX,
EPUB 3 navigation document, item members), and the reader that rebuilds a book from such an
archive. The zip and XML layers are abstract values:

- an archive is a map from member name to blob;
- a blob is either raw bytes or a parsed element tree;
- an element has a tag in `{namespace}local` form, a prefix, a namespace map, attributes, text
  and children.

Modules, one file each:

| file | module | what it holds |
|---|---|---|
| `wrappers.dfy` | `Wrappers` | `Option`, `Result` and the Python exceptions the core raises (`EpubException(code, msg)`, `KeyError`, `AttributeError`, `IndexError`, `TypeError`, `ValueError`, XML syntax errors) |
| `dicts.dfy` | `Dicts` | insertion-ordered dictionaries (`Dict<K, V>` as a list of pairs) |
| `strings.dfy` | `Strings` | decimal formatting of counters, ASCII lower-casing, `' '.join` |
| `paths.dfy` | `Paths` | `posixpath.dirname`, `join`, `normpath`, `abspath`, `relpath`, over segment lists |
| `xml.dfy` | `Xml` | elements, blobs, `find`, qualified names |
| `items.dfy` | `Items` | `EpubItem` and its subclasses as one datatype with a `Kind` |
| `metadata.dfy` | `Metadata` | the `NAMESPACES` table and the metadata store (namespace → name → entries) |
| `toc.dfy` | `Toc` | `Section`, `Link`, documents and nested sections of the table of contents |
| `book.dfy` | `Book` | `EpubBook` as a class whose methods update its fields in place |
| `opf.dfy` | `Opf` | `_write_opf_file` as a function from the book to the package element |
| `ncx.dfy` | `Ncx` | `_get_ncx` (with its section builder as a method over a loop) and `_parse_ncx` |
| `nav.dfy` | `Nav` | `_get_nav` and `_parse_nav` |
| `writer.dfy` | `Writer` | `EpubWriter` as a class appending members to its output, and `write_epub` |
| `reader.dfy` | `Reader` | `EpubReader` as a class loading into an `EpubBook`, and `read_epub` |

Each imperative operation is a method, and the method is proved against a function that
specifies it. For example, `EpubReader.LoadManifest` ends in the state `LoadedManifest` gives,
and `EpubWriter.Write` leaves the archive `Archive` gives. The functions carry their own
properties: what each block holds, when an operation fails, and that what the writer emits
the reader reads back.

Where the library's documented behaviour and its code differ, the model follows the code:

- non-document, non-image items draw their generated `static_<n>` id from the image counter, and the
  static counter is never used;
- `set_title` and `set_language` append to the metadata rather than replace;
- the writer skips only package-namespace entries that declare `dcterms:modified`;
- a spine `toc` id that names no item fails with `AttributeError`, not with an `EpubException`;
- a package without a DC title fails to load with `KeyError`, on the DC namespace when the metadata block never declares it and on `title` otherwise;
- as written, an empty `navMap` reads as a lone link; this is recorded under Findings, and the reader here uses the corrected reading.

## Model

| member | source | states |
|---|---|---|
| Dicts.Get | ebooklib/epub.py:1366 | a lookup succeeds exactly when the key is present, and gives the value paired with the key's first occurrence |
| Dicts.Put | ebooklib/epub.py:672-678 | after `d[k] = v` the key reads `v`, every other key reads as before, an existing key keeps its place and a new one goes last, and distinct keys stay distinct |
| Strings.NatStr | ebooklib/epub.py:725 | `%d` of a counter is a non-empty string of digits |
| Strings.ParseNatStr | ebooklib/epub.py:725-731 | reading the digits `%d` writes gives the number back |
| Strings.NatStrInjective | ebooklib/epub.py:725-731 | different counters give different strings |
| Strings.TaggedNumbersDiffer | ebooklib/epub.py:725-731 | `chapter_<m>`, `image_<n>` and `static_<n>` ids with different prefixes or numbers differ |
| Strings.LowerAscii | ebooklib/epub.py:712 | `lower()` maps each upper-case ASCII letter to its lower-case letter and keeps every other character |
| Paths.Split | ebooklib/epub.py:21 | the segments of a path between its slashes: at least one, none holding a slash |
| Paths.SplitJoin | ebooklib/epub.py:21 | joining slash-free segments with `/` and splitting again gives the segments back |
| Paths.JoinSplit | ebooklib/epub.py:21 | splitting a path and joining the segments with `/` gives the path back |
| Paths.NormpathPlain | ebooklib/epub.py:1499 | `normpath` leaves a relative path of plain segments unchanged |
| Paths.CommonPrefix | ebooklib/epub.py:1114 | the length of the longest common prefix of two segment lists |
| Paths.AbspathSegs | ebooklib/epub.py:1114 | `abspath` of a plain relative path is the working directory's segments followed by the path's |
| Paths.RelpathRoute | ebooklib/epub.py:1114 | `relpath(href, dir)` climbs out of what `dir` does not share with `href` and descends into the rest of `href` |
| Paths.RelpathRoundTrip | ebooklib/epub.py:1114-1131 | for plain paths, `normpath(join(dir, relpath(href, dir)))` is `href` again, which is how the nav writer's links and the nav reader's resolution fit together |
| Xml.Parse | ebooklib/epub.py:1454 | parsing succeeds exactly on an XML document and gives its root |
| Xml.Find | ebooklib/epub.py:1457 | `find(tag)` finds a child exactly when one has the tag, and gives the first such child |
| Xml.LocalName | ebooklib/epub.py:1368 | the part of a tag after its last `}`; a tag without `}` is its own local name |
| Xml.LocalNameClark | ebooklib/epub.py:1368 | the local name of `{ns}local` is `local` |
| Xml.FindLocal | ebooklib/epub.py:1491-1492 | a child with the given local name is found exactly when one exists, and it is the first such child |
| Items.ConstructorDefaults | ebooklib/epub.py:117-513 | the defaults of each item class: the NCX is `ncx`/`toc.ncx`, the cover image is `cover-img`, the cover page is `cover`/`cover.xhtml`, titled `Cover` and not linear, the nav document is `nav`/`nav.xhtml` in XHTML, and the other items have no id and are linear and listed in the manifest |
| Items.RFind | ebooklib/epub.py:174 | the last index of a character, or -1 |
| Items.Extension | ebooklib/epub.py:174 | `splitext`'s extension is a suffix of the name, empty or one dot followed by no dot and no slash |
| Items.TypeOfExtension | ebooklib/epub.py:153-181 | the type of the first table row listing the extension, or `ITEM_UNKNOWN` when none does |
| Items.GetTypeByKind | ebooklib/epub.py:153-181 | documents are `ITEM_DOCUMENT` and images `ITEM_IMAGE` whatever their name; other items are typed by their file name alone |
| Items.IsChapter | ebooklib/epub.py:247-254 | of the documents only plain chapters are chapters, not the cover page or the nav document |
| Items.GetContent | ebooklib/epub.py:183-194 | an item's content, or the default when the content is empty |
| Items.LinksOfType | ebooklib/epub.py:298-305 | exactly the links of the requested type |
| Items.LinksOfTypeAppend | ebooklib/epub.py:298-305 | filtering by type distributes over concatenation |
| Items.AddLinkOfType | ebooklib/epub.py:281-287 | an added link appears last among the links of its type and nowhere else |
| Items.AttachItemLinks | ebooklib/epub.py:307-318 | attaching a style sheet makes it the last `text/css` link and a script the last `text/javascript` link, the other type's links unchanged; any other item leaves the document unchanged |
| Metadata.ResolveNs | ebooklib/epub.py:669-670 | an alias of `NAMESPACES` becomes its URI; anything else is kept |
| Metadata.ResolveNsIdempotent | ebooklib/epub.py:669-670 | resolving twice is resolving once |
| Metadata.GetMetadata | ebooklib/epub.py:680-687 | `get_metadata` succeeds exactly when the alias-resolved namespace and name are present, with their entries; a missing namespace raises `KeyError` on the namespace, a missing name under a present namespace `KeyError` on the name |
| Metadata.AddMeta | ebooklib/epub.py:665-678 | `add_metadata` appends the entry to its (namespace, name) list, creating it when missing, and leaves every other list unchanged |
| Metadata.SetUniqueMeta | ebooklib/epub.py:689-699 | `set_unique_metadata` leaves exactly the new entry under its (namespace, name) and every other list unchanged |
| Metadata.RepeatedWrites | ebooklib/epub.py:665-699 | two unique writes keep only the second; two appends keep both, in order |
| Book.TemplateRoot | ebooklib/epub.py:1178 | a template parses exactly when it is registered and is an XML document |
| Book.ResetDefaults | ebooklib/epub.py:532-570 | after `reset` the uuid is the only DC identifier, labelled with identifier id `id`; the generator is the only OPF generator; there is no title entry; the book is empty, English, without direction, in folder `EPUB`, with both counters at 0 and the four templates |
| Book.GuideTarget | ebooklib/epub.py:1060-1071 | an href entry is written with its own href and title; an item entry with its item's file name and title when the item is a document, and otherwise fails with `AttributeError`, as only `EpubHtml` and its subclasses have a title |
| Book.MediaTypeFor | ebooklib/epub.py:711-720 | an item keeps a media type it has; otherwise, when the guess for its lower-cased name has a truthy first part, it gets the guessed type, or that first part when no type is guessed; when nothing is guessed it gets `application/octet-stream` |
| Book.Completed | ebooklib/epub.py:711-732 | an item with an id keeps it and both counters; a document without one gets `chapter_<html counter>` and bumps only that counter; an image `image_<image counter>` and any other item `static_<image counter>`, bumping only the image counter |
| Book.CompletedIdFresh | ebooklib/epub.py:722-732 | while every generated-looking id is numbered below its counter, a generated id differs from every id already in the book, and the invariant holds after the item is added |
| Book.FindById | ebooklib/epub.py:739-758 | the first item with the id, and none exactly when no item has it |
| Book.FindByHref | ebooklib/epub.py:760-779 | the first item with the file name, and none exactly when no item has it |
| Book.OfType | ebooklib/epub.py:792-807 | exactly the items of the type |
| Book.OfTypeAppend | ebooklib/epub.py:792-807 | selecting from two lists one after the other selects from the first and then from the second, so the selection keeps item order |
| Book.OfMediaType | ebooklib/epub.py:809-822 | exactly the items of the media type |
| Book.OfMediaTypeAppend | ebooklib/epub.py:809-822 | selecting from two lists one after the other selects from the first and then from the second, so the selection keeps item order |
| Book.EpubBook.constructor | ebooklib/epub.py:525-570 | a new book is in the state `reset` gives |
| Book.EpubBook.SetIdentifier | ebooklib/epub.py:572-584 | the uid changes and the DC identifier list becomes exactly the new uid labelled with the identifier id; nothing else changes |
| Book.EpubBook.SetTitle | ebooklib/epub.py:586-598 | the title changes and a DC title entry is appended; nothing else changes |
| Book.EpubBook.SetLanguage | ebooklib/epub.py:600-613 | the language changes and a DC language entry is appended; nothing else changes |
| Book.EpubBook.SetDirection | ebooklib/epub.py:615-622 | only the direction changes |
| Book.EpubBook.SetCover | ebooklib/epub.py:624-648 | the cover image, then the cover page when asked for, are appended with their media types filled in, and a `cover` meta entry pointing at `cover-img` is appended |
| Book.EpubBook.AddAuthor | ebooklib/epub.py:650-663 | a DC creator entry labelled with the author id is appended, then a `file-as` and a `role` refinement when given; nothing else changes |
| Book.EpubBook.AddMetadata | ebooklib/epub.py:665-678 | only the metadata changes, as `AddMeta` says |
| Book.EpubBook.GetMetadata | ebooklib/epub.py:680-687 | the entries under the alias-resolved namespace and name; a missing namespace raises `KeyError` on the namespace, a missing name `KeyError` on the name |
| Book.EpubBook.SetUniqueMetadata | ebooklib/epub.py:689-699 | only the metadata changes, as `SetUniqueMeta` says |
| Book.EpubBook.AddItem | ebooklib/epub.py:701-737 | the completed item is appended last and returned, the counters move as `Completed` says, nothing else changes |
| Book.EpubBook.GetItemWithId | ebooklib/epub.py:739-758 | the linear scan finds what `FindById` specifies |
| Book.EpubBook.GetItemWithHref | ebooklib/epub.py:760-779 | the linear scan finds what `FindByHref` specifies |
| Book.EpubBook.GetItemsOfType | ebooklib/epub.py:792-807 | the scan yields what `OfType` specifies |
| Book.EpubBook.GetItemsOfMediaType | ebooklib/epub.py:809-822 | the scan yields what `OfMediaType` specifies |
| Book.EpubBook.SetTemplate | ebooklib/epub.py:824-844 | only the named template changes |
| Book.EpubBook.GetTemplate | ebooklib/epub.py:846-859 | the named template, or none when it is not registered |
| Book.EpubBook.AddPrefix | ebooklib/epub.py:861-875 | `name: uri` is appended to the prefixes; nothing else changes |
| Opf.ValueElement | ebooklib/epub.py:946-969 | a package-namespace entry without attributes fails; one that declares `dcterms:modified` gives no element; any other entry gives one element carrying its attributes, and outside the package namespace its value as text |
| Opf.ValueElementsFail | ebooklib/epub.py:946-969 | the entries of one name fail exactly when they are in the package namespace and one has no attributes |
| Opf.NameElementsFail | ebooklib/epub.py:946-969 | the same, over all names of a namespace |
| Opf.StoreElementsFail | ebooklib/epub.py:946-969 | the metadata store fails to write exactly when a package-namespace entry has no attributes |
| Opf.StoreElementsNotModified | ebooklib/epub.py:946-969 | no element written from the store declares `dcterms:modified` when only package-namespace entries do |
| Opf.ModifiedWrittenOnce | ebooklib/epub.py:936-951 | the metadata block opens with the one `dcterms:modified` element holding the given time, and no later child declares a modification date |
| Opf.ManifestItem | ebooklib/epub.py:979-1007 | an `item` with the item's href, id and media type; `properties="nav"` for the nav document, `cover-image` for the cover image, none for the NCX, and for other items the space-joined properties exactly when there are some |
| Opf.InManifest | ebooklib/epub.py:979-981 | exactly the items marked for the manifest |
| Opf.InManifestAppend | ebooklib/epub.py:979-981 | the manifest items of two lists one after the other are those of the first and then those of the second, so item order is kept |
| Opf.ManifestBlock | ebooklib/epub.py:971-1007 | one `item` per manifest item, in item order |
| Opf.NcxId | ebooklib/epub.py:988-989 | the id of the last manifest NCX, and none exactly when there is no manifest NCX |
| Opf.Itemref | ebooklib/epub.py:1016-1052 | an `itemref` to the entry's id, with `linear="no"` exactly when the entry resolves to an item that is not linear or is marked `no`, and no other attribute |
| Opf.SpineBlock | ebooklib/epub.py:1009-1052 | `toc` is the NCX id or `ncx`; the direction is written exactly when the book has one and the option asks; one itemref per spine entry, in order |
| Opf.Reference | ebooklib/epub.py:1060-1074 | a guide `reference` carries the entry's type and its own title and href, or those of its item when the item is a document; an item of any other class has no `title` and fails with `AttributeError` |
| Opf.GuideBlock | ebooklib/epub.py:1057-1074 | one `reference` per guide entry, in order; it fails exactly when an entry's item is not a document |
| Opf.PackageFails | ebooklib/epub.py:912-1082 | writing the package fails exactly when a package-namespace metadata entry has no attributes, or the EPUB 2 guide is written and an entry's item is not a document |
| Opf.PackageBlocks | ebooklib/epub.py:971-1078 | the package holds metadata, manifest and spine, then a guide exactly when the guide is non-empty and `epub2_guide` is set, then bindings exactly when there are some |
| Opf.PackageRoot | ebooklib/epub.py:913-922 | the root is a version 3.0 `package` naming the identifier id, with `dir` exactly when the book has a direction and `package_direction` is set |
| Ncx.CreateSection | ebooklib/epub.py:1200-1251 | the loop over a section's entries builds what `NcxSection` specifies |
| Ncx.LeafStep | ebooklib/epub.py:1222-1249 | a link with an id or a document appends one childless navPoint with its id, title and target, and fills in the parent's source only when it is empty |
| Ncx.NestStep | ebooklib/epub.py:1202-1221 | a heading appends one navPoint with the document's id or `sep_<counter>`, holding its children built from the next counter value, and the counter continues after them |
| Ncx.NcxSectionFails | ebooklib/epub.py:1200-1251 | writing fails exactly when some link, at any depth, has no id |
| Ncx.SectionLength | ebooklib/epub.py:1200-1251 | one navPoint per entry |
| Ncx.NcxSectionCounter | ebooklib/epub.py:1200-1251 | the counter advances by exactly the number of headings written, nested ones included |
| Ncx.NcxSectionBackFill | ebooklib/epub.py:1222-1242 | a non-empty parent source is never overwritten; an empty one ends as the first non-empty target among the direct links and documents, and nested entries never patch it |
| Ncx.HeadingSrcOf | ebooklib/epub.py:1210-1242 | a heading's navPoint points at its own target, or at the first non-empty target of its direct children when it has none |
| Ncx.SepIdsOrdered | ebooklib/epub.py:1205-1221 | the `sep_` ids written carry strictly increasing numbers in document order, within the counter's range |
| Ncx.SepIdsDistinct | ebooklib/epub.py:1205-1221 | the `sep_` ids written are pairwise distinct |
| Ncx.NcxDocument | ebooklib/epub.py:1174-1257 | the NCX succeeds exactly when every link has an id; it keeps the template's root and children and appends head, title and a navMap with one navPoint per top-level entry |
| Ncx.NcxSepIds | ebooklib/epub.py:1174-1257 | in the written NCX the `sep_` ids are pairwise distinct and ascending |
| Ncx.NavMapOf | ebooklib/epub.py:1457 | the navMap is found exactly when the root has one |
| Ncx.NavMapReadings | ebooklib/epub.py:1459-1480 | the navMap reading as written and the corrected one agree except on a navMap without navPoints |
| Ncx.PointReadBack | ebooklib/epub.py:1459-1478 | a navPoint with child navPoints reads as a section with its label, source and children; one without reads as a link with its source, label and id |
| Ncx.ScanPoints | ebooklib/epub.py:1463-1469 | a run of navPoints reads as their entries, in order |
| Ncx.SectionReadBack | ebooklib/epub.py:1200-1251 | every navPoint written for a section reads back as the canonical form of its entry |
| Ncx.EntryReadBack | ebooklib/epub.py:1200-1251 | the navPoint written for one entry reads back as the entry's canonical form |
| Ncx.NcxRoundTrip | ebooklib/epub.py:1453-1480 | reading the NCX written for a table of contents gives it back, with documents as links to their files carrying their ids and headings as sections pointing where their navPoints point |
| Ncx.EmptyTocReadBackAsWritten | ebooklib/epub.py:1471-1478 | an NCX written for an empty table of contents reads back, as written, as a lone empty link, and in the corrected reading as an empty list |
| Nav.Anchor | ebooklib/epub.py:1114-1131 | a link is made exactly when its target is non-empty, with the title as text |
| Nav.HeadingElement | ebooklib/epub.py:1113-1121 | a heading without a target becomes a `span`, any other heading an `a`, titled; a target-less link or document fails |
| Nav.NavOlFails | ebooklib/epub.py:1108-1132 | the nested list is written exactly when no link or document has an empty target |
| Nav.LandmarkType | ebooklib/epub.py:1142-1145 | `notes` becomes `rearnotes`, `text` becomes `bodymatter`, any other type is kept |
| Nav.LandmarkItems | ebooklib/epub.py:1154-1168 | one landmark per guide entry, in order, of the entry's landmark type, linking to the entry's href relative to the nav document's directory, with its title; it fails exactly when an entry's item is not a document or an entry has an empty href |
| Nav.LandmarkLink | ebooklib/epub.py:1156-1168 | one entry's landmark is written exactly when it has a title and a non-empty href, failing first on the title and then on `relpath` |
| Nav.Landmarks | ebooklib/epub.py:1139-1168 | the landmarks nav appears exactly when the guide is non-empty and `epub3_landmark` is set, with the landmark title and one landmark per guide entry; it fails exactly when it is written and a landmark fails |
| Nav.StyleLinks | ebooklib/epub.py:1099-1100 | one `link` per link of the nav item, with exactly the link's href (empty when it has none), `rel="stylesheet"` and `type="text/css"` |
| Nav.NavDocument | ebooklib/epub.py:1084-1172 | the nav document keeps the template's root and children, sets `lang` and `xml:lang` to the book's language, and appends head and body |
| Nav.NavDocumentFails | ebooklib/epub.py:1084-1172 | writing the nav document fails exactly when a table-of-contents target is empty or, when landmarks are written, a guide entry's item is not a document or its href is empty |
| Nav.NavDocumentShape | ebooklib/epub.py:1084-1134 | once the list and the landmarks are written, the nav document is written: the template's children, then a head with the title and style links, then a body opening with the `toc` nav holding the list |
| Nav.FirstTocNav | ebooklib/epub.py:1484 | what is found is a `nav` with an attribute valued `toc`, and it is the first such element in document order |
| Nav.TocNavFound | ebooklib/epub.py:1103 | the written `toc` nav is a toc nav whose first `ol` is the list |
| Nav.FirstTocNavOf | ebooklib/epub.py:1484 | in the written document the first toc nav is the body's first child |
| Nav.Resolve | ebooklib/epub.py:1499 | an anchor resolves exactly when it has an href, to the normalised join of the base directory and the href; otherwise `join` fails with `TypeError` |
| Nav.AnchorReadBack | ebooklib/epub.py:1499 | the link written for a plain target resolves against the nav document's directory to the target |
| Nav.LeafItem | ebooklib/epub.py:1503-1507 | an `li` holding only an anchor reads as a link titled with the anchor's text |
| Nav.NestItem | ebooklib/epub.py:1494-1502 | an `li` holding a heading and a list reads as a section titled with its first child's text, pointing at the anchor's target when the heading is one |
| Nav.NavOlReadBack | ebooklib/epub.py:1486-1511 | a written list reads back as the canonical form of its entries |
| Nav.NavLiReadBack | ebooklib/epub.py:1489-1507 | a written `li` reads back as the canonical form of its entry |
| Nav.NavRoundTrip | ebooklib/epub.py:1482-1511 | reading the nav document written for a table of contents with plain targets gives it back, with links without ids and documents as links to their files |
| Writer.Ascii | ebooklib/epub.py:1273 | one byte per character |
| Writer.ContainerDocument | ebooklib/epub.py:52-58 | the container holds one root file, of the package media type, at `<folder>/content.opf` |
| Writer.ItemBytes | ebooklib/epub.py:1265-1268 | an item other than a chapter or cover page is written as its content, or as empty bytes when it has none |
| Writer.ItemEntry | ebooklib/epub.py:1259-1268 | each item goes under the folder unless it is outside the manifest (the NCX and nav document always go under it); items other than the NCX and nav document never fail |
| Writer.ItemEntries | ebooklib/epub.py:1259-1268 | the items' members, one per item in order, succeeding exactly when every item does |
| Writer.Archive | ebooklib/epub.py:1270-1279 | the archive is `mimetype`, the container, the package document, then one member per item; it is written exactly when the package and every item are |
| Writer.EpubWriter.constructor | ebooklib/epub.py:887-893 | a writer for the name, book and options, with nothing written |
| Writer.EpubWriter.WriteContainer | ebooklib/epub.py:908-910 | the container member is appended |
| Writer.EpubWriter.WriteOpfFile | ebooklib/epub.py:912-1082 | the package member is appended when the package is written, and nothing when it fails, with its error |
| Writer.EpubWriter.GetNcx | ebooklib/epub.py:1174-1257 | the NCX is what `NcxDocument` specifies |
| Writer.EpubWriter.WriteItem | ebooklib/epub.py:1259-1268 | the member for one item is what `ItemEntry` specifies |
| Writer.EpubWriter.WriteItems | ebooklib/epub.py:1259-1268 | on success every item's member is appended in order; on failure the members before the first failing item are, and its error is returned |
| Writer.EpubWriter.Write | ebooklib/epub.py:1270-1279 | the output is exactly `Archive` when it succeeds |
| Writer.WriteEpub | ebooklib/epub.py:1572-1595 | `write_epub` produces `Archive`, and fails exactly when it fails |
| Writer.ItemsPlaced | ebooklib/epub.py:1259-1268 | the member name of each item in the archive: under the folder for manifest items, the NCX and the nav document, at its bare name otherwise |
| Writer.ItemEntryFails | ebooklib/epub.py:1259-1268 | an item fails exactly when it is the NCX and the template is missing or a link has no id, or the nav document and its template or contents fail |
| Writer.ArchiveFails | ebooklib/epub.py:1270-1279 | writing succeeds exactly when the package is written and no item fails |
| Reader.ReadFile | ebooklib/epub.py:1314-1316 | reading a member succeeds exactly when it exists, with its content |
| Reader.RootFilesIn | ebooklib/epub.py:1322 | exactly the `rootfile` elements of the container namespace carrying a media type below the container's root, in document order |
| Reader.OpfLocation | ebooklib/epub.py:1322-1325 | without a package root file the location is left as it was |
| Reader.LastPackageRootWins | ebooklib/epub.py:1322-1325 | the last root file of the package media type decides the package path and its directory |
| Reader.ContainerOpf | ebooklib/epub.py:1318-1325 | a missing container fails with `KeyError`, one that is not XML with a syntax error; a parsed container gives the location its root files name |
| Reader.FindPackage | ebooklib/epub.py:1318-1325 | the loop over the root files finds what `ContainerOpf` specifies |
| Reader.ContainerReadBack | ebooklib/epub.py:1318-1325 | the container the writer writes leads the reader to `<folder>/content.opf` and its directory |
| Reader.SplitOn | ebooklib/epub.py:1398 | `split(' ')` gives at least one part and no part holds a space |
| Reader.SplitJoinWith | ebooklib/epub.py:1398 | splitting space-joined space-free words gives them back |
| Reader.PropertiesOf | ebooklib/epub.py:1395-1400 | no properties for an empty attribute; otherwise parts that join back to the attribute |
| Reader.PropertiesReadBack | ebooklib/epub.py:1395-1400 | properties the manifest writer joins read back as themselves, none as none |
| Reader.FixMediaType | ebooklib/epub.py:1403-1404 | `image/jpg` becomes `image/jpeg`, any other media type is kept |
| Reader.Classify | ebooklib/epub.py:1406-1449 | the NCX media type gives an NCX; XHTML with `nav` a nav document, else with `cover` a cover page, else a chapter; an image type with `cover-image` a cover image, else an image; anything else a plain item |
| Reader.KindReadBack | ebooklib/epub.py:1389-1451 | an item whose media type and properties fit its class is read back from its manifest entry as an item of the same class |
| Reader.ManifestEntry | ebooklib/epub.py:1394-1449 | the entry's member is read relative to the package directory (by the unquoted href, by the raw href for the nav document), and a missing member fails with `KeyError`; the item is of the entry's class and holds the member's content; every class but the cover page takes the entry's id, unquoted href and corrected media type, and only a plain document keeps the entry's properties; the cover page keeps all its defaults |
| Reader.ManifestEntryReadBack | ebooklib/epub.py:1394-1449 | a consistent item's manifest entry reads back with the same class, id and file name, the corrected media type and the member's content; a document keeps its properties and any other class reads back without them |
| Reader.SplitName | ebooklib/epub.py:1361-1364 | a name with a colon splits at its first colon into a colon-free prefix and the rest; a name without one has no prefix |
| Reader.AddRead | ebooklib/epub.py:1347-1352 | the entry is appended to its (namespace, name) list and no other list changes |
| Reader.InitialStore | ebooklib/epub.py:1345 | every namespace the metadata block declares starts with no names, and no other namespace is present |
| Reader.ReadMetaChild | ebooklib/epub.py:1354-1377 | a `meta` is added under its name's namespace and local name; any other element under the namespace of its prefix and its local name, failing with `KeyError` on the prefix itself (`None` for an unprefixed child) when it is not declared; a `dc:identifier` with a non-empty id makes it the identifier id, and nothing else changes it |
| Reader.UidOf | ebooklib/epub.py:1385-1387 | the uid is the value of the last identifier labelled with the identifier id, or the current uid when none is; it fails with `AttributeError` exactly when an identifier has no attributes |
| Reader.MetadataElement | ebooklib/epub.py:1339-1341 | the metadata block is found exactly when the package has one |
| Reader.MetadataBlock | ebooklib/epub.py:1339-1377 | a package without a metadata block fails as `MetadataElement` does; otherwise the block's children are read in order from the declared namespaces, starting from the package's identifier id |
| Reader.ReadMetaChildren | ebooklib/epub.py:1354-1377 | reading the children of the metadata block fails only at a non-`meta` child whose prefix is undeclared, with `KeyError` on that prefix |
| Reader.PackageMetadata | ebooklib/epub.py:1327-1387 | the read succeeds exactly when the block reads, holds a DC title and a DC identifier, and `UidOf` succeeds on the identifiers; a block failure is the read's failure, a block that declares no DC namespace and has no DC child fails with `KeyError` on the DC namespace, otherwise a missing DC title fails with `KeyError('title')` and then a missing DC identifier with `KeyError('identifier')`; a successful read holds the store and identifier id of the block, the DC titles, and the uid `UidOf` picks |
| Reader.LoadedMetadata | ebooklib/epub.py:1327-1387 | loading the metadata sets the version, and the metadata, identifier id and uid that `PackageMetadata` reads, the title to the first DC title when there is one, changes nothing else, and fails exactly when and as the read fails |
| Reader.ReadMetadata | ebooklib/epub.py:1327-1387 | the metadata reading computes what `PackageMetadata` specifies |
| Reader.ReadMetaBlock | ebooklib/epub.py:1354-1377 | the loop over the metadata block reads what `ReadMetaChildren` specifies, failing at the first child that fails |
| Reader.ResolveUid | ebooklib/epub.py:1385-1387 | the loop over the identifiers finds what `UidOf` specifies |
| Reader.SpineEntries | ebooklib/epub.py:1516 | one (idref, linear) entry per itemref, linear defaulting to `yes` |
| Reader.SpineReadBack | ebooklib/epub.py:1516 | the written spine reads back entry by entry as the ids written, marked `no` exactly where the writer marked an itemref non-linear and `yes` elsewhere |
| Reader.GuideEntries | ebooklib/epub.py:1533 | one (href, title, type) entry per reference |
| Reader.GuideReadBack | ebooklib/epub.py:1530-1533 | a written guide reads back entry by entry as its targets, titles and types |
| Reader.ManifestElement | ebooklib/epub.py:1390 | the manifest block is found exactly when the package has one |
| Reader.ReadManifest | ebooklib/epub.py:1390-1451 | at most one item per child of the manifest |
| Reader.AddAll | ebooklib/epub.py:1451 | adding the items read changes only the items and counters, appends one item per item read, each unchanged but for its id and media type, and keeps every id it has |
| Reader.LoadedManifest | ebooklib/epub.py:1389-1451 | loading the manifest succeeds exactly when the block exists and every entry reads, and adds the items read |
| Reader.EpubReader.LoadManifest | ebooklib/epub.py:1389-1451 | the loop over the manifest ends in the state `LoadedManifest` gives, or with its error |
| Reader.SpineElement | ebooklib/epub.py:1514 | the spine block is found exactly when the package has one |
| Reader.NcxOf | ebooklib/epub.py:1453-1454 | bytes fail as XML; a document gives its NCX table of contents |
| Reader.NcxToc | ebooklib/epub.py:1522-1528 | an unknown toc id fails with `AttributeError`, a missing NCX member with code -1, and otherwise the member's table of contents is read |
| Reader.LoadedSpine | ebooklib/epub.py:1513-1528 | the load succeeds exactly when the spine exists and either names no table of contents or its NCX reads; a missing spine fails with `TypeError`, a failing NCX with the NCX's error; the spine entries and direction are read, and the NCX replaces the table of contents when the spine names one |
| Reader.LoadedGuide | ebooklib/epub.py:1530-1533 | the guide is replaced by the references read exactly when the package has a guide block |
| Reader.FirstNav | ebooklib/epub.py:1551 | the first nav document among the items, and none exactly when there is none |
| Reader.NavOf | ebooklib/epub.py:1482-1484 | content that is not a document fails with `IndexError`; a document gives its nav table of contents |
| Reader.NavToc | ebooklib/epub.py:1550-1553 | a book with a table of contents or without a nav document is unchanged; otherwise the table of contents is read from the first nav document relative to its directory, and nothing else changes |
| Reader.LoadedOpfFile | ebooklib/epub.py:1535-1553 | a missing package document fails with code -1, one that is not XML with a syntax error; otherwise the package is loaded |
| Reader.LoadedOpfSteps | ebooklib/epub.py:1541-1553 | the metadata is read first, so its failure is the load's failure; a successful load keeps the metadata it read and the items the manifest added |
| Reader.ReadBook | ebooklib/epub.py:1555-1567 | a bad archive fails with code 0, one needing ZIP64 with code 1; a container that cannot be read (missing: `KeyError`, not XML: a syntax error) fails the load with its error; otherwise the package the container names is loaded |
| Reader.EpubReader.constructor | ebooklib/epub.py:1285-1295 | a reader with a fresh book in its reset state and no package located |
| Reader.EpubReader.LoadContainer | ebooklib/epub.py:1318-1325 | the package path and directory become what `ContainerOpf` gives |
| Reader.EpubReader.LoadMetadata | ebooklib/epub.py:1327-1387 | the book ends in the state `LoadedMetadata` gives, or with its error |
| Reader.EpubReader.StoreMetadata | ebooklib/epub.py:1331-1387 | only the version, metadata, identifier id, title and uid change |
| Reader.EpubReader.LoadSpine | ebooklib/epub.py:1513-1528 | the book ends in the state `LoadedSpine` gives, or with its error |
| Reader.EpubReader.StoreSpine | ebooklib/epub.py:1516-1528 | only the spine, direction and table of contents change |
| Reader.EpubReader.LoadGuide | ebooklib/epub.py:1530-1533 | the book ends in the state `LoadedGuide` gives |
| Reader.EpubReader.LoadNav | ebooklib/epub.py:1548-1553 | the book ends in the state `NavToc` gives, or with its error |
| Reader.EpubReader.LoadPackage | ebooklib/epub.py:1541-1553 | metadata, manifest, spine, guide and nav document are loaded in turn, ending in the state `LoadedOpf` gives |
| Reader.EpubReader.LoadOpfFile | ebooklib/epub.py:1535-1553 | the book ends in the state `LoadedOpfFile` gives, or with its error |
| Reader.EpubReader.Load | ebooklib/epub.py:1555-1567 | the book ends in the state `ReadBook` gives, or with its error |
| Reader.ReadEpub | ebooklib/epub.py:1599-1622 | `read_epub` gives a new book in the state `ReadBook` gives from a reset book, or its error |

## Left out

- Zip I/O and compression (`zipfile`, stored and deflated members, closing): an archive is a member map to read and a list of members written. Duplicate member names are kept as separate entries.
- XML and HTML parsing and serialisation (lxml, `parse_string`, `parse_html_string`, pretty printing, declarations): a blob is bytes or an element tree. Content that is not XML fails where parsing would. `ebooklib/utils.py` is not part of this model.
- The reader's HTML parser on a nav document that is not well-formed XML: such content fails with `IndexError`, as a missing toc nav does, instead of being repaired.
- `EpubHtml.get_content`, `get_body_content` and `EpubCoverHtml.get_content` (HTML tree surgery on templates): the writer takes a `render` parameter that gives the bytes of a chapter or cover page.
- `guess_type`, `uuid4`, `datetime.now`, `unquote`, `ebooklib.EXTENSIONS` and the working directory are parameters: a guess function, a uuid string, the modification time string, an unquote function, an extension table and `cwd`.
- Plugins and `process` in the writer and reader (`before_write`, `html_before_write`, `after_read`, `html_after_read`): callback plumbing with no effect on the core.
- `logging`, and the `IOError` that `write_epub` swallows: `WriteEpub` returns the error instead.
- Options are a record of the five writer options plus the modification time; merging user options into the defaults is not modelled.
- Namespace maps and prefixes of written trees: children created with bare names take the root's default namespace, which is how lxml reads them back; the package's `prefix` attribute is written as an attribute only. The metadata block's namespace declarations (`dc`, `opf` and the book's extra `namespaces`, epub.py:925-935) are not written.
- Element names lxml refuses (the `ValueError` the metadata writer logs and skips) are not modelled: every name is accepted.
- Comments and processing instructions inside the metadata block: every child of the block is an element.
- `None` and the empty string are one value for ids, titles and hrefs. The nav writer's `TypeError` on a `None` title is not modelled. The reader merges them for four more attributes, with these consequences:
- Reader.ManifestEntry: a manifest entry without `media-type` gets the media type "", and `Book.Completed` then guesses a type from the file name. The source keeps `None` (epub.py:1394), because `add_item` guesses only for '' (epub.py:711).
- Reader.OpfLocation: a package root file without `full-path` gives the location "", and the load then fails with code -1 ("Can not find container file"). The source fails earlier, with `TypeError` in `dirname(None)` (epub.py:1324-1325).
- Reader.GuideEntries: a reference without `type` gets the type "". The source keeps `None` (epub.py:1533).
- Reader.ReadMetaChild: a `meta` without a `name` attribute is filed under the name "", where the source files it under `None` (epub.py:1358-1366).
- The writer reads a snapshot of the book's state: aliasing between the writer's book and a book still being changed is not modelled.
- The state of a book after a load that fails is not modelled: the reader's methods state only what a failed step returns.
- The reader's parsed package tree is set only by `LoadOpfFile`; `EpubReader.container` is not a separate public step.
- `reset` as a method called on a used book: only the state it gives a new book is modelled, by the constructor.
- Strings.LowerAscii: lower-cases ASCII letters only, where Python's `lower()` also folds other letters. Its users see only ASCII folding: `Book.MediaTypeFor` (the file name guessed from, epub.py:712), `Items.GetType` (the file extension, epub.py:175) and `Reader.ReadMetaChild` (the `dc` prefix test, epub.py:1370).
- Reader.ReadManifest: its own contract bounds only the number of items; what each item is comes from `ManifestEntry` and the read-back lemmas.
- Reader.NcxOf: reads the NCX with the corrected `ParseNcx`, where an empty `navMap` gives an empty table of contents. As written (epub.py:1471-1478) it gives a truthy `Link('', '', '')`, and the fall-back to the nav document at epub.py:1550 is then skipped; `Ncx.EmptyTocReadBackAsWritten` shows this under Findings.
- A guide entry `{'item': None}` is not modelled: a guide entry holds an item or an href. As written, such an entry reuses the href and title of the entry before it, or fails with `UnboundLocalError` when it comes first.
- Writer.ItemBytes: says nothing about chapters and cover pages, whose bytes come from the `render` parameter.

## Findings

| source | as written | input that shows it | evidently intended | confidence | as-written member | corrected member |
|---|---|---|---|---|---|---|
| ebooklib/epub.py:1459-1480 | `_get_children` on a navMap with no navPoint returns a single `Link('', '', '')`, not a list, and `book.toc` becomes that link | an EPUB whose NCX has an empty `navMap` (as the writer produces for a book with an empty table of contents) and a nav document with entries: the truthy link also stops the fall-back to the nav document at line 1550 | an empty navMap reads as an empty table of contents, so the nav document is consulted | high, not executed | Ncx.EmptyTocReadBackAsWritten | Ncx.NcxRoundTrip |

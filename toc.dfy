/**
 * The table of contents a book carries: a list whose entries are links, documents of the
 * book, or sections (a heading followed by a nested list).
 */
module Toc {
  import opened Wrappers
  import opened Items

  /** The parts of a document of the book that the table of contents uses. */
  datatype DocRef = DocRef(id: string, fileName: string, title: string)

  /** A document of the book as a table-of-contents entry. */
  function DocRefOf(item: Item): (d: DocRef)
    requires IsHtml(item.kind)
    ensures d.id == item.id && d.fileName == item.fileName && d.title == item.title
  {
    DocRef(item.id, item.fileName, item.title)
  }

  /** What heads a nested list: a `Section`, a `Link`, or a document of the book. */
  datatype Heading =
    | Section(title: string, href: string)
    | LinkHeading(href: string, title: string, uid: Option<string>)
    | DocHeading(doc: DocRef)

  /** An entry: a `Link`, a document, or a heading with the entries nested under it. */
  datatype Entry =
    | Link(href: string, title: string, uid: Option<string>)
    | Document(doc: DocRef)
    | Nest(head: Heading, children: seq<Entry>)

  function HeadTitle(h: Heading): string {
    match h
    case Section(title, _) => title
    case LinkHeading(_, title, _) => title
    case DocHeading(d) => d.title
  }

  /** The target of a heading; a document's target is its file name. */
  function HeadHref(h: Heading): string {
    match h
    case Section(_, href) => href
    case LinkHeading(href, _, _) => href
    case DocHeading(d) => d.fileName
  }

  /** Every nested list has at least one entry, at every depth. */
  predicate WellNested(toc: seq<Entry>) {
    forall i :: 0 <= i < |toc| ==> NestedWell(toc[i])
  }

  predicate NestedWell(e: Entry) {
    match e
    case Nest(_, children) => |children| > 0 && forall i :: 0 <= i < |children| ==> NestedWell(children[i])
    case _ => true
  }
}

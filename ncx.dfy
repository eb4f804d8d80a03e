/**
 * The EPUB 2 table of contents (NCX): the navMap the writer builds from the book's table
 * of contents, and the table of contents the reader rebuilds from a navMap.
 */
module Ncx {
  import opened Wrappers
  import opened Strings
  import opened Dicts
  import opened Xml
  import opened Metadata
  import opened Toc

  // ---------------------------------------------------------------------------
  // Writing: `_get_ncx` and its `_create_section`

  /** The names of the navPoint parts, as they read back in the document's namespace. */
  datatype PointTags = PointTags(navPoint: string, navLabel: string, text: string, content: string)

  function PointTagsIn(ns: Option<string>): PointTags {
    PointTags(QName(ns, "navPoint"), QName(ns, "navLabel"), QName(ns, "text"), QName(ns, "content"))
  }

  /**
   * One navPoint: its id, a navLabel holding the title, a content element pointing at `src`,
   * then the nested navPoints.
   */
  function NavPoint(t: PointTags, id: string, title: string, src: string, kids: seq<Element>): Element {
    El(t.navPoint, map["id" := id], "", [
      El(t.navLabel, map[], "", [El(t.text, map[], title, [])]),
      El(t.content, map["src" := src], "", [])] + kids)
  }

  /**
   * What `_create_section` has done so far to one parent: the navPoints appended to it, the
   * section counter, and the parent's `content@src` (`None` for the navMap, which has none).
   */
  datatype Built = Built(points: seq<Element>, uid: nat, src: Option<string>)

  /** A link or a document fills in the parent's source only while it is empty. */
  function Fill(src: Option<string>, href: string): Option<string> {
    if src == Some("") then Some(href) else src
  }

  /** The id of a navPoint made for a heading that is not a document: `sep_<counter>`. */
  function SepId(k: nat): string {
    "sep_" + NatStr(k)
  }

  /**
   * `_create_section(parent, items, uid)` after the items have been visited in order,
   * starting from counter `uid` and parent source `src`.
   */
  function NcxSection(t: PointTags, items: seq<Entry>, uid: nat, src: Option<string>): Result<Built>
    decreases items, 1
  {
    if items == [] then Ok(Built([], uid, src))
    else
      var before :- NcxSection(t, items[..|items| - 1], uid, src);
      NcxEntry(t, before, items[|items| - 1])
  }

  /**
   * One item of `_create_section`: a link (whose id must not be `None`), a document, or a
   * heading with its nested entries, numbered from the next counter value.
   */
  function NcxEntry(t: PointTags, b: Built, e: Entry): Result<Built>
    decreases e, 0
  {
    match e
    case Link(href, title, uid) =>
      if uid.None? then Err(TypeError("navPoint id is None"))
      else Ok(Built(b.points + [NavPoint(t, uid.value, title, href, [])], b.uid, Fill(b.src, href)))
    case Document(d) =>
      Ok(Built(b.points + [NavPoint(t, d.id, d.title, d.fileName, [])], b.uid, Fill(b.src, d.fileName)))
    case Nest(head, children) =>
      var id := if head.DocHeading? then head.doc.id else SepId(b.uid);
      var inner :- NcxSection(t, children, b.uid + 1, Some(HeadHref(head)));
      Ok(Built(b.points + [NavPoint(t, id, HeadTitle(head), inner.src.GetOr(""), inner.points)], inner.uid, b.src))
  }

  /** Once a prefix of the items has failed, the whole list fails with the same error. */
  lemma {:induction false} SectionErrSticks(t: PointTags, items: seq<Entry>, k: nat, uid: nat, src: Option<string>)
    requires k <= |items| && NcxSection(t, items[..k], uid, src).Err?
    ensures NcxSection(t, items, uid, src) == NcxSection(t, items[..k], uid, src)
    decreases |items| - k
  {
    if k < |items| {
      assert items[..k + 1][..k] == items[..k];
      SectionErrSticks(t, items, k + 1, uid, src);
    } else {
      assert items[..k] == items;
    }
  }

  /** Visiting one more item continues from the state the items before it left. */
  lemma SectionSnoc(t: PointTags, items: seq<Entry>, i: nat, uid: nat, src: Option<string>)
    requires i < |items| && NcxSection(t, items[..i], uid, src).Ok?
    ensures NcxSection(t, items[..i + 1], uid, src) == NcxEntry(t, NcxSection(t, items[..i], uid, src).value, items[i])
  {
    assert items[..i + 1][..i] == items[..i];
  }

  /** The navPoint of a link with an id, or of a document, and the source it fills in. */
  lemma LeafStep(t: PointTags, b: Built, e: Entry)
    requires e.Document? || (e.Link? && e.uid.Some?)
    ensures NcxEntry(t, b, e).Ok?
    ensures e.Link? ==> NcxEntry(t, b, e).value.points == b.points + [NavPoint(t, e.uid.value, e.title, e.href, [])]
    ensures e.Document? ==> NcxEntry(t, b, e).value.points == b.points + [NavPoint(t, e.doc.id, e.doc.title, e.doc.fileName, [])]
    ensures NcxEntry(t, b, e).value.uid == b.uid
    ensures NcxEntry(t, b, e).value.src == Fill(b.src, if e.Link? then e.href else e.doc.fileName)
  {
  }

  /** A heading's navPoint, once its nested entries have been written. */
  lemma NestStep(t: PointTags, b: Built, head: Heading, children: seq<Entry>)
    ensures var inner := NcxSection(t, children, b.uid + 1, Some(HeadHref(head)));
      inner.Err? ==> NcxEntry(t, b, Nest(head, children)) == Err(inner.error)
    ensures var inner := NcxSection(t, children, b.uid + 1, Some(HeadHref(head)));
      var id := if head.DocHeading? then head.doc.id else SepId(b.uid);
      inner.Ok? ==> (
        && NcxEntry(t, b, Nest(head, children)).Ok?
        && NcxEntry(t, b, Nest(head, children)).value.points ==
             b.points + [NavPoint(t, id, HeadTitle(head), inner.value.src.GetOr(""), inner.value.points)]
        && NcxEntry(t, b, Nest(head, children)).value.uid == inner.value.uid
        && NcxEntry(t, b, Nest(head, children)).value.src == b.src)
  {
  }

  /**
   * `_create_section` itself: the loop over the items, appending navPoints, patching the
   * parent's source and threading the counter through the nested sections.
   */
  method CreateSection(t: PointTags, items: seq<Entry>, uid: nat, src: Option<string>) returns (r: Result<Built>)
    ensures r == NcxSection(t, items, uid, src)
    decreases items
  {
    var points: seq<Element> := [];
    var counter := uid;
    var parentSrc := src;
    var i := 0;
    while i < |items|
      invariant 0 <= i <= |items|
      invariant NcxSection(t, items[..i], uid, src).Ok?
      invariant NcxSection(t, items[..i], uid, src).value.points == points
      invariant NcxSection(t, items[..i], uid, src).value.uid == counter
      invariant NcxSection(t, items[..i], uid, src).value.src == parentSrc
    {
      SectionSnoc(t, items, i, uid, src);
      match items[i] {
        case Link(href, title, id) =>
          if id.None? {
            SectionErrSticks(t, items, i + 1, uid, src);
            return Err(TypeError("navPoint id is None"));
          }
          LeafStep(t, Built(points, counter, parentSrc), items[i]);
          points := points + [NavPoint(t, id.value, title, href, [])];
          parentSrc := Fill(parentSrc, href);
        case Document(d) =>
          LeafStep(t, Built(points, counter, parentSrc), items[i]);
          points := points + [NavPoint(t, d.id, d.title, d.fileName, [])];
          parentSrc := Fill(parentSrc, d.fileName);
        case Nest(head, children) =>
          var id := if head.DocHeading? then head.doc.id else SepId(counter);
          var inner := CreateSection(t, children, counter + 1, Some(HeadHref(head)));
          if inner.Err? {
            SectionErrSticks(t, items, i + 1, uid, src);
            return Err(inner.error);
          }
          var point := NavPoint(t, id, HeadTitle(head), inner.value.src.GetOr(""), inner.value.points);
          NestStep(t, Built(points, counter, parentSrc), head, children);
          points := points + [point];
          counter := inner.value.uid;
      }
      i := i + 1;
    }
    assert items[..i] == items;
    r := Ok(Built(points, counter, parentSrc));
  }

  // ---------------------------------------------------------------------------
  // What the writer guarantees

  /** Some link, at any depth, has no id. */
  predicate UidMissing(items: seq<Entry>) {
    exists i :: 0 <= i < |items| && EntryUidMissing(items[i])
  }

  predicate EntryUidMissing(e: Entry) {
    match e
    case Link(_, _, uid) => uid.None?
    case Document(_) => false
    case Nest(_, children) => exists i :: 0 <= i < |children| && EntryUidMissing(children[i])
  }

  /** Writing fails exactly when some link in the table of contents has no id. */
  lemma {:induction false} NcxSectionFails(t: PointTags, items: seq<Entry>, uid: nat, src: Option<string>)
    ensures NcxSection(t, items, uid, src).Err? <==> UidMissing(items)
    decreases items, 1
  {
    if items != [] {
      var init, last := items[..|items| - 1], items[|items| - 1];
      assert forall i :: 0 <= i < |init| ==> init[i] == items[i];
      NcxSectionFails(t, init, uid, src);
      var before := NcxSection(t, init, uid, src);
      if before.Ok? {
        NcxEntryFails(t, before.value, last);
      }
    }
  }

  lemma {:induction false} NcxEntryFails(t: PointTags, b: Built, e: Entry)
    ensures NcxEntry(t, b, e).Err? <==> EntryUidMissing(e)
    decreases e, 0
  {
    if e.Nest? {
      NcxSectionFails(t, e.children, b.uid + 1, Some(HeadHref(e.head)));
    }
  }

  /** The number of headings with nested entries, at every depth. */
  function NestCount(items: seq<Entry>): nat
    decreases items, 1
  {
    if items == [] then 0 else NestCount(items[..|items| - 1]) + EntryNests(items[|items| - 1])
  }

  function EntryNests(e: Entry): nat
    decreases e, 0
  {
    match e
    case Nest(_, children) => 1 + NestCount(children)
    case _ => 0
  }

  /** The hrefs of the links and documents directly in the list, in order; headings have none. */
  function DirectHrefs(items: seq<Entry>): seq<string> {
    if items == [] then [] else OwnHref(items[0]) + DirectHrefs(items[1..])
  }

  /** A link's or a document's own href; a heading contributes none. */
  function OwnHref(e: Entry): seq<string> {
    match e
    case Link(href, _, _) => [href]
    case Document(d) => [d.fileName]
    case Nest(_, _) => []
  }

  /** The first non-empty string of the list, or "" when there is none. */
  function FirstNonEmpty(hs: seq<string>): (r: string)
    ensures r == "" <==> forall i :: 0 <= i < |hs| ==> hs[i] == ""
    ensures r != "" ==> r in hs
  {
    if hs == [] then "" else if hs[0] != "" then hs[0] else FirstNonEmpty(hs[1..])
  }

  lemma {:induction false} DirectHrefsSnoc(items: seq<Entry>)
    requires items != []
    ensures DirectHrefs(items) == DirectHrefs(items[..|items| - 1]) + DirectHrefs([items[|items| - 1]])
  {
    assert items == items[..|items| - 1] + [items[|items| - 1]];
    DirectHrefsAppend(items[..|items| - 1], [items[|items| - 1]]);
  }

  lemma {:induction false} DirectHrefsAppend(a: seq<Entry>, b: seq<Entry>)
    ensures DirectHrefs(a + b) == DirectHrefs(a) + DirectHrefs(b)
  {
    if a == [] {
      assert a + b == b;
    } else {
      assert (a + b)[0] == a[0] && (a + b)[1..] == a[1..] + b;
      DirectHrefsAppend(a[1..], b);
    }
  }

  lemma {:induction false} FirstNonEmptySnoc(hs: seq<string>, h: string)
    ensures FirstNonEmpty(hs + [h]) == if FirstNonEmpty(hs) != "" then FirstNonEmpty(hs) else h
  {
    if hs != [] {
      assert (hs + [h])[1..] == hs[1..] + [h];
      FirstNonEmptySnoc(hs[1..], h);
    }
  }

  /** The counter ends advanced by one per heading with nested entries, at every depth. */
  lemma {:induction false} NcxSectionCounter(t: PointTags, items: seq<Entry>, uid: nat, src: Option<string>)
    requires NcxSection(t, items, uid, src).Ok?
    ensures NcxSection(t, items, uid, src).value.uid == uid + NestCount(items)
    decreases items, 1
  {
    if items != [] {
      var init, last := items[..|items| - 1], items[|items| - 1];
      NcxSectionCounter(t, init, uid, src);
      NcxEntryCounter(t, NcxSection(t, init, uid, src).value, last);
    }
  }

  lemma {:induction false} NcxEntryCounter(t: PointTags, b: Built, e: Entry)
    requires NcxEntry(t, b, e).Ok?
    ensures NcxEntry(t, b, e).value.uid == b.uid + EntryNests(e)
    decreases e, 0
  {
    if e.Nest? {
      NcxSectionCounter(t, e.children, b.uid + 1, Some(HeadHref(e.head)));
    }
  }

  /**
   * Back-filling: the parent's source is never overwritten once it is non-empty (nor given
   * one when it has none), and an empty one takes the first non-empty href of the links and
   * documents directly under the parent; entries nested deeper never reach it.
   */
  lemma {:induction false} NcxSectionBackFill(t: PointTags, items: seq<Entry>, uid: nat, src: Option<string>)
    requires NcxSection(t, items, uid, src).Ok?
    ensures src != Some("") ==> NcxSection(t, items, uid, src).value.src == src
    ensures src == Some("") ==> NcxSection(t, items, uid, src).value.src == Some(FirstNonEmpty(DirectHrefs(items)))
  {
    if items != [] {
      var init, last := items[..|items| - 1], items[|items| - 1];
      NcxSectionBackFill(t, init, uid, src);
      var before := NcxSection(t, init, uid, src).value;
      assert NcxSection(t, items, uid, src) == NcxEntry(t, before, last);
      DirectHrefsSnoc(items);
      if src == Some("") {
        BackFillStep(t, before, init, last);
      }
    }
  }

  /** The parent's source after one entry. */
  lemma EntrySrc(t: PointTags, b: Built, e: Entry)
    requires NcxEntry(t, b, e).Ok?
    ensures e.Link? ==> NcxEntry(t, b, e).value.src == Fill(b.src, e.href)
    ensures e.Document? ==> NcxEntry(t, b, e).value.src == Fill(b.src, e.doc.fileName)
    ensures e.Nest? ==> NcxEntry(t, b, e).value.src == b.src
  {
  }

  lemma BackFillStep(t: PointTags, before: Built, init: seq<Entry>, last: Entry)
    requires NcxEntry(t, before, last).Ok?
    requires before.src == Some(FirstNonEmpty(DirectHrefs(init)))
    ensures NcxEntry(t, before, last).value.src == Some(FirstNonEmpty(DirectHrefs(init) + DirectHrefs([last])))
  {
    EntrySrc(t, before, last);
    HrefsAfter(init, last);
  }

  /** The first non-empty direct href once one more entry follows. */
  lemma HrefsAfter(init: seq<Entry>, last: Entry)
    ensures last.Nest? ==> FirstNonEmpty(DirectHrefs(init) + DirectHrefs([last])) == FirstNonEmpty(DirectHrefs(init))
    ensures last.Link? ==> (Some(FirstNonEmpty(DirectHrefs(init) + DirectHrefs([last]))) ==
      Fill(Some(FirstNonEmpty(DirectHrefs(init))), last.href))
    ensures last.Document? ==> (Some(FirstNonEmpty(DirectHrefs(init) + DirectHrefs([last]))) ==
      Fill(Some(FirstNonEmpty(DirectHrefs(init))), last.doc.fileName))
  {
    var hs := DirectHrefs(init);
    assert [last][1..] == [];
    if last.Nest? {
      assert DirectHrefs([last]) == [];
      assert hs + [] == hs;
    } else {
      var h := if last.Link? then last.href else last.doc.fileName;
      assert DirectHrefs([last]) == [h];
      FirstNonEmptySnoc(hs, h);
    }
  }

  /**
   * The source a heading's navPoint ends with: its own href when non-empty, else the first
   * non-empty href directly under it, else "".
   */
  function HeadingSrc(head: Heading, children: seq<Entry>): string {
    if HeadHref(head) != "" then HeadHref(head) else FirstNonEmpty(DirectHrefs(children))
  }

  lemma HeadingSrcOf(t: PointTags, b: Built, head: Heading, children: seq<Entry>)
    requires NcxEntry(t, b, Nest(head, children)).Ok?
    ensures var inner := NcxSection(t, children, b.uid + 1, Some(HeadHref(head)));
      inner.Ok? && inner.value.src == Some(HeadingSrc(head, children))
  {
    NcxSectionBackFill(t, children, b.uid + 1, Some(HeadHref(head)));
  }

  // ---------------------------------------------------------------------------
  // The ids of the navPoints

  /** The ids of the navPoints among `es` and nested below them, in document order. */
  function PointIds(t: PointTags, es: seq<Element>): seq<string>
    decreases es, 0
  {
    if es == [] then [] else PointIdsOf(t, es[0]) + PointIds(t, es[1..])
  }

  function PointIdsOf(t: PointTags, e: Element): seq<string>
    decreases e, 1
  {
    if e.tag == t.navPoint then [Attr(e, "id", "")] + PointIds(t, e.children) else []
  }

  lemma {:induction false} PointIdsAppend(t: PointTags, a: seq<Element>, b: seq<Element>)
    ensures PointIds(t, a + b) == PointIds(t, a) + PointIds(t, b)
  {
    if a == [] {
      assert a + b == b;
    } else {
      assert (a + b)[0] == a[0] && (a + b)[1..] == a[1..] + b;
      PointIdsAppend(t, a[1..], b);
      assert PointIds(t, a + b) == PointIdsOf(t, a[0]) + PointIds(t, a[1..] + b);
    }
  }

  /** The label and content parts are not navPoints. */
  predicate PartsApart(t: PointTags) {
    t.navLabel != t.navPoint && t.content != t.navPoint
  }

  lemma PartsApartIn(ns: Option<string>)
    ensures PartsApart(PointTagsIn(ns))
  {
    QNameApart(ns, "navLabel", "navPoint");
    QNameApart(ns, "content", "navPoint");
  }

  lemma QNameApart(ns: Option<string>, a: string, b: string)
    requires a != b
    ensures QName(ns, a) != QName(ns, b)
  {
    if ns.Some? {
      var n := |ns.value| + 2;
      assert Clark(ns.value, a)[n..] == a && Clark(ns.value, b)[n..] == b;
    }
  }

  /** A navPoint's ids: its own, then those nested in it. */
  lemma NavPointIds(t: PointTags, id: string, title: string, src: string, kids: seq<Element>)
    requires PartsApart(t)
    ensures PointIdsOf(t, NavPoint(t, id, title, src, kids)) == [id] + PointIds(t, kids)
  {
    var p := NavPoint(t, id, title, src, kids);
    var labelPart := El(t.navLabel, map[], "", [El(t.text, map[], title, [])]);
    var contentPart := El(t.content, map["src" := src], "", []);
    assert p.children == [labelPart, contentPart] + kids;
    assert PointIds(t, [labelPart, contentPart]) == [] by {
      assert [labelPart, contentPart][1..] == [contentPart] && [contentPart][1..] == [];
      assert PointIds(t, [contentPart]) == PointIdsOf(t, contentPart) + PointIds(t, []);
      assert PointIds(t, [labelPart, contentPart]) == PointIdsOf(t, labelPart) + PointIds(t, [contentPart]);
    }
    assert PointIds(t, p.children) == PointIds(t, kids) by {
      PointIdsAppend(t, [labelPart, contentPart], kids);
    }
    assert Attr(p, "id", "") == id;
  }

  /** An id of the form `sep_<digits>`, and its number. */
  predicate IsSep(id: string) {
    StartsWith(id, "sep_") && AllDigits(id[4..])
  }

  function SepNum(id: string): nat
    requires IsSep(id)
  {
    ParseNat(id[4..])
  }

  lemma SepIdNumber(k: nat)
    ensures IsSep(SepId(k)) && SepNum(SepId(k)) == k
  {
    assert SepId(k)[..4] == "sep_" && SepId(k)[4..] == NatStr(k);
    ParseNatStr(k);
  }

  /** The ids of the form `sep_<digits>`, in order. */
  function SepIds(ids: seq<string>): (r: seq<string>)
    ensures forall i :: 0 <= i < |r| ==> IsSep(r[i])
  {
    if ids == [] then [] else (if IsSep(ids[0]) then [ids[0]] else []) + SepIds(ids[1..])
  }

  lemma {:induction false} SepIdsAppend(a: seq<string>, b: seq<string>)
    ensures SepIds(a + b) == SepIds(a) + SepIds(b)
  {
    if a == [] {
      assert a + b == b;
    } else {
      assert (a + b)[0] == a[0] && (a + b)[1..] == a[1..] + b;
      SepIdsAppend(a[1..], b);
    }
  }

  /** `sep_` ids whose numbers strictly increase and lie in `[lo, hi)`. */
  predicate SepsAscending(seps: seq<string>, lo: nat, hi: nat) {
    && (forall i :: 0 <= i < |seps| ==> IsSep(seps[i]) && lo <= SepNum(seps[i]) < hi)
    && (forall i, j :: 0 <= i < j < |seps| ==> IsSep(seps[i]) && IsSep(seps[j]) && SepNum(seps[i]) < SepNum(seps[j]))
  }

  lemma SepsAscendingConcat(a: seq<string>, b: seq<string>, lo: nat, mid: nat, hi: nat)
    requires lo <= mid <= hi
    requires SepsAscending(a, lo, mid) && SepsAscending(b, mid, hi)
    ensures SepsAscending(a + b, lo, hi)
  {
    assert forall i :: |a| <= i < |a + b| ==> (a + b)[i] == b[i - |a|];
  }

  /** No id the caller chose (a link's, a document's) has the form `sep_<digits>`. */
  predicate UserIdsPlain(items: seq<Entry>) {
    forall i :: 0 <= i < |items| ==> EntryIdsPlain(items[i])
  }

  predicate EntryIdsPlain(e: Entry) {
    match e
    case Link(_, _, uid) => uid.None? || !IsSep(uid.value)
    case Document(d) => !IsSep(d.id)
    case Nest(head, children) =>
      && (head.DocHeading? ==> !IsSep(head.doc.id))
      && forall i :: 0 <= i < |children| ==> EntryIdsPlain(children[i])
  }

  /**
   * The `sep_` ids among the navPoints written for `items` carry strictly increasing
   * numbers, in document order, from the counter's start up to (excluding) its end.
   */
  lemma {:induction false} SepIdsOrdered(t: PointTags, items: seq<Entry>, uid: nat, src: Option<string>)
    requires PartsApart(t) && UserIdsPlain(items)
    requires NcxSection(t, items, uid, src).Ok?
    ensures uid <= NcxSection(t, items, uid, src).value.uid
    ensures SepsAscending(SepIds(PointIds(t, NcxSection(t, items, uid, src).value.points)), uid,
                          NcxSection(t, items, uid, src).value.uid)
    decreases items, 1
  {
    if items != [] {
      var init, last := items[..|items| - 1], items[|items| - 1];
      assert UserIdsPlain(init) by {
        assert forall i :: 0 <= i < |init| ==> init[i] == items[i];
      }
      SepIdsOrdered(t, init, uid, src);
      var before := NcxSection(t, init, uid, src).value;
      var after := NcxEntry(t, before, last).value;
      SepIdsEntry(t, before, last);
      var p := after.points[|before.points|];
      assert after.points == before.points + [p];
      SepsAfterAppend(t, before.points, p, uid, before.uid, after.uid);
    }
  }

  lemma SepsAfterAppend(t: PointTags, points: seq<Element>, p: Element, lo: nat, mid: nat, hi: nat)
    requires lo <= mid <= hi
    requires SepsAscending(SepIds(PointIds(t, points)), lo, mid)
    requires SepsAscending(SepIds(PointIdsOf(t, p)), mid, hi)
    ensures SepsAscending(SepIds(PointIds(t, points + [p])), lo, hi)
  {
    PointIdsAppend(t, points, [p]);
    assert [p][1..] == [];
    assert PointIds(t, [p]) == PointIdsOf(t, p) + [];
    assert PointIdsOf(t, p) + [] == PointIdsOf(t, p);
    assert PointIds(t, points + [p]) == PointIds(t, points) + PointIdsOf(t, p);
    SepIdsAppend(PointIds(t, points), PointIdsOf(t, p));
    SepsAscendingConcat(SepIds(PointIds(t, points)), SepIds(PointIdsOf(t, p)), lo, mid, hi);
  }

  lemma {:induction false} SepIdsEntry(t: PointTags, b: Built, e: Entry)
    requires PartsApart(t) && EntryIdsPlain(e)
    requires NcxEntry(t, b, e).Ok?
    ensures var a := NcxEntry(t, b, e).value;
      && |a.points| == |b.points| + 1 && a.points[..|b.points|] == b.points
      && b.uid <= a.uid
      && SepsAscending(SepIds(PointIdsOf(t, a.points[|b.points|])), b.uid, a.uid)
    decreases e, 1
  {
    match e {
      case Link(href, title, uid) =>
        LeafStep(t, b, e);
        NavPointIds(t, uid.value, title, href, []);
        assert SepIds([uid.value]) == [] + SepIds([]);
      case Document(d) =>
        LeafStep(t, b, e);
        NavPointIds(t, d.id, d.title, d.fileName, []);
        assert SepIds([d.id]) == [] + SepIds([]);
      case Nest(head, children) =>
        SepIdsNest(t, b, head, children);
    }
  }

  /** The heading case: its own id (a `sep_` id only when it is not a document) before its children's. */
  lemma {:induction false} SepIdsNest(t: PointTags, b: Built, head: Heading, children: seq<Entry>)
    requires PartsApart(t) && EntryIdsPlain(Nest(head, children))
    requires NcxEntry(t, b, Nest(head, children)).Ok?
    ensures var a := NcxEntry(t, b, Nest(head, children)).value;
      && |a.points| == |b.points| + 1 && a.points[..|b.points|] == b.points
      && b.uid <= a.uid
      && SepsAscending(SepIds(PointIdsOf(t, a.points[|b.points|])), b.uid, a.uid)
    decreases Nest(head, children), 0
  {
    var a := NcxEntry(t, b, Nest(head, children)).value;
    NestStep(t, b, head, children);
    var inner := NcxSection(t, children, b.uid + 1, Some(HeadHref(head))).value;
    var id := if head.DocHeading? then head.doc.id else SepId(b.uid);
    assert UserIdsPlain(children);
    SepIdsOrdered(t, children, b.uid + 1, Some(HeadHref(head)));
    NavPointIds(t, id, HeadTitle(head), inner.src.GetOr(""), inner.points);
    SepsWithHead(id, PointIds(t, inner.points), b.uid, a.uid);
  }

  /** An id that is either not a `sep_` id or the one numbered `lo`, put before ids numbered from `lo + 1`. */
  lemma SepsWithHead(id: string, rest: seq<string>, lo: nat, hi: nat)
    requires lo + 1 <= hi
    requires SepsAscending(SepIds(rest), lo + 1, hi)
    requires !IsSep(id) || id == SepId(lo)
    ensures SepsAscending(SepIds([id] + rest), lo, hi)
  {
    SepIdsCons(id, rest);
    if IsSep(id) {
      assert SepsAscending([id], lo, lo + 1) by { SepIdNumber(lo); }
      SepsAscendingConcat([id], SepIds(rest), lo, lo + 1, hi);
    } else {
      SepsAscendingConcat([], SepIds(rest), lo, lo + 1, hi);
    }
  }

  lemma SepIdsCons(id: string, rest: seq<string>)
    ensures SepIds([id] + rest) == (if IsSep(id) then [id] + SepIds(rest) else SepIds(rest))
  {
    SepIdsAppend([id], rest);
    assert [id][1..] == [];
    assert [] + SepIds(rest) == SepIds(rest);
  }

  /** Hence the `sep_` ids written for a table of contents are pairwise distinct. */
  lemma SepIdsDistinct(t: PointTags, items: seq<Entry>, uid: nat, src: Option<string>)
    requires PartsApart(t) && UserIdsPlain(items)
    requires NcxSection(t, items, uid, src).Ok?
    ensures var seps := SepIds(PointIds(t, NcxSection(t, items, uid, src).value.points));
      forall i, j :: 0 <= i < j < |seps| ==> seps[i] != seps[j]
  {
    SepIdsOrdered(t, items, uid, src);
  }

  // ---------------------------------------------------------------------------
  // The NCX document

  /** The head: the book's identifier and three zero counts, as `dtb:` metadata. */
  function NcxHead(ns: Option<string>, uid: string): Element {
    El(QName(ns, "head"), map[], "", [
      El(QName(ns, "meta"), map["content" := uid, "name" := "dtb:uid"], "", []),
      El(QName(ns, "meta"), map["content" := "0", "name" := "dtb:depth"], "", []),
      El(QName(ns, "meta"), map["content" := "0", "name" := "dtb:totalPageCount"], "", []),
      El(QName(ns, "meta"), map["content" := "0", "name" := "dtb:maxPageNumber"], "", [])])
  }

  /**
   * `_get_ncx`: the template's root with a head, the document title and the navMap appended
   * after its own children; the navMap holds one navPoint per top-level entry.
   */
  function NcxDocument(template: Element, uid: string, title: string, toc: seq<Entry>): (r: Result<Element>)
    ensures r.Ok? <==> !UidMissing(toc)
    ensures r.Ok? ==> (
      && r.value.tag == template.tag && r.value.attrs == template.attrs && r.value.nsmap == template.nsmap
      && |r.value.children| == |template.children| + 3
      && r.value.children[..|template.children|] == template.children
      && r.value.children[|template.children| + 2].tag == InNs(template, "navMap")
      && |r.value.children[|template.children| + 2].children| == |toc|)
  {
    var ns := DefaultNs(template);
    NcxSectionFails(PointTagsIn(ns), toc, 0, None);
    var written :- NcxSection(PointTagsIn(ns), toc, 0, None);
    SectionLength(PointTagsIn(ns), toc, 0, None);
    var docTitle := El(QName(ns, "docTitle"), map[], "", [El(QName(ns, "text"), map[], title, [])]);
    var navMap := El(QName(ns, "navMap"), map[], "", written.points);
    Ok(template.(children := template.children + [NcxHead(ns, uid), docTitle, navMap]))
  }

  /** One navPoint per entry. */
  lemma {:induction false} SectionLength(t: PointTags, items: seq<Entry>, uid: nat, src: Option<string>)
    requires NcxSection(t, items, uid, src).Ok?
    ensures |NcxSection(t, items, uid, src).value.points| == |items|
    decreases items
  {
    if items != [] {
      var init := items[..|items| - 1];
      SectionLength(t, init, uid, src);
      var before := NcxSection(t, init, uid, src).value;
      var e := items[|items| - 1];
      if e.Nest? {
        NestStep(t, before, e.head, e.children);
      } else {
        LeafStep(t, before, e);
      }
    }
  }

  /**
   * In a written NCX, the `sep_` ids carry strictly increasing numbers in document order,
   * so no two navPoints share one, provided no id the caller chose has that form.
   */
  lemma NcxSepIds(template: Element, uid: string, title: string, toc: seq<Entry>)
    requires !UidMissing(toc) && UserIdsPlain(toc)
    ensures var t := PointTagsIn(DefaultNs(template));
      var navMap := NcxDocument(template, uid, title, toc).value.children[|template.children| + 2];
      var seps := SepIds(PointIds(t, navMap.children));
      forall i, j :: 0 <= i < j < |seps| ==> SepNum(seps[i]) < SepNum(seps[j]) && seps[i] != seps[j]
  {
    var t := PointTagsIn(DefaultNs(template));
    NcxSectionFails(t, toc, 0, None);
    PartsApartIn(DefaultNs(template));
    SepIdsOrdered(t, toc, 0, None);
  }

  // ---------------------------------------------------------------------------
  // Reading: `_parse_ncx` and its `_get_children`

  /** The names the reader looks for, in the DAISY NCX namespace. */
  const DAISY_TAGS := PointTagsIn(Some(DAISY_NS))

  /**
   * The loop of `_get_children` over the children of one element: the last navLabel gives
   * the text (the text of its first child, an IndexError when it has none), the last content
   * the source (`src`, "" when absent), and each navPoint one entry, in order.
   */
  function Scan(kids: seq<Element>, text: string, src: string, found: seq<Entry>): Result<(string, string, seq<Entry>)>
    decreases kids, 0
  {
    if kids == [] then Ok((text, src, found))
    else
      var a := kids[0];
      var text' :- if a.tag != DAISY_TAGS.navLabel then Ok(text)
                    else if a.children == [] then Err(IndexError("list index out of range"))
                    else Ok(a.children[0].text);
      var src' := if a.tag == DAISY_TAGS.content then Attr(a, "src", "") else src;
      var found' :- if a.tag != DAISY_TAGS.navPoint then Ok(found)
                    else var e :- PointEntry(a); Ok(found + [e]);
      Scan(kids[1..], text', src', found')
  }

  /**
   * A navPoint below the navMap: a section headed by its text and source when it has
   * navPoints of its own, else a link to its source carrying its id.
   */
  function PointEntry(e: Element): Result<Entry>
    decreases e, 1
  {
    var scanned :- Scan(e.children, "", "", []);
    if |scanned.2| > 0 then Ok(Nest(Section(scanned.0, scanned.1), scanned.2))
    else Ok(Link(scanned.1, scanned.0, Some(Attr(e, "id", ""))))
  }

  /** What `_get_children(navMap, 0, '')` returns: a list of entries, or a lone link. */
  datatype NcxToc = Entries(entries: seq<Entry>) | Lone(entry: Entry)

  /** The navMap as `_get_children` reads it: with no navPoint it returns a link, not a list. */
  function ParseNavMapAsWritten(navMap: Element): Result<NcxToc> {
    var scanned :- Scan(navMap.children, "", "", []);
    if |scanned.2| > 0 then Ok(Entries(scanned.2))
    else Ok(Lone(Link(scanned.1, scanned.0, Some(""))))
  }

  /** The navMap read as a list of entries, empty when it holds no navPoint. */
  function ParseNavMap(navMap: Element): Result<seq<Entry>> {
    var scanned :- Scan(navMap.children, "", "", []);
    Ok(scanned.2)
  }

  /** The two readings agree except on a navMap without navPoints. */
  lemma NavMapReadings(navMap: Element)
    ensures ParseNavMap(navMap).Ok? <==> ParseNavMapAsWritten(navMap).Ok?
    ensures ParseNavMap(navMap).Ok? && ParseNavMap(navMap).value != [] ==>
      ParseNavMapAsWritten(navMap) == Ok(Entries(ParseNavMap(navMap).value))
    ensures ParseNavMap(navMap) == Ok([]) ==> ParseNavMapAsWritten(navMap).Ok? && ParseNavMapAsWritten(navMap).value.Lone?
  {
  }

  /** The navMap of an NCX document; a document without one fails as `None.getchildren()` does. */
  function NavMapOf(root: Element): (r: Result<Element>)
    ensures r.Ok? <==> Find(root.children, Clark(DAISY_NS, "navMap")).Some?
  {
    match Find(root.children, Clark(DAISY_NS, "navMap"))
    case None => Err(AttributeError("'NoneType' object has no attribute 'getchildren'"))
    case Some(navMap) => Ok(navMap)
  }

  /** `_parse_ncx` as written. */
  function ParseNcxAsWritten(root: Element): Result<NcxToc> {
    var navMap :- NavMapOf(root);
    ParseNavMapAsWritten(navMap)
  }

  /** `_parse_ncx`, an empty navMap giving an empty table of contents. */
  function ParseNcx(root: Element): Result<seq<Entry>> {
    var navMap :- NavMapOf(root);
    ParseNavMap(navMap)
  }

  // ---------------------------------------------------------------------------
  // Writing, then reading

  /**
   * What reading back the NCX written for an entry gives: links keep their id, a document
   * becomes a link to its file carrying its id, and a heading becomes a section whose href
   * is the source its navPoint ended with.
   */
  function NcxCanon(toc: seq<Entry>): (r: seq<Entry>)
    ensures |r| == |toc|
    decreases toc, 1
  {
    seq(|toc|, i requires 0 <= i < |toc| => NcxCanonEntry(toc[i]))
  }

  function NcxCanonEntry(e: Entry): Entry
    decreases e, 0
  {
    match e
    case Link(_, _, _) => e
    case Document(d) => Link(d.fileName, d.title, Some(d.id))
    case Nest(head, children) => Nest(Section(HeadTitle(head), HeadingSrc(head, children)), NcxCanon(children))
  }

  lemma DaisyTagsApart()
    ensures DAISY_TAGS.navLabel != DAISY_TAGS.navPoint && DAISY_TAGS.content != DAISY_TAGS.navPoint
    ensures DAISY_TAGS.navLabel != DAISY_TAGS.content
  {
    QNameApart(Some(DAISY_NS), "navLabel", "navPoint");
    QNameApart(Some(DAISY_NS), "content", "navPoint");
    QNameApart(Some(DAISY_NS), "navLabel", "content");
  }

  /** Scanning navPoints only collects what each reads as, in order. */
  lemma {:induction false} ScanPoints(kids: seq<Element>, text: string, src: string, found: seq<Entry>, es: seq<Entry>)
    requires |kids| == |es|
    requires forall i :: 0 <= i < |kids| ==> kids[i].tag == DAISY_TAGS.navPoint && PointEntry(kids[i]) == Ok(es[i])
    ensures Scan(kids, text, src, found) == Ok((text, src, found + es))
  {
    DaisyTagsApart();
    if kids == [] {
      assert found + es == found;
    } else {
      assert found + [es[0]] + es[1..] == found + es;
      ScanPoints(kids[1..], text, src, found + [es[0]], es[1..]);
    }
  }

  /** A written navPoint reads back as a link when it has no nested navPoints, else as a section. */
  lemma PointReadBack(id: string, title: string, src: string, kids: seq<Element>, es: seq<Entry>)
    requires |kids| == |es|
    requires forall i :: 0 <= i < |kids| ==> kids[i].tag == DAISY_TAGS.navPoint && PointEntry(kids[i]) == Ok(es[i])
    ensures PointEntry(NavPoint(DAISY_TAGS, id, title, src, kids)) ==
      Ok(if es == [] then Link(src, title, Some(id)) else Nest(Section(title, src), es))
  {
    var p := NavPoint(DAISY_TAGS, id, title, src, kids);
    var labelPart := El(DAISY_TAGS.navLabel, map[], "", [El(DAISY_TAGS.text, map[], title, [])]);
    var contentPart := El(DAISY_TAGS.content, map["src" := src], "", []);
    assert p.children == [labelPart] + ([contentPart] + kids);
    ScanLabel(labelPart, [contentPart] + kids, "", "", []);
    ScanContent(contentPart, kids, title, "", []);
    ScanPoints(kids, title, src, [], es);
    assert Scan(p.children, "", "", []) == Ok((title, src, es)) by { assert [] + es == es; }
  }

  /** A navLabel with a first child sets the text and nothing else. */
  lemma ScanLabel(a: Element, rest: seq<Element>, text: string, src: string, found: seq<Entry>)
    requires a.tag == DAISY_TAGS.navLabel && a.children != []
    ensures Scan([a] + rest, text, src, found) == Scan(rest, a.children[0].text, src, found)
  {
    DaisyTagsApart();
    assert ([a] + rest)[0] == a && ([a] + rest)[1..] == rest;
  }

  /** A content element sets the source and nothing else. */
  lemma ScanContent(a: Element, rest: seq<Element>, text: string, src: string, found: seq<Entry>)
    requires a.tag == DAISY_TAGS.content
    ensures Scan([a] + rest, text, src, found) == Scan(rest, text, Attr(a, "src", ""), found)
  {
    DaisyTagsApart();
    assert ([a] + rest)[0] == a && ([a] + rest)[1..] == rest;
  }

  /** The navPoints written for well-nested items read back as the canonical entries. */
  lemma {:induction false} SectionReadBack(items: seq<Entry>, uid: nat, src: Option<string>)
    requires WellNested(items) && NcxSection(DAISY_TAGS, items, uid, src).Ok?
    ensures var points := NcxSection(DAISY_TAGS, items, uid, src).value.points;
      && |points| == |items|
      && forall i :: 0 <= i < |items| ==>
           points[i].tag == DAISY_TAGS.navPoint && PointEntry(points[i]) == Ok(NcxCanonEntry(items[i]))
    decreases items, 1
  {
    if items != [] {
      var init, last := items[..|items| - 1], items[|items| - 1];
      assert WellNested(init) by {
        assert forall i :: 0 <= i < |init| ==> init[i] == items[i];
      }
      SectionReadBack(init, uid, src);
      var before := NcxSection(DAISY_TAGS, init, uid, src).value;
      EntryReadBack(before, last);
      var after := NcxEntry(DAISY_TAGS, before, last).value;
      assert NcxSection(DAISY_TAGS, items, uid, src).value.points == after.points;
      ReadBackSnoc(items, before.points, after.points);
    }
  }

  lemma ReadBackSnoc(items: seq<Entry>, before: seq<Element>, after: seq<Element>)
    requires items != [] && |before| == |items| - 1
    requires forall i :: 0 <= i < |before| ==>
      before[i].tag == DAISY_TAGS.navPoint && PointEntry(before[i]) == Ok(NcxCanonEntry(items[..|items| - 1][i]))
    requires |after| == |before| + 1 && after[..|before|] == before
    requires after[|before|].tag == DAISY_TAGS.navPoint && PointEntry(after[|before|]) == Ok(NcxCanonEntry(items[|items| - 1]))
    ensures |after| == |items|
    ensures forall i :: 0 <= i < |items| ==>
      after[i].tag == DAISY_TAGS.navPoint && PointEntry(after[i]) == Ok(NcxCanonEntry(items[i]))
  {
    assert forall i :: 0 <= i < |before| ==> after[i] == before[i] && items[..|items| - 1][i] == items[i];
  }

  lemma {:induction false} EntryReadBack(b: Built, e: Entry)
    requires NestedWell(e) && NcxEntry(DAISY_TAGS, b, e).Ok?
    ensures var a := NcxEntry(DAISY_TAGS, b, e).value;
      && |a.points| == |b.points| + 1 && a.points[..|b.points|] == b.points
      && a.points[|b.points|].tag == DAISY_TAGS.navPoint
      && PointEntry(a.points[|b.points|]) == Ok(NcxCanonEntry(e))
    decreases e, 0
  {
    match e {
      case Link(href, title, uid) =>
        LeafStep(DAISY_TAGS, b, e);
        PointReadBack(uid.value, title, href, [], []);
      case Document(d) =>
        LeafStep(DAISY_TAGS, b, e);
        PointReadBack(d.id, d.title, d.fileName, [], []);
      case Nest(head, children) =>
        NestStep(DAISY_TAGS, b, head, children);
        HeadingSrcOf(DAISY_TAGS, b, head, children);
        var inner := NcxSection(DAISY_TAGS, children, b.uid + 1, Some(HeadHref(head))).value;
        SectionReadBack(children, b.uid + 1, Some(HeadHref(head)));
        var id := if head.DocHeading? then head.doc.id else SepId(b.uid);
        PointReadBack(id, HeadTitle(head), HeadingSrc(head, children), inner.points, NcxCanon(children));
    }
  }

  /** The navMap the reader finds in a written NCX is the one the writer appended. */
  lemma WrittenNavMap(template: Element, uid: string, title: string, toc: seq<Entry>)
    requires DefaultNs(template) == Some(DAISY_NS)
    requires Find(template.children, Clark(DAISY_NS, "navMap")).None?
    requires !UidMissing(toc)
    ensures NcxDocument(template, uid, title, toc).Ok?
    ensures NavMapOf(NcxDocument(template, uid, title, toc).value) ==
      Ok(NcxDocument(template, uid, title, toc).value.children[|template.children| + 2])
  {
    var ns := DefaultNs(template);
    var written := NcxDocument(template, uid, title, toc).value;
    var added := written.children[|template.children|..];
    assert written.children == template.children + added;
    assert added[0].tag != added[2].tag by { QNameApart(ns, "head", "navMap"); }
    assert added[1].tag != added[2].tag by { QNameApart(ns, "docTitle", "navMap"); }
    FindThird(template.children, added, Clark(DAISY_NS, "navMap"));
  }

  /** Appending three elements of which only the third has the tag finds that third one. */
  lemma FindThird(kids: seq<Element>, added: seq<Element>, tag: string)
    requires Find(kids, tag).None?
    requires |added| == 3 && added[2].tag == tag && added[0].tag != tag && added[1].tag != tag
    ensures Find(kids + added, tag) == Some(added[2])
  {
    FindAppend(kids, added, tag);
    assert added[1..][1..] == [added[2]];
  }

  /**
   * Reading back the NCX written for a table of contents gives its canonical form, when the
   * template declares the NCX namespace as its default and holds no navMap of its own, every
   * heading has entries under it, and every link has an id.
   */
  lemma NcxRoundTrip(template: Element, uid: string, title: string, toc: seq<Entry>)
    requires DefaultNs(template) == Some(DAISY_NS)
    requires Find(template.children, Clark(DAISY_NS, "navMap")).None?
    requires WellNested(toc) && !UidMissing(toc)
    ensures NcxDocument(template, uid, title, toc).Ok?
    ensures ParseNcx(NcxDocument(template, uid, title, toc).value) == Ok(NcxCanon(toc))
  {
    var ns := DefaultNs(template);
    NcxSectionFails(DAISY_TAGS, toc, 0, None);
    SectionReadBack(toc, 0, None);
    var points := NcxSection(DAISY_TAGS, toc, 0, None).value.points;
    ScanPoints(points, "", "", [], NcxCanon(toc));
    assert [] + NcxCanon(toc) == NcxCanon(toc);
    WrittenNavMap(template, uid, title, toc);
  }

  /**
   * Writing an empty table of contents and reading it back as the code is written gives a
   * lone link with empty href, title and id, not an empty list.
   */
  lemma EmptyTocReadBackAsWritten(template: Element, uid: string, title: string)
    requires DefaultNs(template) == Some(DAISY_NS)
    requires Find(template.children, Clark(DAISY_NS, "navMap")).None?
    ensures NcxDocument(template, uid, title, []).Ok?
    ensures ParseNcxAsWritten(NcxDocument(template, uid, title, []).value) == Ok(Lone(Link("", "", Some(""))))
    ensures ParseNcx(NcxDocument(template, uid, title, []).value) == Ok([])
  {
    WrittenNavMap(template, uid, title, []);
    var written := NcxDocument(template, uid, title, []).value;
    assert written.children[|template.children| + 2].children == [];
  }
}

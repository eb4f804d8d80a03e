/**
 * The element trees the library builds and reads with lxml, as values.
 * A tag is written in Clark notation, `{namespace}local`, or as a bare local name.
 */
module Xml {
  import opened Wrappers
  import opened Dicts

  newtype byte = b: int | 0 <= b < 256

  /**
   * An element as the XML parser reports it: its tag, the prefix it was written with,
   * the namespaces in scope (`None` keys the default namespace), its attributes, its text
   * (an absent text is the empty string) and its child elements in document order.
   */
  datatype Element = Element(
    tag: string,
    prefix: Option<string>,
    nsmap: Dict<Option<string>, string>,
    attrs: map<string, string>,
    text: string,
    children: seq<Element>)

  /** An archive member: an XML document, or other bytes. */
  datatype Blob = Bytes(data: seq<byte>) | Doc(root: Element)

  /** A new element without prefix or namespace declarations, as `etree.SubElement` makes it. */
  function El(tag: string, attrs: map<string, string>, text: string, children: seq<Element>): Element {
    Element(tag, None, [], attrs, text, children)
  }

  /** `parse_string`: only an XML document parses. */
  function Parse(b: Blob): (r: Result<Element>)
    ensures r.Ok? <==> b.Doc?
    ensures b.Doc? ==> r.value == b.root
  {
    match b
    case Doc(root) => Ok(root)
    case Bytes(_) => Err(XmlSyntaxError("not an XML document"))
  }

  /** `e.get(name, default)`. */
  function Attr(e: Element, name: string, default: string): string {
    if name in e.attrs then e.attrs[name] else default
  }

  /** `{ns}local`. */
  function Clark(ns: string, local: string): string {
    "{" + ns + "}" + local
  }

  /** The part of a tag after its last '}': `tag[tag.rfind('}') + 1:]`. */
  function LocalName(tag: string): (r: string)
    ensures '}' !in r
    ensures '}' !in tag ==> r == tag
  {
    if tag == [] then []
    else if tag[|tag| - 1] == '}' then []
    else LocalName(tag[..|tag| - 1]) + [tag[|tag| - 1]]
  }

  /** The default namespace `root` declares, if any. */
  function DefaultNs(root: Element): Option<string> {
    Get(root.nsmap, None)
  }

  /**
   * The name a child of `root` created with the bare name `local` has when the document is
   * read back: it inherits the default namespace the root declares.
   */
  function InNs(root: Element, local: string): string {
    QName(DefaultNs(root), local)
  }

  /** `local` in namespace `ns`, or the bare name when there is none. */
  function QName(ns: Option<string>, local: string): string {
    match ns
    case Some(uri) => Clark(uri, local)
    case None => local
  }

  /** Child `i` is the first with tag `tag`. */
  predicate FirstTagged(kids: seq<Element>, tag: string, i: int) {
    0 <= i < |kids| && kids[i].tag == tag && forall j :: 0 <= j < i ==> kids[j].tag != tag
  }

  /** `find(tag)`: the first child with that tag. */
  function Find(kids: seq<Element>, tag: string): (r: Option<Element>)
    ensures r.Some? <==> exists i :: 0 <= i < |kids| && kids[i].tag == tag
    ensures r.Some? ==> r.value.tag == tag && r.value in kids
    ensures r.Some? ==> exists i :: FirstTagged(kids, tag, i) && kids[i] == r.value
  {
    if kids == [] then None
    else if kids[0].tag == tag then
      assert FirstTagged(kids, tag, 0);
      Some(kids[0])
    else
      var r := Find(kids[1..], tag);
      FoundAfterFirst(kids, tag, r);
      r
  }

  /** What the search finds among the children after the first, when the first does not match. */
  lemma FoundAfterFirst(kids: seq<Element>, tag: string, r: Option<Element>)
    requires |kids| > 0 && kids[0].tag != tag
    requires r.Some? <==> exists i :: 0 <= i < |kids[1..]| && kids[1..][i].tag == tag
    requires r.Some? ==> r.value.tag == tag && r.value in kids[1..]
    requires r.Some? ==> exists i :: FirstTagged(kids[1..], tag, i) && kids[1..][i] == r.value
    ensures r.Some? <==> exists i :: 0 <= i < |kids| && kids[i].tag == tag
    ensures r.Some? ==> r.value.tag == tag && r.value in kids
    ensures r.Some? ==> exists i :: FirstTagged(kids, tag, i) && kids[i] == r.value
  {
    assert forall i :: 1 <= i < |kids| ==> kids[i] == kids[1..][i - 1];
    if r.Some? {
      var i :| FirstTagged(kids[1..], tag, i) && kids[1..][i] == r.value;
      assert FirstTagged(kids, tag, i + 1);
    }
  }

  /** Searching appended children: the first list is searched first. */
  lemma {:induction false} FindAppend(a: seq<Element>, b: seq<Element>, tag: string)
    ensures Find(a + b, tag) == if Find(a, tag).Some? then Find(a, tag) else Find(b, tag)
  {
    if a == [] {
      assert a + b == b;
    } else {
      assert (a + b)[0] == a[0] && (a + b)[1..] == a[1..] + b;
      FindAppend(a[1..], b, tag);
    }
  }

  /**
   * `find(name)` on a tree the HTML parser built, which keeps no namespaces: the first child
   * whose local name is `name`.
   */
  function FindLocal(kids: seq<Element>, name: string): (r: Option<Element>)
    ensures r.Some? <==> exists i :: 0 <= i < |kids| && LocalName(kids[i].tag) == name
    ensures r.Some? ==> LocalName(r.value.tag) == name && r.value in kids
    ensures r.Some? ==> exists i :: FirstLocal(kids, name, i) && kids[i] == r.value
  {
    if kids == [] then None
    else if LocalName(kids[0].tag) == name then
      assert FirstLocal(kids, name, 0);
      Some(kids[0])
    else
      var r := FindLocal(kids[1..], name);
      FoundLocalAfterFirst(kids, name, r);
      r
  }

  /** What the search by local name finds among the children after the first, when the first does not match. */
  lemma FoundLocalAfterFirst(kids: seq<Element>, name: string, r: Option<Element>)
    requires |kids| > 0 && LocalName(kids[0].tag) != name
    requires r.Some? <==> exists i :: 0 <= i < |kids[1..]| && LocalName(kids[1..][i].tag) == name
    requires r.Some? ==> LocalName(r.value.tag) == name && r.value in kids[1..]
    requires r.Some? ==> exists i :: FirstLocal(kids[1..], name, i) && kids[1..][i] == r.value
    ensures r.Some? <==> exists i :: 0 <= i < |kids| && LocalName(kids[i].tag) == name
    ensures r.Some? ==> LocalName(r.value.tag) == name && r.value in kids
    ensures r.Some? ==> exists i :: FirstLocal(kids, name, i) && kids[i] == r.value
  {
    assert forall i :: 1 <= i < |kids| ==> kids[i] == kids[1..][i - 1];
    if r.Some? {
      var i :| FirstLocal(kids[1..], name, i) && kids[1..][i] == r.value;
      assert FirstLocal(kids, name, i + 1);
    }
  }

  /** Child `i` is the first whose local name is `name`. */
  predicate FirstLocal(kids: seq<Element>, name: string, i: int) {
    0 <= i < |kids| && LocalName(kids[i].tag) == name && forall j :: 0 <= j < i ==> LocalName(kids[j].tag) != name
  }

  lemma {:induction false} LocalNameClark(ns: string, local: string)
    requires '}' !in local
    ensures LocalName(Clark(ns, local)) == local
    decreases |local|
  {
    if local == [] {
      assert Clark(ns, local) == "{" + ns + "}";
    } else {
      var init := local[..|local| - 1];
      assert Clark(ns, local)[..|Clark(ns, local)| - 1] == Clark(ns, init);
      assert '}' !in init by {
        assert forall i :: 0 <= i < |init| ==> init[i] == local[i];
      }
      LocalNameClark(ns, init);
      assert init + [local[|local| - 1]] == local;
    }
  }

  /** Whatever namespace a new child reads back in, its local name is the bare name it was given. */
  lemma LocalNameQName(ns: Option<string>, local: string)
    requires '}' !in local
    ensures LocalName(QName(ns, local)) == local
  {
    if ns.Some? {
      LocalNameClark(ns.value, local);
    }
  }

  // ---------------------------------------------------------------------------
  // Document order

  /** Every element of the tree in document order: each element before its descendants. */
  function Preorder(e: Element): (r: seq<Element>)
    ensures |r| > 0 && r[0] == e
    decreases e, 1
  {
    [e] + PreorderIn(e.children)
  }

  function PreorderIn(es: seq<Element>): seq<Element>
    decreases es, 0
  {
    if es == [] then [] else Preorder(es[0]) + PreorderIn(es[1..])
  }

  /** The elements of `es` that satisfy `p`, in order. */
  function Filter(p: Element -> bool, es: seq<Element>): (r: seq<Element>)
    ensures forall i :: 0 <= i < |r| ==> p(r[i]) && r[i] in es
    ensures forall i :: 0 <= i < |es| && p(es[i]) ==> es[i] in r
  {
    if es == [] then []
    else
      var rest := Filter(p, es[1..]);
      assert forall i :: 1 <= i < |es| ==> es[i] == es[1..][i - 1];
      (if p(es[0]) then [es[0]] else []) + rest
  }

  lemma {:induction false} FilterAppend(p: Element -> bool, a: seq<Element>, b: seq<Element>)
    ensures Filter(p, a + b) == Filter(p, a) + Filter(p, b)
  {
    if a == [] {
      assert a + b == b;
    } else {
      assert (a + b)[0] == a[0] && (a + b)[1..] == a[1..] + b;
      FilterAppend(p, a[1..], b);
    }
  }

  /** The first element of `es` that satisfies `p`. */
  function FirstOf(p: Element -> bool, es: seq<Element>): (r: Option<Element>)
    ensures r.Some? <==> exists i :: 0 <= i < |es| && p(es[i])
    ensures r.Some? ==> p(r.value) && r.value in es
  {
    if es == [] then None
    else if p(es[0]) then Some(es[0])
    else
      var r := FirstOf(p, es[1..]);
      assert forall i :: 1 <= i < |es| ==> es[i] == es[1..][i - 1];
      r
  }

  lemma {:induction false} FirstOfAppend(p: Element -> bool, a: seq<Element>, b: seq<Element>)
    ensures FirstOf(p, a + b) == if FirstOf(p, a).Some? then FirstOf(p, a) else FirstOf(p, b)
  {
    if a == [] {
      assert a + b == b;
    } else {
      assert (a + b)[0] == a[0] && (a + b)[1..] == a[1..] + b;
      FirstOfAppend(p, a[1..], b);
    }
  }
}

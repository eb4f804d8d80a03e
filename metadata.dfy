/**
 * The book's metadata store: namespace, then name, then the list of (value, attributes)
 * entries in the order they were added. Both levels are insertion-ordered dictionaries.
 */
module Metadata {
  import opened Wrappers
  import opened Dicts

  const XML_NS := "http://www.w3.org/XML/1998/namespace"
  const EPUB_NS := "http://www.idpf.org/2007/ops"
  const DAISY_NS := "http://www.daisy.org/z3986/2005/ncx/"
  const OPF_NS := "http://www.idpf.org/2007/opf"
  const CONTAINER_NS := "urn:oasis:names:tc:opendocument:xmlns:container"
  const DC_NS := "http://purl.org/dc/elements/1.1/"
  const XHTML_NS := "http://www.w3.org/1999/xhtml"

  /** The short names a caller may use for the well-known namespaces. */
  const NAMESPACES: map<string, string> := map[
    "XML" := XML_NS, "EPUB" := EPUB_NS, "DAISY" := DAISY_NS, "OPF" := OPF_NS,
    "CONTAINERNS" := CONTAINER_NS, "DC" := DC_NS, "XHTML" := XHTML_NS]

  /** A short name becomes its namespace; anything else, `None` included, is kept as it is. */
  function ResolveNs(ns: Option<string>): (r: Option<string>)
    ensures ns.Some? && ns.value in NAMESPACES ==> r == Some(NAMESPACES[ns.value])
    ensures (ns.None? || ns.value !in NAMESPACES) ==> r == ns
  {
    if ns.Some? && ns.value in NAMESPACES then Some(NAMESPACES[ns.value]) else ns
  }

  /** A resolved namespace resolves to itself: no namespace is also a short name. */
  lemma ResolveNsIdempotent(ns: Option<string>)
    ensures ResolveNs(ResolveNs(ns)) == ResolveNs(ns)
  {
    if ns.Some? && ns.value in NAMESPACES {
      assert NAMESPACES[ns.value] !in NAMESPACES;
    }
  }

  /** One metadata entry: the value and the attributes (`None` when the caller gave none). */
  datatype MetaEntry = MetaEntry(value: string, others: Option<map<string, string>>)

  type Names = Dict<string, seq<MetaEntry>>
  type Store = Dict<Option<string>, Names>

  /** `metadata[ns][name]` after alias resolution; `None` where Python raises KeyError. */
  function Lookup(s: Store, ns: Option<string>, name: string): Option<seq<MetaEntry>> {
    match Get(s, ResolveNs(ns))
    case None => None
    case Some(names) => Get(names, name)
  }

  /**
   * `get_metadata(ns, name)`: a namespace never added raises KeyError on the namespace, a name
   * never added under it KeyError on the name.
   */
  function GetMetadata(s: Store, ns: Option<string>, name: string): (r: Result<seq<MetaEntry>>)
    ensures r.Ok? <==> Lookup(s, ns, name).Some?
    ensures r.Ok? ==> r.value == Lookup(s, ns, name).value
    ensures Get(s, ResolveNs(ns)).None? ==> r == Err(KeyError(ResolveNs(ns)))
    ensures Get(s, ResolveNs(ns)).Some? && Lookup(s, ns, name).None? ==> r == Err(KeyError(Some(name)))
  {
    match Get(s, ResolveNs(ns))
    case None => Err(KeyError(ResolveNs(ns)))
    case Some(names) =>
      match Get(names, name)
      case None => Err(KeyError(Some(name)))
      case Some(values) => Ok(values)
  }

  /**
   * `add_metadata(ns, name, value, others)`: the entry goes at the end of the list for the
   * resolved namespace and name, which is created empty if missing; no other list changes.
   */
  function AddMeta(s: Store, ns: Option<string>, name: string, e: MetaEntry): (r: Store)
    ensures Lookup(r, ns, name) == Some(Lookup(s, ns, name).GetOr([]) + [e])
    ensures Lookup(s, ns, name).None? ==> Lookup(r, ns, name) == Some([e])
    ensures forall ns', name' :: ResolveNs(ns') != ResolveNs(ns) || name' != name ==>
      Lookup(r, ns', name') == Lookup(s, ns', name')
  {
    var key := ResolveNs(ns);
    var names := GetOr(s, key, []);
    var values := GetOr(names, name, []);
    assert Lookup(s, ns, name).None? ==> values + [e] == [e];
    Put(s, key, Put(names, name, values + [e]))
  }

  /**
   * `set_unique_metadata(ns, name, value, others)`: afterwards the list for the resolved
   * namespace and name is exactly the one entry; no other list changes.
   */
  function SetUniqueMeta(s: Store, ns: Option<string>, name: string, e: MetaEntry): (r: Store)
    ensures Lookup(r, ns, name) == Some([e])
    ensures forall ns', name' :: ResolveNs(ns') != ResolveNs(ns) || name' != name ==>
      Lookup(r, ns', name') == Lookup(s, ns', name')
  {
    var key := ResolveNs(ns);
    match Get(s, key)
    case Some(names) =>
      if name in Keys(names) then Put(s, key, Put(names, name, [e]))
      else
        assert Get(names, name).None?;
        AddMeta(s, ns, name, e)
    case None => AddMeta(s, ns, name, e)
  }

  /** Setting a unique entry twice leaves only the second; adding twice keeps both, in order. */
  lemma {:induction false} RepeatedWrites(s: Store, ns: Option<string>, name: string, a: MetaEntry, b: MetaEntry)
    ensures Lookup(SetUniqueMeta(SetUniqueMeta(s, ns, name, a), ns, name, b), ns, name) == Some([b])
    ensures Lookup(AddMeta(AddMeta(s, ns, name, a), ns, name, b), ns, name) ==
      Some(Lookup(s, ns, name).GetOr([]) + [a, b])
  {
    var once := AddMeta(s, ns, name, a);
    assert Lookup(once, ns, name).GetOr([]) == Lookup(s, ns, name).GetOr([]) + [a];
    assert Lookup(s, ns, name).GetOr([]) + [a] + [b] == Lookup(s, ns, name).GetOr([]) + [a, b];
  }
}

/**
 * The query document built by `montar_xml_consulta`: a `consSitNFe` element
 * of the NF-e namespace, schema version 4.00, with the three children
 * `tpAmb`, `xServ` and `chNFe` in that order.
 */
module QueryXml {
  import opened Wrappers

  /** Namespace of the NF-e schema. */
  const NfeNamespace: string := "http://www.portalfiscal.inf.br/nfe"

  /** The value of the `versao` attribute of the query. */
  const QueryVersion: string := "4.00"

  /** The service requested in `xServ`. */
  const ServiceName: string := "CONSULTAR"

  /** A namespace-qualified tag, lxml's `{namespace}local`. */
  datatype QName = QName(namespace: string, local: string)

  datatype Attribute = Attribute(name: string, value: string)

  /**
   * An element as lxml holds it: tag, the namespace declarations made on this
   * element (prefix `None` is the default namespace), attributes in order,
   * text (`None` when unset) and children in order.
   */
  datatype Element = Element(
    tag: QName,
    nsmap: map<Option<string>, string>,
    attributes: seq<Attribute>,
    text: Option<string>,
    children: seq<Element>)

  /** What a query carries: the access key and the environment code (`tpAmb`). */
  datatype QueryFields = QueryFields(chave: string, tpAmb: string)

  /** `etree.SubElement(parent, "{ns}local").text = text`. */
  function Leaf(local: string, text: string): Element {
    Element(QName(NfeNamespace, local), map[], [], Some(text), [])
  }

  /** `montar_xml_consulta(chave, tp_amb)`. */
  function BuildQuery(chave: string, tpAmb: string): (e: Element)
    ensures e.tag == QName(NfeNamespace, "consSitNFe")
    ensures e.nsmap == map[None := NfeNamespace]
    ensures e.attributes == [Attribute("versao", QueryVersion)]
    ensures |e.children| == 3
    ensures e.children[0].tag.local == "tpAmb" && e.children[0].text == Some(tpAmb)
    ensures e.children[1].tag.local == "xServ" && e.children[1].text == Some(ServiceName)
    ensures e.children[2].tag.local == "chNFe" && e.children[2].text == Some(chave)
    ensures forall i :: 0 <= i < |e.children| ==>
              e.children[i].tag.namespace == NfeNamespace && e.children[i].children == []
  {
    var cons := Element(QName(NfeNamespace, "consSitNFe"), map[None := NfeNamespace],
                        [Attribute("versao", QueryVersion)], None, []);
    cons.(children := [Leaf("tpAmb", tpAmb), Leaf("xServ", ServiceName), Leaf("chNFe", chave)])
  }

  /** `e` is a text-only child of the NF-e namespace called `local`. */
  predicate IsLeaf(e: Element, local: string) {
    e.tag == QName(NfeNamespace, local) && e.nsmap == map[] && e.attributes == []
    && e.text.Some? && e.children == []
  }

  /**
   * Reads the fields back from a status-query document, or `None` when `e`
   * does not have exactly the shape of one.
   */
  function ReadQuery(e: Element): Option<QueryFields> {
    if && e.tag == QName(NfeNamespace, "consSitNFe")
       && e.nsmap == map[None := NfeNamespace]
       && e.attributes == [Attribute("versao", QueryVersion)]
       && e.text == None
       && |e.children| == 3
       && IsLeaf(e.children[0], "tpAmb")
       && IsLeaf(e.children[1], "xServ") && e.children[1].text == Some(ServiceName)
       && IsLeaf(e.children[2], "chNFe")
    then Some(QueryFields(e.children[2].text.value, e.children[0].text.value))
    else None
  }

  /**
   * The text of the first child whose local name is `local`, in any
   * namespace (`""` when it has none), as lxml's `e.findtext("{*}" + local)`;
   * `None` when there is no such child.
   */
  function ChildText(e: Element, local: string): (r: Option<string>)
    ensures r.None? <==> forall i :: 0 <= i < |e.children| ==> e.children[i].tag.local != local
    ensures r.Some? ==> exists i :: FirstWithLocal(e.children, local, i)
                                    && r.value == e.children[i].text.GetOr("")
  {
    FirstText(e.children, local)
  }

  /** `i` is the position of the first element of `children` called `local`. */
  predicate FirstWithLocal(children: seq<Element>, local: string, i: int) {
    0 <= i < |children| && children[i].tag.local == local
    && forall j :: 0 <= j < i ==> children[j].tag.local != local
  }

  function FirstText(children: seq<Element>, local: string): (r: Option<string>)
    ensures r.None? <==> forall i :: 0 <= i < |children| ==> children[i].tag.local != local
    ensures r.Some? ==> exists i :: FirstWithLocal(children, local, i)
                                    && r.value == children[i].text.GetOr("")
  {
    if children == [] then None
    else if children[0].tag.local == local then
      assert FirstWithLocal(children, local, 0);
      Some(children[0].text.GetOr(""))
    else
      var r := FirstText(children[1..], local);
      assert forall i :: 1 <= i < |children| ==> children[i] == children[1..][i - 1];
      assert r.Some? ==> exists i :: FirstWithLocal(children, local, i)
                                     && r.value == children[i].text.GetOr("") by {
        if r.Some? {
          var i :| FirstWithLocal(children[1..], local, i) && r.value == children[1..][i].text.GetOr("");
          assert FirstWithLocal(children, local, i + 1);
        }
      }
      r
  }

  /** Building and then reading a query gives back the key and the environment. */
  lemma ReadBuildQuery(chave: string, tpAmb: string)
    ensures ReadQuery(BuildQuery(chave, tpAmb)) == Some(QueryFields(chave, tpAmb))
  {
  }

  /** Every document that reads as a query is the one `montar_xml_consulta` builds. */
  lemma BuildReadQuery(e: Element)
    requires ReadQuery(e).Some?
    ensures BuildQuery(ReadQuery(e).value.chave, ReadQuery(e).value.tpAmb) == e
  {
    var q := BuildQuery(ReadQuery(e).value.chave, ReadQuery(e).value.tpAmb);
    assert q.children[0] == e.children[0];
    assert q.children[1] == e.children[1];
    assert q.children[2] == e.children[2];
    assert q.children == e.children;
  }

  /** The three fields hold the environment code, the service name and the key. */
  lemma QueryFieldTexts(chave: string, tpAmb: string)
    ensures ChildText(BuildQuery(chave, tpAmb), "tpAmb") == Some(tpAmb)
    ensures ChildText(BuildQuery(chave, tpAmb), "xServ") == Some(ServiceName)
    ensures ChildText(BuildQuery(chave, tpAmb), "chNFe") == Some(chave)
    ensures ChildText(BuildQuery(chave, tpAmb), "cStat") == None
  {
    var cs := BuildQuery(chave, tpAmb).children;
    assert cs[1..][1..] == [cs[2]];
  }
}

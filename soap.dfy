/**
 * The SOAP 1.2 envelope of `envelope_soap`: an f-string template with the
 * UF code and the schema version in the header and the query document in the
 * body, inserted without any escaping, and the whole text stripped.
 */
module Soap {
  import opened Text

  const DefaultSchemaVersion: string := "4.00"

  const EnvelopeStartTag: string := "<soap12:Envelope"
  const SoapNamespaceDecl: string := " xmlns:soap12=\"http://www.w3.org/2003/05/soap-envelope\""
  const NfeNamespaceDecl: string := "xmlns:nfe=\"http://www.portalfiscal.inf.br/nfe/wsdl/NFeConsultaProtocolo4\">"
  const HeaderOpen: string := "<soap12:Header>"
  const CabecOpen: string := "<nfe:nfeCabecMsg>"
  const CufOpen: string := "<nfe:cUF>"
  const CufClose: string := "</nfe:cUF>"
  const VersaoOpen: string := "<nfe:versaoDados>"
  const VersaoClose: string := "</nfe:versaoDados>"
  const CabecClose: string := "</nfe:nfeCabecMsg>"
  const HeaderClose: string := "</soap12:Header>"
  const BodyOpen: string := "<soap12:Body>"
  const DadosOpen: string := "<nfe:nfeDadosMsg>"
  const DadosClose: string := "</nfe:nfeDadosMsg>"
  const BodyClose: string := "</soap12:Body>"
  const EnvelopeClose: string := "</soap12:Envelope>"

  /** A line break followed by `n` spaces of indentation. */
  function Line(n: nat): (r: string)
    ensures |r| == n + 1 && AllSpace(r)
  {
    "\n" + seq(n, _ => ' ')
  }

  // The template, line by line, with the indentation the source file has.

  /** Lines 55 to 60 of the template: the SOAP header. */
  function HeaderBlock(uf: string, versao: string): string {
    HeaderOpen
    + Line(12) + CabecOpen
    + Line(16) + (CufOpen + uf + CufClose)
    + Line(16) + (VersaoOpen + versao + VersaoClose)
    + Line(12) + CabecClose
    + Line(8) + HeaderClose
  }

  /** Lines 61 to 65 of the template: the SOAP body. */
  function BodyBlock(xml: string): string {
    BodyOpen
    + Line(12) + DadosOpen
    + Line(16) + xml
    + Line(12) + DadosClose
    + Line(8) + BodyClose
  }

  /** Lines 53 to 66 of the template without the indentation of line 53. */
  function EnvelopeText(xml: string, uf: string, versao: string): string {
    EnvelopeStartTag + SoapNamespaceDecl
    + Line(21) + NfeNamespaceDecl
    + Line(8) + HeaderBlock(uf, versao)
    + Line(8) + BodyBlock(xml)
    + Line(4) + EnvelopeClose
  }

  /** The f-string itself, before `.strip()`: it opens and closes with a line break and four spaces. */
  function Template(xml: string, uf: string, versao: string): string {
    Line(4) + EnvelopeText(xml, uf, versao) + Line(4)
  }

  /** `envelope_soap(xml_str, uf, versao)`. */
  function Envelope(xml: string, uf: string, versao: string := DefaultSchemaVersion): (r: string)
    ensures Trimmed(r)
  {
    Strip(Template(xml, uf, versao))
  }

  // Occurrences in concatenations.

  lemma AtEnd(a: string, b: string)
    ensures OccursAt(b, a + b, |a|)
  {
    assert (a + b)[|a|..|a| + |b|] == b;
  }

  lemma Extend(x: string, a: string, i: int, b: string)
    requires OccursAt(x, a, i)
    ensures OccursAt(x, a + b, i)
  {
    assert (a + b)[i..i + |x|] == a[i..i + |x|];
  }

  lemma Compose(x: string, y: string, i: int, z: string, j: int)
    requires OccursAt(x, y, i) && OccursAt(y, z, j)
    ensures OccursAt(x, z, j + i)
  {
    forall k | 0 <= k < |x| ensures z[j + i + k] == x[k] {
      assert z[j + i + k] == z[j..j + |y|][i + k] == y[i + k];
      assert y[i + k] == y[i..i + |x|][k];
    }
    assert z[j + i..j + i + |x|] == x;
  }

  lemma SpaceGap(r: string, piece: string, i: int)
    requires OccursAt(piece, r, i) && AllSpace(piece)
    ensures AllSpace(r[i..i + |piece|])
  {
  }

  /**
   * The header of `r` opens at `h`, holds the UF code at `c` and the schema
   * version after it at `v`, and closes at `e`.
   */
  ghost predicate HeaderPlaced(r: string, uf: string, versao: string, h: int, c: int, v: int, e: int) {
    && OccursAt(HeaderOpen, r, h)
    && h + |HeaderOpen| <= c && OccursAt(CufOpen + uf + CufClose, r, c)
    && c + |CufOpen + uf + CufClose| <= v && OccursAt(VersaoOpen + versao + VersaoClose, r, v)
    && v + |VersaoOpen + versao + VersaoClose| <= e && OccursAt(HeaderClose, r, e)
  }

  /**
   * The body of `r` opens at `b`; its `nfeDadosMsg` element opens at `m`,
   * holds the query at `x` with only whitespace around it, and closes at `y`.
   */
  ghost predicate BodyPlaced(r: string, xml: string, b: int, m: int, x: int, y: int) {
    && OccursAt(BodyOpen, r, b)
    && b + |BodyOpen| <= m && OccursAt(DadosOpen, r, m)
    && m + |DadosOpen| <= x && OccursAt(xml, r, x) && AllSpace(r[m + |DadosOpen|..x])
    && x + |xml| <= y && OccursAt(DadosClose, r, y) && AllSpace(r[x + |xml|..y])
  }

  /** The header, placed at `h`..`e`, comes before the body, placed from `b` on. */
  ghost predicate Placed(r: string, xml: string, uf: string, versao: string,
                         h: int, c: int, v: int, e: int, b: int, m: int, x: int, y: int)
  {
    HeaderPlaced(r, uf, versao, h, c, v, e) && e + |HeaderClose| <= b && BodyPlaced(r, xml, b, m, x, y)
  }

  lemma HeaderInside(uf: string, versao: string) returns (c: int, v: int, e: int)
    ensures HeaderPlaced(HeaderBlock(uf, versao), uf, versao, 0, c, v, e)
    ensures e + |HeaderClose| == |HeaderBlock(uf, versao)|
  {
    var cuf := CufOpen + uf + CufClose;
    var ver := VersaoOpen + versao + VersaoClose;
    var p1 := HeaderOpen;
    var p2 := p1 + Line(12);
    var p3 := p2 + CabecOpen;
    var p4 := p3 + Line(16);
    var p5 := p4 + cuf;
    var p6 := p5 + Line(16);
    var p7 := p6 + ver;
    var p8 := p7 + Line(12);
    var p9 := p8 + CabecClose;
    var p10 := p9 + Line(8);
    var p11 := p10 + HeaderClose;
    assert p11 == HeaderBlock(uf, versao);
    AtEnd([], p1);
    assert [] + p1 == p1;
    Extend(p1, p1, 0, Line(12));
    Extend(p1, p2, 0, CabecOpen);
    Extend(p1, p3, 0, Line(16));
    Extend(p1, p4, 0, cuf);
    Extend(p1, p5, 0, Line(16));
    Extend(p1, p6, 0, ver);
    Extend(p1, p7, 0, Line(12));
    Extend(p1, p8, 0, CabecClose);
    Extend(p1, p9, 0, Line(8));
    Extend(p1, p10, 0, HeaderClose);
    AtEnd(p4, cuf);
    Extend(cuf, p5, |p4|, Line(16));
    Extend(cuf, p6, |p4|, ver);
    Extend(cuf, p7, |p4|, Line(12));
    Extend(cuf, p8, |p4|, CabecClose);
    Extend(cuf, p9, |p4|, Line(8));
    Extend(cuf, p10, |p4|, HeaderClose);
    AtEnd(p6, ver);
    Extend(ver, p7, |p6|, Line(12));
    Extend(ver, p8, |p6|, CabecClose);
    Extend(ver, p9, |p6|, Line(8));
    Extend(ver, p10, |p6|, HeaderClose);
    AtEnd(p10, HeaderClose);
    c, v, e := |p4|, |p6|, |p10|;
  }

  lemma BodyInside(xml: string) returns (m: int, x: int, y: int)
    ensures BodyPlaced(BodyBlock(xml), xml, 0, m, x, y)
  {
    var p1 := BodyOpen;
    var p2 := p1 + Line(12);
    var p3 := p2 + DadosOpen;
    var p4 := p3 + Line(16);
    var p5 := p4 + xml;
    var p6 := p5 + Line(12);
    var p7 := p6 + DadosClose;
    var p8 := p7 + Line(8);
    var p9 := p8 + BodyClose;
    assert p9 == BodyBlock(xml);
    AtEnd([], p1);
    assert [] + p1 == p1;
    Extend(p1, p1, 0, Line(12));
    Extend(p1, p2, 0, DadosOpen);
    Extend(p1, p3, 0, Line(16));
    Extend(p1, p4, 0, xml);
    Extend(p1, p5, 0, Line(12));
    Extend(p1, p6, 0, DadosClose);
    Extend(p1, p7, 0, Line(8));
    Extend(p1, p8, 0, BodyClose);
    AtEnd(p2, DadosOpen);
    Extend(DadosOpen, p3, |p2|, Line(16));
    Extend(DadosOpen, p4, |p2|, xml);
    Extend(DadosOpen, p5, |p2|, Line(12));
    Extend(DadosOpen, p6, |p2|, DadosClose);
    Extend(DadosOpen, p7, |p2|, Line(8));
    Extend(DadosOpen, p8, |p2|, BodyClose);
    AtEnd(p3, Line(16));
    Extend(Line(16), p4, |p3|, xml);
    Extend(Line(16), p5, |p3|, Line(12));
    Extend(Line(16), p6, |p3|, DadosClose);
    Extend(Line(16), p7, |p3|, Line(8));
    Extend(Line(16), p8, |p3|, BodyClose);
    SpaceGap(p9, Line(16), |p3|);
    AtEnd(p4, xml);
    Extend(xml, p5, |p4|, Line(12));
    Extend(xml, p6, |p4|, DadosClose);
    Extend(xml, p7, |p4|, Line(8));
    Extend(xml, p8, |p4|, BodyClose);
    AtEnd(p5, Line(12));
    Extend(Line(12), p6, |p5|, DadosClose);
    Extend(Line(12), p7, |p5|, Line(8));
    Extend(Line(12), p8, |p5|, BodyClose);
    SpaceGap(p9, Line(12), |p5|);
    AtEnd(p6, DadosClose);
    Extend(DadosClose, p7, |p6|, Line(8));
    Extend(DadosClose, p8, |p6|, BodyClose);
    m, x, y := |p2|, |p4|, |p6|;
  }

  lemma SliceInside(y: string, z: string, j: int, a: int, b: int)
    requires OccursAt(y, z, j) && 0 <= a <= b <= |y|
    ensures z[j + a..j + b] == y[a..b]
  {
    forall k | 0 <= k < b - a ensures z[j + a..j + b][k] == y[a..b][k] {
      assert z[j + a + k] == z[j..j + |y|][a + k];
    }
  }

  lemma ShiftHeader(hb: string, r: string, j: int, uf: string, versao: string, c: int, v: int, e: int)
    requires HeaderPlaced(hb, uf, versao, 0, c, v, e) && OccursAt(hb, r, j)
    ensures HeaderPlaced(r, uf, versao, j, j + c, j + v, j + e)
  {
    Compose(HeaderOpen, hb, 0, r, j);
    Compose(CufOpen + uf + CufClose, hb, c, r, j);
    Compose(VersaoOpen + versao + VersaoClose, hb, v, r, j);
    Compose(HeaderClose, hb, e, r, j);
  }

  lemma ShiftBody(bb: string, r: string, j: int, xml: string, m: int, x: int, y: int)
    requires BodyPlaced(bb, xml, 0, m, x, y) && OccursAt(bb, r, j)
    ensures BodyPlaced(r, xml, j, j + m, j + x, j + y)
  {
    Compose(BodyOpen, bb, 0, r, j);
    Compose(DadosOpen, bb, m, r, j);
    Compose(xml, bb, x, r, j);
    Compose(DadosClose, bb, y, r, j);
    SliceInside(bb, r, j, m + |DadosOpen|, x);
    SliceInside(bb, r, j, x + |xml|, y);
  }

  /** Where the start tag, the header, the body and the end tag sit in the envelope text. */
  lemma TextFrame(xml: string, uf: string, versao: string) returns (h: nat, b: nat)
    ensures var q := EnvelopeText(xml, uf, versao);
      && OccursAt(EnvelopeStartTag, q, 0)
      && OccursAt(EnvelopeClose, q, |q| - |EnvelopeClose|)
      && OccursAt(HeaderBlock(uf, versao), q, h)
      && h + |HeaderBlock(uf, versao)| <= b
      && OccursAt(BodyBlock(xml), q, b)
  {
    var hb, bb := HeaderBlock(uf, versao), BodyBlock(xml);
    var q1 := EnvelopeStartTag;
    var q2 := q1 + SoapNamespaceDecl;
    var q3 := q2 + Line(21);
    var q4 := q3 + NfeNamespaceDecl;
    var q5 := q4 + Line(8);
    var q6 := q5 + hb;
    var q7 := q6 + Line(8);
    var q8 := q7 + bb;
    var q9 := q8 + Line(4);
    var q10 := q9 + EnvelopeClose;
    assert q10 == EnvelopeText(xml, uf, versao);
    AtEnd([], q1);
    assert [] + q1 == q1;
    Extend(q1, q1, 0, SoapNamespaceDecl);
    Extend(q1, q2, 0, Line(21));
    Extend(q1, q3, 0, NfeNamespaceDecl);
    Extend(q1, q4, 0, Line(8));
    Extend(q1, q5, 0, hb);
    Extend(q1, q6, 0, Line(8));
    Extend(q1, q7, 0, bb);
    Extend(q1, q8, 0, Line(4));
    Extend(q1, q9, 0, EnvelopeClose);
    AtEnd(q5, hb);
    Extend(hb, q6, |q5|, Line(8));
    Extend(hb, q7, |q5|, bb);
    Extend(hb, q8, |q5|, Line(4));
    Extend(hb, q9, |q5|, EnvelopeClose);
    AtEnd(q7, bb);
    Extend(bb, q8, |q7|, Line(4));
    Extend(bb, q9, |q7|, EnvelopeClose);
    AtEnd(q9, EnvelopeClose);
    h, b := |q5|, |q7|;
  }

  /** Stripping removes exactly the indentation around the envelope text. */
  lemma EnvelopeIsText(xml: string, uf: string, versao: string)
    ensures Envelope(xml, uf, versao) == EnvelopeText(xml, uf, versao)
  {
    var q := EnvelopeText(xml, uf, versao);
    var _, _ := TextFrame(xml, uf, versao);
    assert q[0] == q[0..|EnvelopeStartTag|][0];
    var k := |q| - |EnvelopeClose|;
    assert q[|q| - 1] == q[k..k + |EnvelopeClose|][|EnvelopeClose| - 1];
    StripPadded(Line(4), q, Line(4));
  }

  /**
   * `r` starts with `<soap12:Envelope` and ends with `</soap12:Envelope>`;
   * the UF code and the version are in its header, and the query is,
   * verbatim, the content of `nfeDadosMsg` in the body that follows the header.
   */
  ghost predicate WellPlaced(r: string, xml: string, uf: string, versao: string) {
    && OccursAt(EnvelopeStartTag, r, 0)
    && OccursAt(EnvelopeClose, r, |r| - |EnvelopeClose|)
    && exists h, c, v, e, b, m, x, y :: Placed(r, xml, uf, versao, h, c, v, e, b, m, x, y)
  }

  /** The envelope has that shape whatever the three inputs contain: nothing is escaped. */
  lemma EnvelopeLayout(xml: string, uf: string, versao: string)
    ensures WellPlaced(Envelope(xml, uf, versao), xml, uf, versao)
  {
    EnvelopeIsText(xml, uf, versao);
    TextLayout(xml, uf, versao);
  }

  lemma TextLayout(xml: string, uf: string, versao: string)
    ensures WellPlaced(EnvelopeText(xml, uf, versao), xml, uf, versao)
  {
    var r := EnvelopeText(xml, uf, versao);
    var h, b := TextFrame(xml, uf, versao);
    var hb, bb := HeaderBlock(uf, versao), BodyBlock(xml);
    var c, v, e := HeaderInside(uf, versao);
    ShiftHeader(hb, r, h, uf, versao, c, v, e);
    var m, x, y := BodyInside(xml);
    ShiftBody(bb, r, b, xml, m, x, y);
    assert Placed(r, xml, uf, versao, h, h + c, h + v, h + e, b, b + m, b + x, b + y);
  }

  /** `main` passes no version, so the header carries schema version 4.00. */
  lemma DefaultVersionInHeader(xml: string, uf: string)
    ensures exists h, c, v, e :: HeaderPlaced(Envelope(xml, uf), uf, "4.00", h, c, v, e)
  {
    EnvelopeLayout(xml, uf, DefaultSchemaVersion);
    var r := Envelope(xml, uf);
    assert WellPlaced(r, xml, uf, DefaultSchemaVersion);
    var h, c, v, e, b, m, x, y :| Placed(r, xml, uf, DefaultSchemaVersion, h, c, v, e, b, m, x, y);
    assert HeaderPlaced(r, uf, "4.00", h, c, v, e);
  }
}

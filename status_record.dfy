/**
 * `extrair_status`: the status record read from the web service's reply.
 * Four fixed fields are looked up; the text of each one found with non-empty
 * text is stripped and kept, and the others are left out of the record.
 * The XPath lookup on the parsed reply is a parameter of the model.
 */
module StatusRecord {
  import opened Wrappers
  import opened Text
  import opened QueryXml

  /** The record's keys, in the order of the dictionary literal. */
  const FieldNames: seq<string> := ["cStat", "xMotivo", "nProt", "dhRecbto"]

  /** The XPath each field is looked up by, under the `nfe` namespace prefix. */
  function FieldPath(name: string): string {
    ".//nfe:" + name
  }

  /** A status record: key/value pairs in insertion order, as a Python dict keeps them. */
  type Record = seq<(string, string)>

  /**
   * `find_text(xpath)`: `None` when `root.find` finds nothing or the element
   * has no text or empty text; otherwise the stripped text.
   */
  function FindText(find: string -> Option<Element>, xpath: string): (r: Option<string>)
    ensures r.Some? <==> find(xpath).Some? && find(xpath).value.text.Some?
                         && find(xpath).value.text.value != ""
    ensures r.Some? ==> r.value == Strip(find(xpath).value.text.value)
  {
    match find(xpath)
    case None => None
    case Some(el) =>
      if el.text.Some? && el.text.value != "" then Some(Strip(el.text.value)) else None
  }

  /** The dictionary literal `dados`: each name with the result of its lookup. */
  function Lookups(find: string -> Option<Element>, names: seq<string>): (fs: seq<(string, Option<string>)>)
    ensures |fs| == |names|
    ensures forall k :: 0 <= k < |names| ==> fs[k] == (names[k], FindText(find, FieldPath(names[k])))
  {
    seq(|names|, k requires 0 <= k < |names| => (names[k], FindText(find, FieldPath(names[k]))))
  }

  /** The comprehension `{k: v for k, v in dados.items() if v is not None}`. */
  function KeepPresent(fs: seq<(string, Option<string>)>): (rec: Record)
    ensures |rec| <= |fs|
  {
    if fs == [] then []
    else (if fs[0].1.Some? then [(fs[0].0, fs[0].1.value)] else []) + KeepPresent(fs[1..])
  }

  /** `extrair_status` on a reply whose XPath lookup is `find`. */
  function ExtractStatus(find: string -> Option<Element>): (rec: Record)
    ensures |rec| <= |FieldNames|
  {
    KeepPresent(Lookups(find, FieldNames))
  }

  /** `rec.get(key)`: the value of the first pair with that key. */
  function Get(rec: Record, key: string): Option<string> {
    if rec == [] then None else if rec[0].0 == key then Some(rec[0].1) else Get(rec[1..], key)
  }

  /** The same, on the dictionary before filtering, where a value may be `None`. */
  function GetOpt(fs: seq<(string, Option<string>)>, key: string): Option<string> {
    if fs == [] then None else if fs[0].0 == key then fs[0].1 else GetOpt(fs[1..], key)
  }

  function Keys<V>(s: seq<(string, V)>): (ks: seq<string>)
    ensures |ks| == |s| && forall k :: 0 <= k < |s| ==> ks[k] == s[k].0
  {
    seq(|s|, k requires 0 <= k < |s| => s[k].0)
  }

  predicate Distinct(ks: seq<string>) {
    forall i, j :: 0 <= i < |ks| && 0 <= j < |ks| && i != j ==> ks[i] != ks[j]
  }

  /** Filtering keeps exactly the pairs whose value is present, in order. */
  lemma {:induction false} KeepPresentKeys(fs: seq<(string, Option<string>)>)
    ensures IsSubsequence(Keys(KeepPresent(fs)), Keys(fs))
    ensures forall k :: 0 <= k < |KeepPresent(fs)| ==>
              (KeepPresent(fs)[k].0, Some(KeepPresent(fs)[k].1)) in fs
  {
    if fs != [] {
      KeepPresentKeys(fs[1..]);
      var rest := KeepPresent(fs[1..]);
      assert Keys(fs)[1..] == Keys(fs[1..]);
      if fs[0].1.Some? {
        var rec := KeepPresent(fs);
        assert rec == [(fs[0].0, fs[0].1.value)] + rest;
        assert Keys(rec)[1..] == Keys(rest);
        forall k | 0 <= k < |rec| ensures (rec[k].0, Some(rec[k].1)) in fs {
          if k > 0 { assert rec[k] == rest[k - 1]; }
        }
      } else {
        assert KeepPresent(fs) == rest;
        SubsequenceSkip(Keys(rest), Keys(fs));
      }
    }
  }

  /** Every element of a subsequence occurs in the sequence. */
  lemma {:induction false} SubsequenceMembers(a: seq<string>, b: seq<string>)
    requires IsSubsequence(a, b)
    ensures forall k :: 0 <= k < |a| ==> a[k] in b
    decreases |b|
  {
    if a != [] {
      if a[0] == b[0] && IsSubsequence(a[1..], b[1..]) {
        SubsequenceMembers(a[1..], b[1..]);
        forall k | 0 <= k < |a| ensures a[k] in b {
          if k > 0 { assert a[k] == a[1..][k - 1]; }
        }
      } else {
        SubsequenceMembers(a, b[1..]);
      }
    }
  }

  /** A subsequence of a sequence without repeats has no repeats. */
  lemma {:induction false} SubsequenceDistinct(a: seq<string>, b: seq<string>)
    requires IsSubsequence(a, b) && Distinct(b)
    ensures Distinct(a)
    decreases |b|
  {
    if a != [] {
      var b' := b[1..];
      assert Distinct(b') by {
        forall i, j | 0 <= i < |b'| && 0 <= j < |b'| && i != j ensures b'[i] != b'[j] {
          assert b[i + 1] != b[j + 1];
        }
      }
      if a[0] == b[0] && IsSubsequence(a[1..], b') {
        SubsequenceDistinct(a[1..], b');
        SubsequenceMembers(a[1..], b');
        assert b[0] !in b' by {
          forall j | 0 <= j < |b'| ensures b'[j] != b[0] {
            assert b[j + 1] != b[0];
          }
        }
        forall i, j | 0 <= i < |a| && 0 <= j < |a| && i != j ensures a[i] != a[j] {
          if i > 0 && j > 0 {
            assert a[i] == a[1..][i - 1] && a[j] == a[1..][j - 1];
          } else if i > 0 {
            assert a[i] == a[1..][i - 1];
          } else {
            assert a[j] == a[1..][j - 1];
          }
        }
      } else {
        SubsequenceDistinct(a, b');
      }
    }
  }

  lemma SubsequenceSkip(a: seq<string>, b: seq<string>)
    requires b != [] && IsSubsequence(a, b[1..])
    ensures IsSubsequence(a, b)
  {
  }

  /** With distinct keys, a key's value after filtering is its value before. */
  lemma {:induction false} GetKeepPresent(fs: seq<(string, Option<string>)>, key: string)
    requires Distinct(Keys(fs))
    ensures Get(KeepPresent(fs), key) == GetOpt(fs, key)
  {
    if fs != [] {
      var rest := fs[1..];
      assert Distinct(Keys(rest)) by {
        forall i, j | 0 <= i < |rest| && 0 <= j < |rest| && i != j ensures Keys(rest)[i] != Keys(rest)[j] {
          assert Keys(fs)[i + 1] != Keys(fs)[j + 1];
        }
      }
      GetKeepPresent(rest, key);
      var kept := KeepPresent(rest);
      if fs[0].1.Some? {
        assert KeepPresent(fs) == [(fs[0].0, fs[0].1.value)] + kept;
        assert ([(fs[0].0, fs[0].1.value)] + kept)[1..] == kept;
      } else {
        assert KeepPresent(fs) == kept;
      }
      if fs[0].0 == key && fs[0].1.None? {
        forall k | 0 <= k < |rest| ensures rest[k].0 != key {
          assert Keys(fs)[k + 1] != Keys(fs)[0];
        }
        NotInKeys(rest, key);
        KeepPresentKeys(rest);
        forall k | 0 <= k < |kept| ensures kept[k].0 != key {
          var p := kept[k];
          assert (p.0, Some(p.1)) in rest;
        }
        GetAbsent(kept, key);
      }
    }
  }

  lemma {:induction false} NotInKeys(fs: seq<(string, Option<string>)>, key: string)
    requires forall k :: 0 <= k < |fs| ==> fs[k].0 != key
    ensures GetOpt(fs, key) == None
  {
    if fs != [] {
      NotInKeys(fs[1..], key);
    }
  }

  lemma {:induction false} GetAbsent(rec: Record, key: string)
    requires forall k :: 0 <= k < |rec| ==> rec[k].0 != key
    ensures Get(rec, key) == None
  {
    if rec != [] {
      GetAbsent(rec[1..], key);
    }
  }

  /** In the unfiltered dictionary each name maps to its own lookup. */
  lemma {:induction false} GetOptLookups(find: string -> Option<Element>, names: seq<string>, k: nat)
    requires k < |names|
    requires forall j :: 0 <= j < k ==> names[j] != names[k]
    ensures GetOpt(Lookups(find, names), names[k]) == FindText(find, FieldPath(names[k]))
  {
    var fs := Lookups(find, names);
    if k > 0 {
      assert fs[1..] == Lookups(find, names[1..]);
      GetOptLookups(find, names[1..], k - 1);
    }
  }

  lemma FieldNamesDistinct()
    ensures Distinct(FieldNames)
  {
  }

  /**
   * A field is in the record exactly when its element is found with
   * non-empty text, and its value is then that text, stripped.
   */
  lemma ExtractStatusFields(find: string -> Option<Element>, k: nat)
    requires k < |FieldNames|
    ensures Get(ExtractStatus(find), FieldNames[k]) == FindText(find, FieldPath(FieldNames[k]))
  {
    var fs := Lookups(find, FieldNames);
    FieldNamesDistinct();
    assert Keys(fs) == FieldNames;
    GetKeepPresent(fs, FieldNames[k]);
    GetOptLookups(find, FieldNames, k);
  }

  /** The record's keys are among the four field names, once each, in their order. */
  lemma ExtractStatusKeys(find: string -> Option<Element>)
    ensures IsSubsequence(Keys(ExtractStatus(find)), FieldNames)
    ensures Distinct(Keys(ExtractStatus(find)))
    ensures forall k :: 0 <= k < |ExtractStatus(find)| ==> ExtractStatus(find)[k].0 in FieldNames
  {
    var fs := Lookups(find, FieldNames);
    KeepPresentKeys(fs);
    assert Keys(fs) == FieldNames;
    FieldNamesDistinct();
    SubsequenceDistinct(Keys(ExtractStatus(find)), FieldNames);
    forall k | 0 <= k < |ExtractStatus(find)| ensures ExtractStatus(find)[k].0 in FieldNames {
      var p := ExtractStatus(find)[k];
      assert (p.0, Some(p.1)) in fs;
    }
  }

  /** A found element whose text is only whitespace gives an empty value, not an absent key. */
  lemma WhitespaceTextKept(find: string -> Option<Element>, k: nat)
    requires k < |FieldNames|
    requires find(FieldPath(FieldNames[k])).Some?
    requires find(FieldPath(FieldNames[k])).value.text.Some?
    requires var t := find(FieldPath(FieldNames[k])).value.text.value; t != "" && AllSpace(t)
    ensures Get(ExtractStatus(find), FieldNames[k]) == Some("")
  {
    ExtractStatusFields(find, k);
    var t := find(FieldPath(FieldNames[k])).value.text.value;
    StripPadded(t, "", []);
    assert t + "" + [] == t;
  }

  lemma {:induction false} KeepPresentEmpty(fs: seq<(string, Option<string>)>)
    ensures KeepPresent(fs) == [] <==> forall k :: 0 <= k < |fs| ==> fs[k].1.None?
  {
    if fs != [] {
      KeepPresentEmpty(fs[1..]);
      if fs[0].1.None? {
        forall k | 0 <= k < |fs| && k > 0 ensures fs[k].1 == fs[1..][k - 1].1 { }
      }
    }
  }

  /**
   * The record is empty exactly when no field is found with non-empty text;
   * the script saves the parsed status only when it is not.
   */
  lemma EmptyRecordIffNothingFound(find: string -> Option<Element>)
    ensures ExtractStatus(find) == [] <==>
            forall k :: 0 <= k < |FieldNames| ==> FindText(find, FieldPath(FieldNames[k])).None?
  {
    KeepPresentEmpty(Lookups(find, FieldNames));
  }

  /** A reply in which `find` locates the four fields of an authorised invoice, `nProt` optional. */
  predicate SampleReply(find: string -> Option<Element>, withProtocol: bool) {
    && find(FieldPath("cStat")) == Some(Leaf("cStat", "100"))
    && find(FieldPath("xMotivo")) == Some(Leaf("xMotivo", "Autorizado"))
    && find(FieldPath("nProt")) == (if withProtocol then Some(Leaf("nProt", "123456789012345")) else None)
    && find(FieldPath("dhRecbto")) == Some(Leaf("dhRecbto", "2024-01-01T10:00:00-03:00"))
  }

  /** The lookups on a sample reply, field by field. */
  lemma SampleLookups(find: string -> Option<Element>, withProtocol: bool)
    requires SampleReply(find, withProtocol)
    ensures Lookups(find, FieldNames) ==
            [("cStat", Some("100")), ("xMotivo", Some("Autorizado")),
             ("nProt", if withProtocol then Some("123456789012345") else None),
             ("dhRecbto", Some("2024-01-01T10:00:00-03:00"))]
  {
    StripTrimmed("100");
    StripTrimmed("Autorizado");
    StripTrimmed("123456789012345");
    StripTrimmed("2024-01-01T10:00:00-03:00");
  }

  /** The pair a dictionary entry contributes to the record: none, or one. */
  function Kept(p: (string, Option<string>)): Record {
    if p.1.Some? then [(p.0, p.1.value)] else []
  }

  lemma KeepPresentUnfold(fs: seq<(string, Option<string>)>)
    requires fs != []
    ensures KeepPresent(fs) == Kept(fs[0]) + KeepPresent(fs[1..])
  {
  }

  lemma KeepPresentFour(a: (string, Option<string>), b: (string, Option<string>),
                        c: (string, Option<string>), d: (string, Option<string>))
    ensures KeepPresent([a, b, c, d]) == Kept(a) + Kept(b) + Kept(c) + Kept(d)
  {
    var fs := [a, b, c, d];
    var f1, f2, f3 := fs[1..], fs[1..][1..], fs[1..][1..][1..];
    assert f1 == [b, c, d] && f2 == [c, d] && f3 == [d] && f3[1..] == [];
    KeepPresentUnfold(fs);
    KeepPresentUnfold(f1);
    KeepPresentUnfold(f2);
    KeepPresentUnfold(f3);
    assert KeepPresent(f3) == Kept(d);
    assert Kept(a) + (Kept(b) + (Kept(c) + Kept(d))) == Kept(a) + Kept(b) + Kept(c) + Kept(d);
  }

  /** Filtering the sample dictionary. */
  lemma SampleFilter(fs: seq<(string, Option<string>)>, withProtocol: bool)
    requires fs == [("cStat", Some("100")), ("xMotivo", Some("Autorizado")),
                    ("nProt", if withProtocol then Some("123456789012345") else None),
                    ("dhRecbto", Some("2024-01-01T10:00:00-03:00"))]
    ensures withProtocol ==>
              (KeepPresent(fs) ==
               [("cStat", "100"), ("xMotivo", "Autorizado"), ("nProt", "123456789012345"),
                ("dhRecbto", "2024-01-01T10:00:00-03:00")])
    ensures !withProtocol ==>
              (KeepPresent(fs) ==
               [("cStat", "100"), ("xMotivo", "Autorizado"), ("dhRecbto", "2024-01-01T10:00:00-03:00")])
  {
    KeepPresentFour(fs[0], fs[1], fs[2], fs[3]);
    assert Kept(fs[0]) + Kept(fs[1]) == [("cStat", "100"), ("xMotivo", "Autorizado")];
  }

  lemma NoProtocolKey(r: Record)
    requires r == [("cStat", "100"), ("xMotivo", "Autorizado"), ("dhRecbto", "2024-01-01T10:00:00-03:00")]
    ensures Get(r, "nProt") == None
  {
    assert "cStat"[0] != "nProt"[0] && "xMotivo"[0] != "nProt"[0] && "dhRecbto"[0] != "nProt"[0];
    assert r[1..] == [("xMotivo", "Autorizado"), ("dhRecbto", "2024-01-01T10:00:00-03:00")];
    assert r[1..][1..] == [("dhRecbto", "2024-01-01T10:00:00-03:00")];
    assert r[1..][1..][1..] == [];
    assert Get(r[1..][1..], "nProt") == None;
    assert Get(r[1..], "nProt") == None;
  }

  /** All four fields present: the record holds exactly those four pairs, in order. */
  lemma SampleAllFields(find: string -> Option<Element>)
    requires SampleReply(find, true)
    ensures ExtractStatus(find) ==
            [("cStat", "100"), ("xMotivo", "Autorizado"), ("nProt", "123456789012345"),
             ("dhRecbto", "2024-01-01T10:00:00-03:00")]
  {
    var fs: seq<(string, Option<string>)> :=
      [("cStat", Some("100")), ("xMotivo", Some("Autorizado")),
       ("nProt", Some("123456789012345")), ("dhRecbto", Some("2024-01-01T10:00:00-03:00"))];
    SampleFilter(fs, true);
    SampleLookups(find, true);
    assert Lookups(find, FieldNames) == fs;
  }

  /** `nProt` missing: the other three fields, and no `nProt` key. */
  lemma SampleWithoutProtocol(find: string -> Option<Element>)
    requires SampleReply(find, false)
    ensures ExtractStatus(find) ==
            [("cStat", "100"), ("xMotivo", "Autorizado"), ("dhRecbto", "2024-01-01T10:00:00-03:00")]
    ensures Get(ExtractStatus(find), "nProt") == None
  {
    var fs: seq<(string, Option<string>)> :=
      [("cStat", Some("100")), ("xMotivo", Some("Autorizado")),
       ("nProt", None), ("dhRecbto", Some("2024-01-01T10:00:00-03:00"))];
    SampleFilter(fs, false);
    SampleLookups(find, false);
    assert Lookups(find, FieldNames) == fs;
    NoProtocolKey(ExtractStatus(find));
  }
}

/**
 * Steps 1 to 3 and 5 of `main` without the I/O between them: the key is
 * chosen and validated, the query is built, serialised (by a serialiser
 * given as a parameter, standing for `etree.tostring`), collapsed to one
 * line and wrapped in the SOAP envelope; a parsed status is saved only
 * when it is not empty.
 */
module Pipeline {
  import opened Wrappers
  import opened Text
  import opened AccessKey
  import opened QueryXml
  import opened Whitespace
  import opened Soap
  import opened Settings
  import opened StatusRecord

  /** What `main` has ready to send: the query element, its one-line text and the envelope. */
  datatype Request = Request(consulta: Element, xmlText: string, envelope: string)

  /** `main` up to the request, for the key option, `CHAVE_ACESSO`, `--uf` and `--tp-amb`. */
  function PrepareRequest(option: Option<string>, env: Option<string>, uf: string, tpAmb: string,
                          serialize: Element -> string): (r: Result<Request, KeyError>)
    ensures r.Failure? <==> |Digits(ChooseKey(option, env))| != KeyLength
    ensures r.Failure? ==> r.error == KeyValueError(KeyLengthMessage)
    ensures r.Success? ==>
              && ReadQuery(r.value.consulta) == Some(QueryFields(Digits(ChooseKey(option, env)), tpAmb))
              && |Digits(ChooseKey(option, env))| == KeyLength
              && r.value.xmlText == Normalize(serialize(r.value.consulta))
              && Canonical(r.value.xmlText)
              && WellPlaced(r.value.envelope, r.value.xmlText, uf, DefaultSchemaVersion)
  {
    match Validate(Some(ChooseKey(option, env)))
    case Failure(e) => Failure(e)
    case Success(chave) =>
      var consulta := BuildQuery(chave, tpAmb);
      var xmlText := Normalize(serialize(consulta));
      ReadBuildQuery(chave, tpAmb);
      EnvelopeLayout(xmlText, uf, DefaultSchemaVersion);
      Success(Request(consulta, xmlText, Envelope(xmlText, uf)))
  }

  /** With neither `--chave` nor `CHAVE_ACESSO` the run stops at the key check. */
  lemma NoKeyStops(uf: string, tpAmb: string, serialize: Element -> string)
    ensures PrepareRequest(None, None, uf, tpAmb, serialize).Failure?
  {
    MissingKeyRejected();
  }

  /** An empty `--chave` falls back to `CHAVE_ACESSO`, as an absent one does. */
  lemma EmptyOptionFallsBack(env: Option<string>, uf: string, tpAmb: string, serialize: Element -> string)
    ensures PrepareRequest(Some(""), env, uf, tpAmb, serialize) == PrepareRequest(None, env, uf, tpAmb, serialize)
  {
  }

  /** `if parsed:` — the status file is written exactly when some field was found with text. */
  predicate SavesStatus(find: string -> Option<Element>): (saves: bool)
    ensures saves <==> exists k :: 0 <= k < |FieldNames| && FindText(find, FieldPath(FieldNames[k])).Some?
  {
    EmptyRecordIffNothingFound(find);
    ExtractStatus(find) != []
  }
}

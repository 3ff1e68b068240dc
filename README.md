# NF-e status query (`main_status.py`) in Dafny

This model covers the pure parts of the script that asks a SEFAZ web service
(`NFeConsultaProtocolo4`) for the status of one electronic invoice (NF-e):

- the validation of the 44-digit access key (chave de acesso);
- the `consSitNFe` query document, as an XML element datatype;
- the whitespace normalisation applied to the serialised query;
- the SOAP 1.2 envelope, built from its literal template;
- the status record extracted from the reply;
- the SSL-verification flag, read from `SSL_VERIFY` and `--verify`;
- the choice between `--chave` and `CHAVE_ACESSO`;
- the 2000-character console preview of the raw reply;
- the steps of `main` that link these together.

Modules, one per file:

- `Wrappers`: `Option` and `Result`.
- `Text`: ASCII character classes, `strip`, `lstrip`, `rstrip` and `lower`, and the subsequence predicate.
- `AccessKey`: `valida_chave`.
- `QueryXml`: the element datatype and `montar_xml_consulta`.
- `Whitespace`: `re.sub(r"\s+", " ", s).strip()`, with `" ".join(s.split())` as an independent reference definition.
- `Soap`: `envelope_soap`.
- `StatusRecord`: `extrair_status`.
- `Settings`: the verification flag and the key choice.
- `Preview`: the console preview.
- `Pipeline`: `main` from the key up to the envelope, and the decision to save the parsed status.

`extrair_status` is modelled over an abstract lookup `find`. It maps an XPath to the element that `root.find` returns, or to `None`. Parsing the reply is not modelled. Where a description of the program says that fields missing from the reply are left out of the record, the code is more precise, and the model follows the code:

- An element with no text, or with empty text, is also left out.
- An element whose text is only whitespace is kept, with value `""`.

## Model

| member | source | states |
|---|---|---|
| AccessKey.Validate | src/main_status.py:31-35 | Succeeds exactly when the input, with `None` read as `""`, has 44 digits once every non-digit is removed. On success it returns that 44-digit string. Otherwise it returns the `ValueError` with its fixed message. |
| AccessKey.Digits | src/main_status.py:32 | `re.sub(r"\D", "", s)` keeps only digits and never makes the string longer. |
| AccessKey.DigitsIsSubsequence | src/main_status.py:32 | The kept digits are the input with characters deleted, in their original order. |
| AccessKey.DigitsUnique | src/main_status.py:32 | Any all-digit subsequence at least as long as the kept digits is the kept digits. So removing non-digits is the only way to get the longest digit subsequence. |
| AccessKey.DigitsOfAllDigits | src/main_status.py:32 | A string of digits passes through unchanged. |
| AccessKey.DigitsConcat | src/main_status.py:32 | Filtering distributes over concatenation. |
| AccessKey.ValidateIdempotent | src/main_status.py:31-35 | Validating a key that was already accepted gives the same key back. |
| AccessKey.ValidateIgnoresSeparators | src/main_status.py:31-35 | Inserting non-digit separators anywhere in the input does not change the outcome. |
| AccessKey.MissingKeyRejected | src/main_status.py:32-34 | A missing key and an empty key are both rejected with the length message. |
| QueryXml.BuildQuery | src/main_status.py:37-43 | The built element is `{nfe}consSitNFe` with nsmap `{None: nfe}` and `versao="4.00"`. It has three namespaced leaf children, in this order: `tpAmb` holding the environment, `xServ` holding `CONSULTAR`, and `chNFe` holding the key. |
| QueryXml.ReadBuildQuery | src/main_status.py:37-43 | Reading the fields back from a built query gives exactly the key and environment it was built from. |
| QueryXml.BuildReadQuery | src/main_status.py:37-43 | Any element that reads as a query is structurally equal to the query built from its fields, so the builder is onto its image. |
| QueryXml.QueryFieldTexts | src/main_status.py:40-42 | Looking a child up by local name in any namespace (lxml's `findtext("{*}" + name)`) on the built query gives the environment, `CONSULTAR` and the key, and gives nothing for an unrelated tag. |
| Whitespace.Normalize | src/main_status.py:147 | The result has no whitespace at either end and no whitespace other than single spaces. It keeps exactly the non-whitespace characters of the input, in order. |
| Whitespace.CollapseRuns | src/main_status.py:147 | `re.sub(r"\s+", " ", s)` never lengthens the text, is empty exactly for empty input, and begins with a space when the input begins with whitespace and with the input's first character otherwise; `CollapseRunsClosedForm` gives its exact value. |
| Whitespace.CollapseRunsClosedForm | src/main_status.py:147 | `re.sub(r"\s+", " ", s)` is exactly the words of `s` joined by single spaces, preceded by one space when `s` starts with whitespace and followed by one space when `s` ends with whitespace; a string with no words becomes one space if it is all whitespace and stays empty if it is empty. Interior runs are therefore each replaced by one space, not deleted. |
| Whitespace.CollapseIsSingleSpaced | src/main_status.py:147 | `re.sub(r"\s+", " ", s)` leaves only single spaces between non-whitespace characters. |
| Whitespace.CollapseKeepsNonSpace | src/main_status.py:147 | The substitution neither drops nor reorders non-whitespace characters. |
| Whitespace.StripSingleSpaced | src/main_status.py:147 | `.strip()` keeps a single-spaced string single-spaced and removes only whitespace. |
| Whitespace.CollapseSingleSpaced | src/main_status.py:147 | A string that is already single-spaced is left unchanged by the substitution. |
| Whitespace.NormalizeCanonical | src/main_status.py:147 | A normalised string is a fixed point. |
| Whitespace.NormalizeIdempotent | src/main_status.py:147 | Normalising twice is the same as normalising once. |
| Whitespace.Words | src/main_status.py:147 | The reference `s.split()` yields non-empty words without whitespace. |
| Whitespace.NormalizeIsJoinOfWords | src/main_status.py:147 | The normalisation equals the independent definition `" ".join(s.split())` on every input. |
| Soap.Envelope | src/main_status.py:51-67 | `envelope_soap`: the stripped template, so neither end is whitespace; `EnvelopeIsText` and `EnvelopeLayout` state what it contains and where. |
| Soap.EnvelopeIsText | src/main_status.py:51-67 | `.strip()` removes exactly the template's leading newline and indentation and its trailing newline and indentation. |
| Soap.EnvelopeLayout | src/main_status.py:51-67 | For every payload, UF and version, with nothing escaped: the envelope starts with `<soap12:Envelope` and ends with `</soap12:Envelope>`. The header holds `<nfe:cUF>` with the UF and `<nfe:versaoDados>` with the version, between `<soap12:Header>` and `</soap12:Header>`, in that order. After the header, the body holds `<nfe:nfeDadosMsg>`, whitespace, the payload verbatim, whitespace, and `</nfe:nfeDadosMsg>`. |
| Soap.DefaultVersionInHeader | src/main_status.py:51 | Without a version argument the header carries `4.00`. |
| Soap.Line | src/main_status.py:52-67 | Each line break of the template together with its indentation is whitespace of the stated length. |
| Soap.HeaderInside | src/main_status.py:55-60 | Gives the positions of `cUF` and `versaoDados` within the header block, with their contents. |
| Soap.BodyInside | src/main_status.py:61-65 | Gives the position of the payload within the body block, with only whitespace between it and the `nfeDadosMsg` tags. |
| Text.Strip | src/main_status.py:91 | `str.strip()`: neither end of the result is whitespace, and the result sits in the input with only whitespace before and after it. |
| StatusRecord.FindText | src/main_status.py:89-91 | Returns a value exactly when the element is found and its text is present and non-empty. The value is that text, stripped. |
| StatusRecord.ExtractStatus | src/main_status.py:82-99 | `extrair_status`: at most four pairs. `ExtractStatusFields` gives each field's value, and `ExtractStatusKeys` shows that each field name is a key at most once, in the order of the field names. |
| StatusRecord.Lookups | src/main_status.py:93-98 | The dictionary literal `dados`: one entry per name, in order, each holding `find_text` of that name's XPath `.//nfe:<name>`. |
| StatusRecord.KeepPresent | src/main_status.py:99 | The comprehension dropping `None` values never adds entries; `KeepPresentKeys` and `GetKeepPresent` state which entries it keeps. |
| StatusRecord.ExtractStatusFields | src/main_status.py:93-99 | For each of `cStat`, `xMotivo`, `nProt` and `dhRecbto`, the record holds the field's stripped text exactly when the element is found with non-empty text. Otherwise the key is absent. |
| StatusRecord.ExtractStatusKeys | src/main_status.py:93-99 | The record's keys are among the four field names, are pairwise distinct, and appear in the order of the dictionary literal. |
| StatusRecord.GetKeepPresent | src/main_status.py:99 | With distinct keys, the comprehension that drops `None` values keeps every other value under its key. |
| StatusRecord.KeepPresentKeys | src/main_status.py:99 | The comprehension keeps present entries, in order, and adds none. |
| StatusRecord.WhitespaceTextKept | src/main_status.py:91 | An element whose text is only whitespace gives the value `""`, not an absent key. |
| StatusRecord.EmptyRecordIffNothingFound | src/main_status.py:93-99 | The record is empty exactly when none of the four fields is found with non-empty text. |
| StatusRecord.SampleAllFields | src/main_status.py:82-99 | A reply with `cStat=100`, `xMotivo=Autorizado`, `nProt=123456789012345` and `dhRecbto=2024-01-01T10:00:00-03:00` gives exactly those four pairs, in order. |
| StatusRecord.SampleWithoutProtocol | src/main_status.py:82-99 | The same reply without `nProt` gives the other three pairs and no `nProt` key. |
| Settings.ParseVerifyFlag | src/main_status.py:131 | `s.lower() in ("1","true","yes")` (also line 22) is on exactly for `1`, `true` and `yes` written in any letter case, stated through an independent case-insensitive comparison, and off for every other string. |
| Settings.LowerEqualsIgnoringCase | src/main_status.py:131 | Lower-casing gives a given lower-case word exactly when the input is that word in any letter case. |
| Settings.ParseBoolText | src/main_status.py:125-131 | Parsing `str(b)` gives `b` back. So `--verify`'s default `str(DEFAULT_VERIFY)` reproduces the environment's flag. |
| Settings.DefaultVerify | src/main_status.py:22 | `DEFAULT_VERIFY` is off when `SSL_VERIFY` is unset. |
| Settings.RunVerify | src/main_status.py:125-131 | Without `--verify`, the run's flag is the flag read from `SSL_VERIFY`, because the default `str(DEFAULT_VERIFY)` parses back to it. |
| Settings.VerifyOffByDefault | src/main_status.py:22 | With `SSL_VERIFY` unset and no `--verify`, certificate verification is off. |
| Settings.ChooseKey | src/main_status.py:135 | `args.chave or DEFAULT_CHAVE`, with `DEFAULT_CHAVE` from line 19: a non-empty `--chave` is used as given; an empty or missing one falls back to `CHAVE_ACESSO`, and then to `""`. |
| Preview.ResponsePreview | src/main_status.py:176 | A reply of at most 2000 characters is shown whole. A longer one is shown as its first 2000 characters followed by `...\n[truncado]`. |
| Preview.PreviewBounds | src/main_status.py:176 | The preview starts with the reply's first characters. It is never longer than 2000 characters plus the marker, and never longer than the reply plus the marker. |
| Preview.PreviewMarksTruncation | src/main_status.py:176 | A reply that was cut is shown at exactly the limit plus the marker, with the marker at the end. |
| Pipeline.PrepareRequest | src/main_status.py:135-150 | The run stops with the key's `ValueError` exactly when the chosen key does not have 44 digits. Otherwise three things hold. The query reads back as the validated key and `--tp-amb`. The payload is the normalised serialisation, and is canonical. The envelope holds that payload in its body and the UF and `4.00` in its header. |
| Pipeline.NoKeyStops | src/main_status.py:135-140 | With neither `--chave` nor `CHAVE_ACESSO`, the run stops at the key check. |
| Pipeline.EmptyOptionFallsBack | src/main_status.py:135-140 | An empty `--chave` gives the same run as no `--chave`: both fall back to `CHAVE_ACESSO`. |
| Pipeline.SavesStatus | src/main_status.py:180-184 | `if parsed:` saves the parsed status exactly when at least one field was found with non-empty text. |

## Left out

- Network I/O is not modelled. This covers `enviar`, the HTTPS POST with the client certificate, the timeout, and the SSL, HTTP and request error branches of `main`, including the 400-character HTTP error excerpt.
- File I/O is not modelled: `salvar_xml`, `salvar_resposta`, `salvar_status` with its JSON dump, and `os.makedirs`.
- Reading the environment is not modelled, apart from `SSL_VERIFY` and `CHAVE_ACESSO`, which are parameters. This covers `.env` loading and `os.getenv`, and the other defaults: paths, UF, environment, timeout and endpoint.
- Parsing the command line (`argparse`) is not modelled. Each option is a parameter, or an `Option` where its absence matters.
- `--tp-amb` is restricted to `1` and `2` by `argparse`. The model takes any string. This matches the default from `TP_AMB` (src/main_status.py:21), which `argparse` does not check against `choices`, so it reaches `montar_xml_consulta` as given.
- Setting an element's `.text` in lxml (src/main_status.py:40-42) raises `ValueError` for control characters that XML does not allow. The model accepts any text there, so that error path is not modelled.
- lxml is left out. `etree.tostring` is a parameter `serialize` of `Pipeline.PrepareRequest`. `etree.fromstring` and `root.find` are the parameter `find` of `StatusRecord.ExtractStatus`. Parse errors on a malformed reply are therefore not modelled.
- Element tails and namespace maps are simplified. The query element has no tail. Its namespace map is the single default-namespace entry that `montar_xml_consulta` sets.
- Characters are ASCII only. `\d`/`\D`, `\s`, `str.strip()` and `str.lower()` are Unicode-aware in Python. The model uses ASCII digits, the ten ASCII characters Python counts as whitespace, and ASCII case folding. A key written with non-ASCII Unicode digits, or text padded with non-ASCII spaces, behaves differently in Python.
- Printing to the console is not modelled, apart from the preview text itself.
- Soap.EnvelopeLayout: it states where the parts sit and that the envelope begins and ends with the `Envelope` tags. It does not give the total length of the envelope as a formula.

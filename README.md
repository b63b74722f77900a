# RichiTAX extractors in Dafny

RichiTAX reads Mexican tax certificates (Constancia de Situación Fiscal) and turns each one into a
row of named fields. It does this in two ways:

- **Locally** (`Archivo/lector.py`): it takes the certificate's text, either the PDF's embedded
  text or OCR of the rendered pages, and pulls eleven fields out of it with regular expressions
  and stop-word truncation. The fields are the RFC, the legal name (razón social) and nine
  address and regime fields.
- **Remotely** (`lectorqr.py`): it finds the tax authority's verification link in the text and
  opens the verification page. It reads the RFC, the legal name and nine fields from that page,
  then builds one report row per uploaded file.

This project models both extractors and proves what they compute.

Files:

- `wrappers.dfy`: `Option`.
- `text.dfy`: the `str` operations the code relies on: `strip`, `lower`/`upper`, `in`,
  `split(w, 1)[0]`, `split(c)[-1]`, `splitlines`, `isupper`.
- `dict.dfy`: Python's insertion-ordered `dict`, as a sequence of key/value pairs.
- `patterns.dfy`: the regular-expression shapes the two files share. It models `re.search` with
  leftmost-first search, greedy runs with backtracking, `IGNORECASE` labels, `\b` and the
  tax-identifier classes.
- `lector.dfy`: `tiene_texto`, `leer_texto_directo`, `leer_texto_ocr`, `leer_pdf`,
  `buscar_patron`, the RFC search, the three-stage legal-name search and `extraer_datos`.
- `lectorqr.dfy`: `procesar_pdf`, `extraer_datos_desde_pagina` and the upload loop.

Loops stay loops: each one is a `method` proved against a specification function. The lemmas
then state what that function means, such as:

- the first match;
- the last row that names a field;
- the stripped prefix that truncation leaves;
- the shape of a verification link.

## Model

| member | source | states |
|---|---|---|
| `Text.StripSpec` | Archivo/lector.py:47 | `strip()` returns a slice of its argument with only whitespace around it, and returns nothing exactly when the argument is all whitespace |
| `Text.AfterLastSpec` | Archivo/lector.py:80 | when the line has a colon, `split(":")[-1]` is the text after its last colon |
| `Patterns.GroupAtSomeIff` | Archivo/lector.py:45 | after the label, the group exists exactly when some value character is reached across separators only (backtracking included) |
| `Patterns.CaptureNoneIff` | Archivo/lector.py:45-46 | the search fails exactly when no occurrence of the label, in any case, is followed across colons and whitespace by a value character |
| `Patterns.GroupShape` | Archivo/lector.py:45 | a captured group is a non-empty run of value characters of the text |
| `Dict.SetSpec` | lectorqr.py:38-44 | `d[k] = v` keeps the key order when `k` is present and appends `k` otherwise; afterwards `k` reads `v` and every other key reads as before |
| `Dict.SetPrefix` | lectorqr.py:43-44 | assigning the keys of a dict with distinct keys one at a time, in order, appends each entry in turn |
| `Lector.TieneTexto` | Archivo/lector.py:14-19 | true exactly when some page's stripped text is non-empty |
| `Lector.LeerTexto` | Archivo/lector.py:21-33 | the accumulated text is the page texts joined in page order |
| `Lector.LeerPdf` | Archivo/lector.py:35-41 | OCR is used exactly when no page has text; the text is the join of the embedded texts or of the OCR texts accordingly |
| `Lector.BuscarPatron` | Archivo/lector.py:44-57 | the method returns `PatternValue`: "No encontrado" without a match; otherwise the stripped group, cut at `limpiar_con` and then at each extra stop word in order |
| `Lector.CutSameCase` | Archivo/lector.py:49-50 | a stop word present in the same casing leaves the stripped text before its first occurrence, which no longer contains it |
| `Lector.CutOtherCaseOnly` | Archivo/lector.py:49-50 | a stop word present only in another casing passes the presence test but cuts nothing |
| `Lector.CutPrefix` | Archivo/lector.py:49-50 | one truncation turns a stripped value into a stripped prefix of it |
| `Lector.CutAllPrefix` | Archivo/lector.py:52-55 | any sequence of truncations leaves a stripped prefix of the value |
| `Lector.PatternValueNotFound` | Archivo/lector.py:45-57 | with no labelled value anywhere in the text the field is "No encontrado" |
| `Lector.PatternValuePrefix` | Archivo/lector.py:45-56 | a found field is a stripped prefix of the stripped captured group |
| `Lector.RfcTokenAt` | Archivo/lector.py:59 | a token at a position exists exactly when the word-bounded pattern matches there with 3-4 letters and 2-3 trailing characters, and it is that slice |
| `Lector.RfcFrom` | Archivo/lector.py:59 | the result is the leftmost match, and there is none exactly when no position matches |
| `Lector.TokenNotSentinel` | Archivo/lector.py:59-60 | a matched token is never "No encontrado" |
| `Lector.RfcNotFoundIff` | Archivo/lector.py:59-60 | the RFC is "No encontrado" exactly when the text holds no word-bounded token of the shape |
| `Lector.RfcFound` | Archivo/lector.py:59-60 | a found RFC is the first token of the shape in the text, and as a string it has exactly that shape |
| `Lector.RegimenFrom` | Archivo/lector.py:67 | the first position at which the word-bounded "RÉGIMEN"/"REGIMEN" (any case) runs to the end of the line-final text |
| `Lector.DirectCut` | Archivo/lector.py:66-67 | the direct stage keeps a stripped value without "RÉGIMEN" and otherwise cuts it at the first one, never growing it |
| `Lector.FirstAccepted` | Archivo/lector.py:76-88 | the first line whose candidate is acceptable, with no acceptable candidate before it; none exactly when no line has one |
| `Lector.FirstAcceptedIs` | Archivo/lector.py:76-88 | a line with an acceptable candidate and none before it is the one the scan stops at; with none at all the scan finds nothing |
| `Lector.EscanearLineas` | Archivo/lector.py:76-88 | the loop with its `break` returns the candidate of the first accepted line (`ScanRazon`) |
| `Lector.Candidata` | Archivo/lector.py:77-85 | a line that does not mention the legal name offers no candidate; one with a colon offers the stripped text after its last colon; one without a colon offers the stripped next line, or none on the last line |
| `Lector.ScanRazonSpec` | Archivo/lector.py:76-88 | the scan's result is an acceptable candidate of some line with none before it; it is absent exactly when no line offers one |
| `Lector.HeaderRejected` | Archivo/lector.py:70-88 | a label line without a colon that is followed by a known header is passed over |
| `Lector.AcceptedIsNotSentinel` | Archivo/lector.py:81-90 | an accepted candidate is never "No encontrada", so the test at line 90 sees exactly a failed scan |
| `Lector.JoinedNotSentinel` | Archivo/lector.py:95-99 | a name joined from three parts with two spaces is never the "No encontrada" sentinel |
| `Lector.RazonSocialStages` | Archivo/lector.py:62-99 | a direct match is the legal name; otherwise the legal name is "No encontrada" exactly when both the line scan and the person-name stage fail |
| `Lector.BuscarRazon` | Archivo/lector.py:62-99 | the legal name is the direct-label stage, else the line scan, else the person name, else "No encontrada" |
| `Lector.ExtraerDatos` | Archivo/lector.py:101-136 | the eleven fields in their fixed order: RFC, legal name and the nine `buscar_patron` results with their stop words |
| `Lector.DatosKeys` | Archivo/lector.py:124-136 | the result always has the eleven keys, in their fixed order |
| `LectorQr.ParamEnd` | lectorqr.py:23 | the greedy run `[^&\s]+` ends at the first `&`, whitespace or end of text |
| `LectorQr.TailEndShape` | lectorqr.py:23 | a parameter match splits the link into host, stretch, `re=` value and `&fe=` value, with non-empty values free of `&` and whitespace |
| `LectorQr.LazyEndTail` | lectorqr.py:23 | the lazy `.*?` ends where the parameters match at some later position |
| `LectorQr.UrlFromShape` | lectorqr.py:23-25 | a link found in a page is a slice of its text with the host prefix and the `re=`/`&fe=` shape |
| `LectorQr.LazyEndLeast` | lectorqr.py:23 | the lazy `.*?` stops at the first position, reached without crossing a line break, where `re=...&fe=...` matches; it fails exactly when there is no such position |
| `LectorQr.UrlFromNone` | lectorqr.py:23-24 | the search finds nothing exactly when the link regex matches at no position |
| `LectorQr.UrlFromFound` | lectorqr.py:23-25 | a found link starts at the leftmost match position and ends after the shortest stretch after which the parameters match |
| `LectorQr.UrlInSpec` | lectorqr.py:22-25 | on a page, no link exactly when the regex matches nowhere; otherwise the leftmost, shortest-stretch match |
| `LectorQr.FirstLinkPage` | lectorqr.py:21-25 | the first page whose text holds a link; none exactly when no page does |
| `LectorQr.ProcesarPdf` | lectorqr.py:19-26 | the page loop with its early return yields `LinkOf` |
| `LectorQr.LinkOfSpec` | lectorqr.py:19-26 | the link is the whole match on the first page that has one, with the shape of a verification link; it is absent exactly when no page has one |
| `LectorQr.LinkStartsWithHttp` | lectorqr.py:98 | every link found passes `startswith("http")` |
| `LectorQr.BuildKeys` | lectorqr.py:38-44 | a full result has the keys legal name, RFC and the nine fields, in that order |
| `LectorQr.RemoteKeysDistinct` | lectorqr.py:38-42 | the eleven keys are distinct |
| `LectorQr.SetCampo` | lectorqr.py:84 | assigning a field replaces that one value and keeps the key order |
| `LectorQr.SetRfc` | lectorqr.py:52 | assigning the RFC replaces that one value |
| `LectorQr.SetNombre` | lectorqr.py:64 | assigning the legal name replaces that one value |
| `LectorQr.RemoteGroupAt` | lectorqr.py:50 | a group found at a position has the shape of a tax identifier with 4 or 3 letters and 3 trailing characters |
| `LectorQr.RemoteRfcFrom` | lectorqr.py:50 | the leftmost group has that shape too |
| `LectorQr.GroupStartsAfterSeparators` | lectorqr.py:50 | whatever backtracking does, the group starts where the run of colons and whitespace after `RFC` ends |
| `LectorQr.RemoteGroupFound` | lectorqr.py:50 | a group found comes from a match at that position, with four letters whenever four match |
| `LectorQr.RemoteGroupMissed` | lectorqr.py:50 | wherever the regex matches, a group is found |
| `LectorQr.RemoteRfcFromNone` | lectorqr.py:50-52 | nothing is found exactly when the regex matches nowhere |
| `LectorQr.RemoteRfcFromFound` | lectorqr.py:50-52 | the value found is the group of the leftmost match, preferring four letters, and it has the tax-identifier shape |
| `LectorQr.RemoteRfcNotPlaceholder` | lectorqr.py:38-52 | a tax identifier is never "No detectado" |
| `LectorQr.RemoteRfcNone` | lectorqr.py:49-52 | on the stripped, upper-cased list-item text the RFC stays "No detectado" exactly when nothing matches |
| `LectorQr.RemoteRfcFound` | lectorqr.py:49-52 | an RFC read is the group of the leftmost match in the stripped, upper-cased text, with four letters whenever that match allows four, and has the tax-identifier shape |
| `LectorQr.Ultima` | lectorqr.py:58-84 | the last marked position, with nothing marked after it; none exactly when nothing is marked |
| `LectorQr.RazonEsUltima` | lectorqr.py:58-64 | the legal-name entry holds the value of the last company-name row, or keeps its value when there is none |
| `LectorQr.RazonPaso` | lectorqr.py:60-64 | one row sets the legal-name entry to its upper-cased value exactly when its label names a company name |
| `LectorQr.NombreSoloSinPaterno` | lectorqr.py:63-66 | the given name changes only on a NOMBRE row that is not a company-name row, while the first surname read so far is empty |
| `LectorQr.FilaCortaSinNombres` | lectorqr.py:58-60 | a row with fewer than two cells leaves the legal name and the name parts as they were |
| `LectorQr.FilaCortaSinCampos` | lectorqr.py:77-79 | a row with fewer than two cells leaves every field value as it was |
| `LectorQr.TitularNoDetectado` | lectorqr.py:57-72 | without a company-name row, and without both a given name and a first surname, the legal name stays "No detectado" |
| `LectorQr.AnotarHastaPaso` | lectorqr.py:82-84 | each step of the field loop assigns the row's value to exactly the one field, when the label names it |
| `LectorQr.ValorCampoPaso` | lectorqr.py:75-84 | a further row overrides a field exactly when its label holds the field's upper-cased name |
| `LectorQr.ValoresPaso` | lectorqr.py:75-84 | one more row updates the nine values exactly as one pass of the field loop does |
| `LectorQr.ValoresSiguiente` | lectorqr.py:76-84 | within one grid table, each further row updates the nine values as one pass of the field loop |
| `LectorQr.ValoresVacios` | lectorqr.py:43-44 | with no rows every field is "No detectado" |
| `LectorQr.ValorCampoSpec` | lectorqr.py:74-84 | a field holds the stripped value of the last row, over all grid tables, whose label names it, and "No detectado" when none does |
| `LectorQr.InicialDistinct` | lectorqr.py:38-44 | the initial result has distinct keys |
| `LectorQr.ResultadoInicial` | lectorqr.py:38-44 | the initialisation builds the eleven "No detectado" entries in order |
| `LectorQr.AnotarFila` | lectorqr.py:78-84 | the field loop of one row assigns each field that the row's label names |
| `LectorQr.RecorrerNombres` | lectorqr.py:57-70 | the name loop leaves the legal-name entry and the three name parts as the row-by-row fold `LeerFilas` gives them |
| `LectorQr.RecorrerFilas` | lectorqr.py:76-84 | the rows of one grid table update the fields as `Valores` of all rows so far |
| `LectorQr.RecorrerTablas` | lectorqr.py:74-84 | the grid loops leave every field at `Valores` of all grid rows in document order |
| `LectorQr.ExtraerDatosDesdePagina` | lectorqr.py:28-88 | the page reader returns `Resultado`: a failed lookup keeps what was already set and leaves the rest "No detectado" |
| `LectorQr.GetBuild` | lectorqr.py:38-44 | each key of a full result reads back its value |
| `LectorQr.RfcDePagina` | lectorqr.py:46-52 | the RFC field holds the RFC read from the list item, and "No detectado" when the list item was not read |
| `LectorQr.CampoLeido` | lectorqr.py:54-85 | a field stays "No detectado" after a failed lookup, and otherwise holds the value the grid rows give |
| `LectorQr.CampoDePagina` | lectorqr.py:74-85 | on the page a field holds the value of the last grid row naming it, or "No detectado" |
| `LectorQr.NombreDePagina` | lectorqr.py:54-72 | the legal name is the full person name when a given name and a first surname were read, else the last company-name row, else "No detectado" |
| `LectorQr.ResultadoKeys` | lectorqr.py:38-44 | every page result has the eleven keys in creation order |
| `LectorQr.ProcesarArchivo` | lectorqr.py:97-115 | one file's row is `Fila` |
| `LectorQr.ProcesarArchivos` | lectorqr.py:94-115 | one row per file, in upload order, each being that file's `Fila` |
| `LectorQr.ArchivoKeyNew` | lectorqr.py:114 | "Archivo" is not a result key |
| `LectorQr.DatosArchivoKeys` | lectorqr.py:97-113 | with or without a link, the data have the eleven keys |
| `LectorQr.FilaKeys` | lectorqr.py:114-115 | each row is its data followed by "Archivo", which holds the file name |
| `LectorQr.DatosArchivoSpec` | lectorqr.py:97-113 | a file with no link anywhere gets the "No se encontró link en el PDF" row; otherwise it gets the result of the page for its first link, because the `http` test always passes |

## Left out

- PDF parsing and rendering (`fitz`, `pdf2image`), OCR (`pytesseract`), the browser session
  (`chromedriver_autoinstaller`, `selenium`), the Streamlit interface and the Excel export.
  These libraries are not part of this model. A document is the list of its page texts, the
  OCR output is a parameter of `LeerPdf`, and the rendered verification page is a `Page` value.
  The browser itself is a function parameter, `portal`, from a link to its `Page`.
- `main` of `Archivo/lector.py` (lines 138-158): a directory listing, the per-file loop and the
  timestamped Excel file. It is I/O around `leer_pdf` and `extraer_datos`.
- `print` calls, the Tesseract configuration (lines 10-12) and `driver.quit()`.
- Exceptions in `extraer_datos_desde_pagina`:
  - A failed wait or lookup for the list item or for the data table is modelled as an absent
    `li` or `datos` in `Page`. The result then keeps what was already assigned.
  - An exception thrown halfway through a row loop (a stale element, say) is not modelled.
  - `driver.find_elements` is taken never to fail.
- `LectorQr.ProcesarArchivos`: "one row per file" holds only when no call outside the `try`
  raises. Opening the PDF (`fitz.open`, lectorqr.py:20) and starting the browser
  (`chromedriver_autoinstaller.install()`, `webdriver.Chrome(...)`, `driver.get(url)`,
  lectorqr.py:29-35) can raise, and the upload loop (lectorqr.py:96-115) has no handler, so
  one such failure ends the run with no rows at all. In the model the page texts and `portal`
  are total, so these failures are not represented.
- Characters: the alphabet is ASCII plus the Spanish letters á é í ó ú ñ ü in both cases.
  - `upper`, `lower`, `\w`, `\d` and `isupper` are exact on that alphabet only.
  - Whitespace is the ASCII and Latin-1 set of `str.isspace`.
  - The RFC digit class `\d` is ASCII digits only.
- `LectorQr.LazyEnd`: its contract only bounds the end of the match. What the lazy stretch means
  is stated by `LazyEndLeast`, `LazyEndTail` and `UrlFromShape`.
- Two behaviours of the code that may look unintended are modelled as written:
  - In `buscar_patron`, the stop-word presence test ignores case but `split` does not, so a stop
    word present only in another casing cuts nothing (`Lector.CutOtherCaseOnly`).
  - On the verification page, labels are matched with plain `.upper()` containment, without
    stripping accents.

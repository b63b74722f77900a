/**
 * The local extractor of Archivo/lector.py: it reads the text of a tax certificate
 * (Constancia de Situación Fiscal), either the PDF's embedded text or its OCR, and pulls out
 * eleven named fields with regular expressions and truncation rules.
 *
 * Page texts and OCR results are given as strings; the PDF and OCR libraries are not modelled.
 */
module Lector {
  import opened Wrappers
  import opened Text
  import opened Dict
  import opened Patterns

  /** What every labelled field and the RFC hold when nothing matched. */
  const NoEncontrado := "No encontrado"

  /** What the legal name holds when none of its three stages succeeded. */
  const NoEncontrada := "No encontrada"

  // ---------------------------------------------------------------------------------------
  // Embedded text or OCR (tiene_texto, leer_texto_directo, leer_texto_ocr, leer_pdf)
  // ---------------------------------------------------------------------------------------

  /** The page texts joined in page order. */
  function Concat(parts: seq<string>): string {
    if parts == [] then "" else Concat(parts[..|parts| - 1]) + parts[|parts| - 1]
  }

  /** Some page has a non-blank text layer. */
  predicate HasText(pages: seq<string>) {
    exists i :: 0 <= i < |pages| && Strip(pages[i]) != ""
  }

  /** `tiene_texto`: stops at the first page whose stripped text is non-empty. */
  method TieneTexto(pages: seq<string>) returns (b: bool)
    ensures b <==> HasText(pages)
  {
    for i := 0 to |pages|
      invariant forall j :: 0 <= j < i ==> Strip(pages[j]) == ""
    {
      if Strip(pages[i]) != "" {
        return true;
      }
    }
    return false;
  }

  /** The accumulation loop of `leer_texto_directo` (over page texts) and of `leer_texto_ocr`
      (over the recognised text of each rendered page). */
  method LeerTexto(parts: seq<string>) returns (texto: string)
    ensures texto == Concat(parts)
  {
    texto := "";
    for i := 0 to |parts|
      invariant texto == Concat(parts[..i])
    {
      assert parts[..i + 1][..i] == parts[..i];
      texto := texto + parts[i];
    }
    assert parts[..|parts|] == parts;
  }

  /** `leer_pdf`: the embedded text when some page has any, the OCR text otherwise.
      `reconocidas` is what OCR recognises on each page; it is read only on the OCR path. */
  method LeerPdf(pages: seq<string>, reconocidas: seq<string>) returns (texto: string, porOcr: bool)
    ensures porOcr <==> !HasText(pages)
    ensures texto == if porOcr then Concat(reconocidas) else Concat(pages)
  {
    var directo := TieneTexto(pages);
    if directo {
      texto := LeerTexto(pages);
      porOcr := false;
    } else {
      texto := LeerTexto(reconocidas);
      porOcr := true;
    }
  }

  // ---------------------------------------------------------------------------------------
  // buscar_patron: a labelled value, truncated at stop words
  // ---------------------------------------------------------------------------------------

  /** One truncation step: `if w and w.lower() in s.lower(): s = s.split(w, 1)[0].strip()`.
      The presence test ignores case; the split does not. The empty word stands for `None`. */
  function Cut(s: string, w: string): string {
    if w != "" && Contains(Lower(s), Lower(w)) then Strip(SplitFirst(s, w)) else s
  }

  /** The truncation steps for `ws`, applied in order. */
  function CutAll(s: string, ws: seq<string>): string
    decreases |ws|
  {
    if ws == [] then s else Cut(CutAll(s, ws[..|ws| - 1]), ws[|ws| - 1])
  }

  predicate NonEmptyWords(ws: seq<string>) {
    "" !in ws
  }

  /** What `buscar_patron(lbl, limpiar, extras)` returns for the text `t`. */
  function PatternValue(t: string, lbl: string, limpiar: string, extras: seq<string>): string {
    match Capture(t, lbl, Field)
    case None => NoEncontrado
    case Some(g) => CutAll(Cut(Strip(g), limpiar), extras)
  }

  /** `buscar_patron`. `limpiar == ""` stands for `limpiar_con=None`; every extra stop word must
      be non-empty, since `str.split("")` raises. */
  method BuscarPatron(t: string, lbl: string, limpiar: string, extras: seq<string>) returns (r: string)
    requires NonEmptyWords(extras)
    ensures r == PatternValue(t, lbl, limpiar, extras)
  {
    var m := Capture(t, lbl, Field);
    if m.None? {
      return NoEncontrado;
    }
    r := Strip(m.value);
    if limpiar != "" && Contains(Lower(r), Lower(limpiar)) {
      r := Strip(SplitFirst(r, limpiar));
    }
    ghost var start := r;
    if extras != [] {
      for i := 0 to |extras|
        invariant r == CutAll(start, extras[..i])
      {
        CutAllStep(start, extras, i);
        if Contains(Lower(r), Lower(extras[i])) {
          r := Strip(SplitFirst(r, extras[i]));
        }
      }
      assert extras[..|extras|] == extras;
    }
  }

  lemma CutAllStep(s: string, ws: seq<string>, i: nat)
    requires i < |ws|
    ensures CutAll(s, ws[..i + 1]) == Cut(CutAll(s, ws[..i]), ws[i])
  {
    assert ws[..i + 1][..i] == ws[..i];
  }

  lemma LowerOccurs(s: string, w: string, i: int)
    requires OccursAt(s, w, i)
    ensures OccursAt(Lower(s), Lower(w), i)
  {
    assert Lower(s)[i..i + |w|] == Lower(w);
  }

  /** An occurrence inside a slice is an occurrence in the whole. */
  lemma OccursInSlice(p: string, r: string, a: nat, w: string, j: nat)
    requires a + |r| <= |p| && p[a..a + |r|] == r && OccursAt(r, w, j)
    ensures OccursAt(p, w, a + j)
  {
    forall k | 0 <= k < |w| ensures p[a + j + k] == w[k] {
      assert r[j + k] == w[k];
    }
  }

  /** An occurrence in a prefix is an occurrence in the whole. */
  lemma OccursInPrefix(s: string, i: nat, w: string, j: nat)
    requires i <= |s| && OccursAt(s[..i], w, j)
    ensures OccursAt(s, w, j)
  {
    assert s[..i][j..j + |w|] == s[j..j + |w|];
  }

  /** A stop word present with the same casing: the value becomes the stripped text before its
      first occurrence, and that text no longer contains the word. */
  lemma CutSameCase(s: string, w: string)
    requires w != "" && Contains(s, w)
    ensures Cut(s, w) == Strip(s[..IndexOf(s, w).value])
    ensures !Contains(Cut(s, w), w)
  {
    var i := IndexOf(s, w).value;
    LowerOccurs(s, w, i);
    ContainsAt(Lower(s), Lower(w), i);
    var p := s[..i];
    assert SplitFirst(s, w) == p;
    var r := Strip(p);
    StripSpec(p);
    var a := LeadEnd(p, 0);
    if Contains(r, w) {
      var j := IndexOf(r, w).value;
      OccursInSlice(p, r, a, w, j);
      OccursInPrefix(s, i, w, a + j);
      assert false;
    }
  }

  /** A stop word present only in another casing passes the presence test, but the split finds
      nothing: a stripped value comes back unchanged. */
  lemma CutOtherCaseOnly(s: string, w: string)
    requires Stripped(s) && w != ""
    requires Contains(Lower(s), Lower(w)) && !Contains(s, w)
    ensures Cut(s, w) == s
  {
  }

  /** Truncating a stripped value gives a stripped prefix of it. */
  lemma CutPrefix(s: string, w: string)
    requires Stripped(s)
    ensures |Cut(s, w)| <= |s| && Cut(s, w) == s[..|Cut(s, w)|] && Stripped(Cut(s, w))
  {
    if w != "" && Contains(Lower(s), Lower(w)) {
      var p := SplitFirst(s, w);
      var r := Strip(p);
      StripSpec(p);
      var a := LeadEnd(p, 0);
      if p != [] {
        assert p[0] == s[0];
      }
      assert a == 0;
      assert r == s[..|r|];
    }
  }

  /** However many stop words are applied, the value only shrinks: it stays a stripped prefix. */
  lemma {:induction false} CutAllPrefix(s: string, ws: seq<string>)
    requires Stripped(s)
    ensures var r := CutAll(s, ws); |r| <= |s| && r == s[..|r|] && Stripped(r)
    decreases |ws|
  {
    if ws != [] {
      var mid := CutAll(s, ws[..|ws| - 1]);
      CutAllPrefix(s, ws[..|ws| - 1]);
      CutPrefix(mid, ws[|ws| - 1]);
    }
  }

  /** "No encontrado" when no occurrence of the label (in any case) is followed, across colons and
      whitespace only, by a value character. */
  lemma PatternValueNotFound(t: string, lbl: string, limpiar: string, extras: seq<string>)
    requires forall p, j :: LabelAt(t, lbl, p) && p + |lbl| <= j < |t| && IsValueChar(t[j])
                            ==> !SkipsUpTo(t, Field, p + |lbl|, j)
    ensures PatternValue(t, lbl, limpiar, extras) == NoEncontrado
  {
    CaptureNoneIff(t, lbl, Field);
  }

  /** When the label is found, the value is a stripped prefix of the stripped captured run: the
      stop words only ever shorten it. */
  lemma PatternValuePrefix(t: string, lbl: string, limpiar: string, extras: seq<string>)
    requires Capture(t, lbl, Field).Some?
    ensures var s := Strip(Capture(t, lbl, Field).value);
            var r := PatternValue(t, lbl, limpiar, extras);
            |r| <= |s| && r == s[..|r|] && Stripped(r)
  {
    var s := Strip(Capture(t, lbl, Field).value);
    CutPrefix(s, limpiar);
    CutAllPrefix(Cut(s, limpiar), extras);
  }

  // ---------------------------------------------------------------------------------------
  // The RFC: `\b([A-ZÑ&]{3,4}\d{6}[A-Z0-9]{2,3})\b`, first match in the text
  // ---------------------------------------------------------------------------------------

  /** The tax-identifier pattern matches at `p` with `n1` letters and `n3` trailing characters. */
  predicate LocalRfcAt(t: string, p: int, n1: nat, n3: nat) {
    (n1 == 3 || n1 == 4) && (n3 == 2 || n3 == 3)
    && RfcShapeAt(t, p, n1, n3) && Boundary(t, p) && Boundary(t, p + n1 + 6 + n3)
  }

  /** The match at `p`, trying the greedy counts first as the regex engine does. */
  function RfcTokenAt(t: string, p: nat): (r: Option<string>)
    ensures r.Some? <==> exists n1: nat, n3: nat :: LocalRfcAt(t, p, n1, n3)
    ensures r.Some? ==> exists n1: nat, n3: nat :: LocalRfcAt(t, p, n1, n3) && r.value == t[p..p + n1 + 6 + n3]
  {
    if LocalRfcAt(t, p, 4, 3) then Some(t[p..p + 13])
    else if LocalRfcAt(t, p, 4, 2) then Some(t[p..p + 12])
    else if LocalRfcAt(t, p, 3, 3) then Some(t[p..p + 12])
    else if LocalRfcAt(t, p, 3, 2) then Some(t[p..p + 11])
    else None
  }

  /** The leftmost match at or after `p`. */
  function RfcFrom(t: string, p: nat): (r: Option<string>)
    decreases |t| + 1 - p
    ensures r.Some? ==> exists q: nat, n1: nat, n3: nat ::
                          (p <= q && LocalRfcAt(t, q, n1, n3) && r.value == t[q..q + n1 + 6 + n3]
                           && forall q': int, m1: nat, m3: nat :: p <= q' < q ==> !LocalRfcAt(t, q', m1, m3))
    ensures r.None? ==> forall q: int, n1: nat, n3: nat :: p <= q ==> !LocalRfcAt(t, q, n1, n3)
  {
    if p > |t| then None
    else match RfcTokenAt(t, p)
      case Some(tok) => Some(tok)
      case None => RfcFrom(t, p + 1)
  }

  /** `rfc` in `extraer_datos`. */
  function Rfc(t: string): string {
    RfcFrom(t, 0).GetOr(NoEncontrado)
  }

  /** A tax identifier found in the text is never the "No encontrado" sentinel. */
  lemma TokenNotSentinel(t: string, p: nat, n1: nat, n3: nat)
    requires LocalRfcAt(t, p, n1, n3)
    ensures t[p..p + n1 + 6 + n3] != NoEncontrado
  {
    assert IsRfcLetter(t[p + 1]);
    assert NoEncontrado[1] == 'o';
  }

  /** The RFC is "No encontrado" exactly when the text holds no word-bounded token of the shape. */
  lemma RfcNotFoundIff(t: string)
    ensures Rfc(t) == NoEncontrado <==> forall p: int, n1: nat, n3: nat :: !LocalRfcAt(t, p, n1, n3)
  {
    match RfcFrom(t, 0)
    case None =>
    case Some(tok) =>
      var p: nat, n1: nat, n3: nat :| LocalRfcAt(t, p, n1, n3) && tok == t[p..p + n1 + 6 + n3];
      TokenNotSentinel(t, p, n1, n3);
  }

  /** A found RFC is the first word-bounded token in the text with 3-4 letters, 6 digits and 2-3
      trailing characters, and as a string it has exactly that shape. */
  lemma RfcFound(t: string)
    requires Rfc(t) != NoEncontrado
    ensures exists p: nat, n1: nat, n3: nat ::
              (LocalRfcAt(t, p, n1, n3) && Rfc(t) == t[p..p + n1 + 6 + n3] && IsRfc(Rfc(t), n1, n3)
               && forall q: int, m1: nat, m3: nat :: 0 <= q < p ==> !LocalRfcAt(t, q, m1, m3))
  {
    var tok := RfcFrom(t, 0).value;
    var p: nat, n1: nat, n3: nat :| LocalRfcAt(t, p, n1, n3) && tok == t[p..p + n1 + 6 + n3]
                     && forall q: int, m1: nat, m3: nat :: 0 <= q < p ==> !LocalRfcAt(t, q, m1, m3);
    RfcShapeSlice(t, p, n1, n3);
  }

  // ---------------------------------------------------------------------------------------
  // The legal name (razón social): direct label, line scan, person name
  // ---------------------------------------------------------------------------------------

  const DirectLabel := "Denominación/Razón Social"

  /** `\bR[ÉE]GIMEN.*$` (IGNORECASE) matches at `p`: `.` stops at a newline, and `$` matches
      at the end or before a final newline. */
  predicate RegimenAt(s: string, p: int) {
    0 <= p && p + 7 <= |s| && Boundary(s, p)
    && (Lower(s[p..p + 7]) == "régimen" || Lower(s[p..p + 7]) == "regimen")
    && forall k :: p + 7 <= k < |s| - 1 ==> s[k] != '\n'
  }

  /** The first match at or after `p`. */
  function RegimenFrom(s: string, p: nat): (r: Option<nat>)
    decreases |s| + 1 - p
    ensures r.Some? ==> p <= r.value && RegimenAt(s, r.value) && forall q :: p <= q < r.value ==> !RegimenAt(s, q)
    ensures r.None? ==> forall q :: p <= q ==> !RegimenAt(s, q)
  {
    if p + 7 > |s| then None
    else if RegimenAt(s, p) then Some(p)
    else RegimenFrom(s, p + 1)
  }

  /** `re.sub(r'\bR[ÉE]GIMEN.*$', '', s, flags=re.IGNORECASE)`: the match from the first
      position runs to the end of the text, or to a final newline, which stays. */
  function RemoveRegimen(s: string): string {
    match RegimenFrom(s, 0)
    case None => s
    case Some(p) =>
      if p + 7 < |s| && s[|s| - 1] == '\n' then s[..p] + "\n" else s[..p]
  }

  /** The direct-label stage of the legal name. */
  function DirectRazon(t: string): Option<string> {
    match Capture(t, DirectLabel, Field)
    case None => None
    case Some(g) => Some(Strip(RemoveRegimen(Strip(g))))
  }

  /** On a stripped value, the direct stage cuts at the first word-bounded "RÉGIMEN" (any case,
      with or without the accent) that has no line break after it, and keeps the text otherwise. */
  lemma DirectCut(s: string)
    requires Stripped(s)
    ensures RegimenFrom(s, 0).None? ==> Strip(RemoveRegimen(s)) == s
    ensures RegimenFrom(s, 0).Some? ==>
            var p := RegimenFrom(s, 0).value;
            Strip(RemoveRegimen(s)) == Strip(s[..p]) && |Strip(s[..p])| <= p
  {
    match RegimenFrom(s, 0)
    case None =>
    case Some(p) =>
      assert s[|s| - 1] != '\n';
      assert RemoveRegimen(s) == s[..p];
  }

  const Prohibidas: seq<string> := [
    "CÉDULA DE IDENTIFICACIÓN FISCAL",
    "SERVICIO DE ADMINISTRACIÓN TRIBUTARIA",
    "REGISTRO FEDERAL DE CONTRIBUYENTES",
    "CONSTANCIA DE SITUACIÓN FISCAL"
  ]

  /** The chained `.replace` calls turning á é í ó ú into plain vowels. */
  function Deaccent(s: string): string {
    seq(|s|, i requires 0 <= i < |s| =>
      if s[i] == 'á' then 'a' else if s[i] == 'é' then 'e' else if s[i] == 'í' then 'i'
      else if s[i] == 'ó' then 'o' else if s[i] == 'ú' then 'u' else s[i])
  }

  /** The line, lower-cased and without accents, mentions "denominacion" or "razon social". */
  predicate MentionsRazon(linea: string) {
    var l := Deaccent(Lower(linea));
    Contains(l, "denominacion") || Contains(l, "razon social")
  }

  /** The candidate line `i` offers: the text after its last colon when it has one, the next line
      otherwise, both stripped. */
  function Candidate(lineas: seq<string>, i: nat): Option<string>
    requires i < |lineas|
  {
    if !MentionsRazon(lineas[i]) then None
    else if Contains(lineas[i], ":") then Some(Strip(AfterLast(lineas[i], ':')))
    else if i + 1 < |lineas| then Some(Strip(lineas[i + 1]))
    else None
  }

  /** Fully upper-case, not a known header, longer than three characters. */
  predicate Acceptable(c: string) {
    IsUpper(c) && c !in Prohibidas && |c| > 3
  }

  /** A candidate was offered and it is acceptable. */
  predicate AcceptedCandidate(c: Option<string>) {
    c.Some? && Acceptable(c.value)
  }

  /** The candidate of every line, in line order. */
  function Candidates(lineas: seq<string>): (cs: seq<Option<string>>)
    ensures |cs| == |lineas|
  {
    seq(|lineas|, i requires 0 <= i < |lineas| => Candidate(lineas, i))
  }

  /** The line-scan stage: the index of the first acceptable candidate. */
  function FirstAccepted(cs: seq<Option<string>>, from: nat): (r: Option<nat>)
    decreases |cs| - from
    ensures r.Some? ==> from <= r.value < |cs| && AcceptedCandidate(cs[r.value])
                        && forall j :: from <= j < r.value ==> !AcceptedCandidate(cs[j])
    ensures r.None? ==> forall i :: from <= i < |cs| ==> !AcceptedCandidate(cs[i])
  {
    if from >= |cs| then None
    else if AcceptedCandidate(cs[from]) then Some(from)
    else FirstAccepted(cs, from + 1)
  }

  /** What the line scan yields: the candidate of the first accepted line, if any. */
  function ScanRazon(lineas: seq<string>): Option<string> {
    var cs := Candidates(lineas);
    match FirstAccepted(cs, 0)
    case Some(i) => cs[i]
    case None => None
  }

  /** The scan's result is fixed by the first accepted candidate, or by there being none. */
  lemma {:induction false} FirstAcceptedIs(cs: seq<Option<string>>, i: nat)
    requires i <= |cs| && forall j :: 0 <= j < i ==> !AcceptedCandidate(cs[j])
    ensures i < |cs| && AcceptedCandidate(cs[i]) ==> FirstAccepted(cs, 0) == Some(i)
    ensures i == |cs| ==> FirstAccepted(cs, 0) == None
  {
    var r := FirstAccepted(cs, 0);
    if r.Some? {
      assert r.value >= i;
    }
  }

  /** The body of the line loop up to its acceptance test: the candidate line `i` offers. A line
      that does not name the legal name offers none; one with a colon offers the stripped text
      after its last colon; one without a colon offers the next line, stripped, if there is one. */
  method Candidata(lineas: seq<string>, i: nat) returns (c: Option<string>)
    requires i < |lineas|
    ensures c == Candidates(lineas)[i]
    ensures !MentionsRazon(lineas[i]) ==> c.None?
    ensures MentionsRazon(lineas[i]) && Contains(lineas[i], ":") ==>
            exists k :: 0 <= k < |lineas[i]| && lineas[i][k] == ':'
                        && (forall m :: k < m < |lineas[i]| ==> lineas[i][m] != ':')
                        && c == Some(Strip(lineas[i][k + 1..]))
    ensures MentionsRazon(lineas[i]) && !Contains(lineas[i], ":") ==>
            c == (if i + 1 < |lineas| then Some(Strip(lineas[i + 1])) else None)
  {
    var linea := lineas[i];
    var limpia := Deaccent(Lower(linea));
    c := None;
    if Contains(limpia, "denominacion") || Contains(limpia, "razon social") {
      if Contains(linea, ":") {
        AfterLastSpec(linea, ':');
        c := Some(Strip(AfterLast(linea, ':')));
      } else if i + 1 < |lineas| {
        c := Some(Strip(lineas[i + 1]));
      }
    }
  }

  /** The `for i, linea in enumerate(lineas)` loop; its `break` ends the scan. */
  method EscanearLineas(lineas: seq<string>) returns (razon: Option<string>)
    ensures razon == ScanRazon(lineas)
  {
    ghost var cs := Candidates(lineas);
    razon := None;
    for i := 0 to |lineas|
      invariant FirstAccepted(cs, 0) == FirstAccepted(cs, i)
    {
      var c := Candidata(lineas, i);
      if c.Some? && IsUpper(c.value) && c.value !in Prohibidas && |c.value| > 3 {
        razon := c;
        return;
      }
    }
  }

  /** The line scan yields an acceptable candidate offered by some line, and no line before
      that one offers an acceptable candidate; it yields nothing exactly when no line does. */
  lemma ScanRazonSpec(lineas: seq<string>)
    ensures ScanRazon(lineas).Some? ==>
            exists i :: 0 <= i < |lineas| && Candidate(lineas, i) == ScanRazon(lineas)
                        && Acceptable(ScanRazon(lineas).value)
                        && forall j :: 0 <= j < i ==> !AcceptedCandidate(Candidate(lineas, j))
    ensures ScanRazon(lineas).None? <==> forall i :: 0 <= i < |lineas| ==> !AcceptedCandidate(Candidate(lineas, i))
  {
    var cs := Candidates(lineas);
    match FirstAccepted(cs, 0)
    case Some(i) =>
      assert cs[i] == Candidate(lineas, i);
      forall j | 0 <= j < i ensures !AcceptedCandidate(Candidate(lineas, j)) {
        assert cs[j] == Candidate(lineas, j);
      }
    case None =>
      forall j | 0 <= j < |lineas| ensures !AcceptedCandidate(Candidate(lineas, j)) {
        assert cs[j] == Candidate(lineas, j);
      }
  }

  /** A line that names the label and has no colon, followed by a known header, is passed over:
      the scan goes on with the lines after it. */
  lemma HeaderRejected(lineas: seq<string>, i: nat)
    requires i + 1 < |lineas| && MentionsRazon(lineas[i]) && !Contains(lineas[i], ":")
    requires Strip(lineas[i + 1]) in Prohibidas
    ensures FirstAccepted(Candidates(lineas), i) == FirstAccepted(Candidates(lineas), i + 1)
  {
    var cs := Candidates(lineas);
    assert cs[i] == Some(Strip(lineas[i + 1]));
    assert !Acceptable(cs[i].value);
  }

  /** An accepted candidate is never the "No encontrada" sentinel: it has no lower-case letter. */
  lemma AcceptedIsNotSentinel(c: string)
    requires Acceptable(c)
    ensures c != NoEncontrada
  {
    assert IsLowerLetter(NoEncontrada[1]);
  }

  /** The person-name stage: all three of given name and two surnames, joined by single spaces. */
  function PersonName(t: string): Option<string> {
    var n := Capture(t, "Nombre (s):", Person);
    var a1 := Capture(t, "Primer Apellido:", Person);
    var a2 := Capture(t, "Segundo Apellido:", Person);
    if n.Some? && a1.Some? && a2.Some? then
      Some(Strip(n.value) + " " + Strip(a1.value) + " " + Strip(a2.value))
    else None
  }

  /** The legal name, by stage priority: direct label, then line scan, then person name. */
  function RazonSocial(t: string): string {
    match DirectRazon(t)
    case Some(r) => r
    case None =>
      match ScanRazon(SplitLines(t))
      case Some(c) => c
      case None => PersonName(t).GetOr(NoEncontrada)
  }

  /** A name joined from three parts has two spaces at distinct places, so it is never the
      "No encontrada" sentinel, which has one. */
  lemma JoinedNotSentinel(x: string, y: string, z: string)
    ensures x + " " + y + " " + z != NoEncontrada
  {
    var s := x + " " + y + " " + z;
    assert s[|x|] == ' ' && s[|x| + 1 + |y|] == ' ';
    assert forall k :: 0 <= k < |NoEncontrada| && NoEncontrada[k] == ' ' ==> k == 2;
  }

  /** The legal name is "No encontrada" unless a stage succeeds: after a failed direct match, it
      is the sentinel exactly when the line scan and the person-name stage both fail. */
  lemma RazonSocialStages(t: string)
    ensures DirectRazon(t).Some? ==> RazonSocial(t) == DirectRazon(t).value
    ensures DirectRazon(t).None? ==>
            (RazonSocial(t) == NoEncontrada <==> ScanRazon(SplitLines(t)).None? && PersonName(t).None?)
  {
    if DirectRazon(t).None? {
      match ScanRazon(SplitLines(t))
      case Some(c) =>
        ScanRazonSpec(SplitLines(t));
        AcceptedIsNotSentinel(c);
      case None =>
        if PersonName(t).Some? {
          var n := Capture(t, "Nombre (s):", Person).value;
          var a1 := Capture(t, "Primer Apellido:", Person).value;
          var a2 := Capture(t, "Segundo Apellido:", Person).value;
          JoinedNotSentinel(Strip(n), Strip(a1), Strip(a2));
        }
    }
  }

  // ---------------------------------------------------------------------------------------
  // extraer_datos
  // ---------------------------------------------------------------------------------------

  /** The keys of the result, in order. */
  const LocalKeys: seq<string> := [
    "RFC", "Razón Social", "Código Postal", "Vialidad", "Número Exterior", "Número Interior",
    "Colonia", "Localidad", "Municipio/Demarcación", "Estado", "Régimen"
  ]

  /** Lines 62-99 of `extraer_datos`: the legal name, by stage, with the "No encontrada" test
      between the line scan and the person-name stage. */
  method BuscarRazon(texto: string) returns (razon: string)
    ensures razon == RazonSocial(texto)
  {
    razon := NoEncontrada;
    var directa := Capture(texto, DirectLabel, Field);
    if directa.Some? {
      razon := Strip(directa.value);
      razon := Strip(RemoveRegimen(razon));
    } else {
      var lineas := SplitLines(texto);
      var hallada := EscanearLineas(lineas);
      if hallada.Some? {
        ScanRazonSpec(lineas);
        razon := hallada.value;
        AcceptedIsNotSentinel(razon);
      }
      if razon == NoEncontrada {
        var n := Capture(texto, "Nombre (s):", Person);
        var a1 := Capture(texto, "Primer Apellido:", Person);
        var a2 := Capture(texto, "Segundo Apellido:", Person);
        if n.Some? && a1.Some? && a2.Some? {
          razon := Strip(n.value) + " " + Strip(a1.value) + " " + Strip(a2.value);
        }
      }
    }
  }

  /** The extra stop words of the neighbourhood, the locality and the municipality, in order. */
  const CortesColonia: seq<string> := ["Nombre de la Localidad", "Nombre del Municipio", "Nombre de la Entidad"]
  const CortesLocalidad: seq<string> :=
    ["Nombre del Municipio", "Nombre de la Entidad", "Nombre del Municipio o Demarcación Territorial"]
  const CortesMunicipio: seq<string> := ["Nombre de la Entidad Federativa", "Entidad Federativa"]

  lemma CortesNonEmpty()
    ensures NonEmptyWords(CortesColonia) && NonEmptyWords(CortesLocalidad) && NonEmptyWords(CortesMunicipio)
  {
  }

  /** The eleven fields `extraer_datos` returns for the text `t`, in their fixed order. */
  function Datos(t: string): Entries {
    [
      ("RFC", Rfc(t)),
      ("Razón Social", RazonSocial(t)),
      ("Código Postal", PatternValue(t, "Código Postal", "Tipo de Vialidad", [])),
      ("Vialidad", PatternValue(t, "Nombre de Vialidad", "Número Exterior", [])),
      ("Número Exterior", PatternValue(t, "Número Exterior", "Número Interior", [])),
      ("Número Interior", PatternValue(t, "Número Interior", "Nombre de la Colonia", [])),
      ("Colonia", PatternValue(t, "Nombre de la Colonia", "Nombre de la Localidad",
                               CortesColonia)),
      ("Localidad", PatternValue(t, "Nombre de la Localidad", "Nombre del Municipio o Demarcación Territorial",
                                 CortesLocalidad)),
      ("Municipio/Demarcación", PatternValue(t, "Nombre del Municipio o Demarcación Territorial",
                                             "Nombre de la Entidad Federativa",
                                             CortesMunicipio)),
      ("Estado", PatternValue(t, "Nombre de la Entidad Federativa", "Tipo de Vialidad", [])),
      ("Régimen", PatternValue(t, "Régimen", "", []))
    ]
  }

  /** The result built from any eleven values has the eleven keys, in their fixed order. */
  lemma EntradasKeys(a: string, b: string, c: string, d: string, e: string, f: string,
                     g: string, h: string, i: string, j: string, k: string)
    ensures Keys([("RFC", a), ("Razón Social", b), ("Código Postal", c), ("Vialidad", d),
                  ("Número Exterior", e), ("Número Interior", f), ("Colonia", g), ("Localidad", h),
                  ("Municipio/Demarcación", i), ("Estado", j), ("Régimen", k)]) == LocalKeys
  {
  }

  /** The result always has the eleven keys, in their fixed order. */
  lemma DatosKeys(t: string)
    ensures Keys(Datos(t)) == LocalKeys
  {
    CortesNonEmpty();
    EntradasKeys(Rfc(t), RazonSocial(t),
                 PatternValue(t, "Código Postal", "Tipo de Vialidad", []),
                 PatternValue(t, "Nombre de Vialidad", "Número Exterior", []),
                 PatternValue(t, "Número Exterior", "Número Interior", []),
                 PatternValue(t, "Número Interior", "Nombre de la Colonia", []),
                 PatternValue(t, "Nombre de la Colonia", "Nombre de la Localidad", CortesColonia),
                 PatternValue(t, "Nombre de la Localidad", "Nombre del Municipio o Demarcación Territorial",
                              CortesLocalidad),
                 PatternValue(t, "Nombre del Municipio o Demarcación Territorial",
                              "Nombre de la Entidad Federativa", CortesMunicipio),
                 PatternValue(t, "Nombre de la Entidad Federativa", "Tipo de Vialidad", []),
                 PatternValue(t, "Régimen", "", []));
  }

  /** `extraer_datos`. */
  method ExtraerDatos(texto: string) returns (datos: Entries)
    ensures datos == Datos(texto)
  {
    var rfc := Rfc(texto);

    var razon := BuscarRazon(texto);

    CortesNonEmpty();

    var cp := BuscarPatron(texto, "Código Postal", "Tipo de Vialidad", []);
    var vialidad := BuscarPatron(texto, "Nombre de Vialidad", "Número Exterior", []);
    var noExt := BuscarPatron(texto, "Número Exterior", "Número Interior", []);
    var noInt := BuscarPatron(texto, "Número Interior", "Nombre de la Colonia", []);
    var colonia := BuscarPatron(texto, "Nombre de la Colonia", "Nombre de la Localidad",
                                CortesColonia);
    var localidad := BuscarPatron(texto, "Nombre de la Localidad", "Nombre del Municipio o Demarcación Territorial",
                                  CortesLocalidad);
    var municipio := BuscarPatron(texto, "Nombre del Municipio o Demarcación Territorial",
                                  "Nombre de la Entidad Federativa",
                                  CortesMunicipio);
    var estado := BuscarPatron(texto, "Nombre de la Entidad Federativa", "Tipo de Vialidad", []);
    var regimen := BuscarPatron(texto, "Régimen", "", []);

    datos := [
      ("RFC", rfc),
      ("Razón Social", razon),
      ("Código Postal", cp),
      ("Vialidad", vialidad),
      ("Número Exterior", noExt),
      ("Número Interior", noInt),
      ("Colonia", colonia),
      ("Localidad", localidad),
      ("Municipio/Demarcación", municipio),
      ("Estado", estado),
      ("Régimen", regimen)
    ];
  }
}

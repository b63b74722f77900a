/**
 * The remote extractor of lectorqr.py: it finds the tax authority's verification link in the
 * text of a certificate, reads the fields from the verification page the link opens, and builds
 * one report row per uploaded file.
 *
 * The PDF library, the browser session and the web page are not modelled: a file is its name and
 * its page texts, and the rendered page is a `Page` value holding what the element lookups return.
 */
module LectorQr {
  import opened Wrappers
  import opened Text
  import opened Dict
  import opened Patterns

  /** What every field holds until a value is read for it. */
  const NoDetectado := "No detectado"

  /** The legal name of a file whose text has no verification link. */
  const SinLink := "No se encontró link en el PDF"

  // ---------------------------------------------------------------------------------------
  // procesar_pdf: the verification link
  // `https://verificacfdi\.facturaelectronica\.sat\.gob\.mx.*?re=[^&\s]+&fe=[^&\s]+`
  // ---------------------------------------------------------------------------------------

  const Scheme := "https://"
  const Host := Scheme + "verificacfdi.facturaelectronica.sat.gob.mx"

  /** The class `[^&\s]` of a query-parameter value. */
  predicate IsParamChar(c: char) {
    c != '&' && !IsSpace(c)
  }

  /** The end of the longest run of parameter characters starting at `i`. */
  function ParamEnd(t: string, i: nat): (e: nat)
    requires i <= |t|
    decreases |t| - i
    ensures i <= e <= |t|
    ensures forall k :: i <= k < e ==> IsParamChar(t[k])
    ensures e == |t| || !IsParamChar(t[e])
  {
    if i < |t| && IsParamChar(t[i]) then ParamEnd(t, i + 1) else i
  }

  /** The end of a match of `re=[^&\s]+&fe=[^&\s]+` at `j`. Both runs are greedy; the first one
      can only be followed by `&` at its maximal end, since every shorter run is followed by a
      character of the class, which is not `&`. */
  function TailEnd(t: string, j: nat): (r: Option<nat>)
    requires j <= |t|
    ensures r.Some? ==> j < r.value <= |t|
  {
    if !OccursAt(t, "re=", j) then None
    else
      var e1 := ParamEnd(t, j + 3);
      if e1 == j + 3 || !OccursAt(t, "&fe=", e1) then None
      else
        var e2 := ParamEnd(t, e1 + 4);
        if e2 == e1 + 4 then None else Some(e2)
  }

  /** The lazy `.*?` after the host: the shortest stretch, free of `\n`, after which the
      parameters match. */
  function LazyEnd(t: string, j: nat): (r: Option<nat>)
    requires j <= |t|
    decreases |t| - j
    ensures r.Some? ==> j < r.value <= |t|
  {
    match TailEnd(t, j)
    case Some(e) => Some(e)
    case None => if j < |t| && t[j] != '\n' then LazyEnd(t, j + 1) else None
  }

  /** The leftmost match at or after `p`. */
  function UrlFrom(t: string, p: nat): (r: Option<string>)
    decreases |t| + 1 - p
  {
    if p + |Host| > |t| then None
    else if OccursAt(t, Host, p) && LazyEnd(t, p + |Host|).Some? then Some(t[p..LazyEnd(t, p + |Host|).value])
    else UrlFrom(t, p + 1)
  }

  /** `re.search(...).group(0)` on one page's text. */
  function UrlIn(t: string): Option<string> {
    UrlFrom(t, 0)
  }

  /** `u` splits as the host, a stretch, `re=` at `i`, a value, `&fe=` at `k` and a value, where
      neither value is empty or holds whitespace or `&`. */
  predicate ParamsAt(u: string, i: int, k: int) {
    |Host| <= i && i + 3 < k && k + 4 < |u|
    && u[i..i + 3] == "re=" && u[k..k + 4] == "&fe="
    && (forall m :: i + 3 <= m < k ==> IsParamChar(u[m]))
    && (forall m :: k + 4 <= m < |u| ==> IsParamChar(u[m]))
  }

  /** The shape of a verification link. */
  ghost predicate IsVerificationUrl(u: string) {
    |Host| <= |u| && u[..|Host|] == Host && exists i, k :: ParamsAt(u, i, k)
  }

  /** A slice of a slice is a slice of the whole. */
  lemma SubSlice(t: string, p: nat, e: nat, a: nat, b: nat)
    requires p <= e <= |t| && a <= b <= e - p
    ensures t[p..e][a..b] == t[p + a..p + b]
  {
    forall x | 0 <= x < b - a ensures t[p..e][a..b][x] == t[p + a..p + b][x] {
    }
  }

  /** The parameters matched at `j` give the split of a link that starts at `p`. */
  lemma TailEndShape(t: string, p: nat, j: nat)
    requires p + |Host| <= j <= |t| && TailEnd(t, j).Some?
    ensures exists i, k :: ParamsAt(t[p..TailEnd(t, j).value], i, k)
  {
    var e1 := ParamEnd(t, j + 3);
    var e2 := TailEnd(t, j).value;
    assert OccursAt(t, "re=", j) && OccursAt(t, "&fe=", e1);
    assert e2 == ParamEnd(t, e1 + 4) && j + 3 < e1 && e1 + 4 < e2;
    var u := t[p..e2];
    var i, k := j - p, e1 - p;
    SubSlice(t, p, e2, i, i + 3);
    SubSlice(t, p, e2, k, k + 4);
    forall m | i + 3 <= m < k ensures IsParamChar(u[m]) {
      assert u[m] == t[m + p];
    }
    forall m | k + 4 <= m < |u| ensures IsParamChar(u[m]) {
      assert u[m] == t[m + p];
    }
    assert ParamsAt(u, i, k);
  }

  /** The lazy stretch ends where the parameters matched at some position at or after `j`. */
  lemma {:induction false} LazyEndTail(t: string, j: nat)
    requires j <= |t| && LazyEnd(t, j).Some?
    ensures exists j' :: j <= j' <= |t| && TailEnd(t, j') == LazyEnd(t, j)
    decreases |t| - j
  {
    if TailEnd(t, j).None? {
      LazyEndTail(t, j + 1);
    }
  }

  /** A link found in a page's text is a slice of that text and has the shape of a verification
      link. */
  lemma {:induction false} UrlFromShape(t: string, p: nat)
    requires UrlFrom(t, p).Some?
    ensures IsVerificationUrl(UrlFrom(t, p).value)
    ensures exists a, b :: 0 <= a <= b <= |t| && UrlFrom(t, p).value == t[a..b]
    decreases |t| + 1 - p
  {
    if !(OccursAt(t, Host, p) && LazyEnd(t, p + |Host|).Some?) {
      UrlFromShape(t, p + 1);
    } else {
      var q := p + |Host|;
      LazyEndTail(t, q);
      var j' :| q <= j' <= |t| && TailEnd(t, j') == LazyEnd(t, q);
      TailEndShape(t, p, j');
      var u := UrlFrom(t, p).value;
      assert u == t[p..LazyEnd(t, q).value];
      assert u[..|Host|] == t[p..q];
    }
  }

  /** `t[a..b]` holds no line break, so the lazy `.*?` can cover it. */
  predicate Stretch(t: string, a: int, b: int) {
    0 <= a <= b <= |t| && forall k :: a <= k < b ==> t[k] != '\n'
  }

  /** The link regex matches at `p` with its lazy stretch ending at `j`, where the parameters
      `re=...&fe=...` begin. */
  predicate UrlMatchAt(t: string, p: int, j: int) {
    OccursAt(t, Host, p) && Stretch(t, p + |Host|, j) && TailEnd(t, j).Some?
  }

  /** The parameters match at no position of `[a, b)`. */
  ghost predicate NoTailIn(t: string, a: int, b: int) {
    0 <= a && b <= |t| && forall k :: a <= k < b ==> TailEnd(t, k).None?
  }

  /** The parameters match at no position reached from `j` without crossing a line break. */
  ghost predicate NoTailReach(t: string, j: int) {
    forall j': int :: Stretch(t, j, j') ==> TailEnd(t, j').None?
  }

  /** The lazy stretch from `j` stops at the first position, reached without crossing a line
      break, where the parameters match, and there is none exactly when no such position exists. */
  lemma {:induction false} LazyEndLeast(t: string, j: nat)
    requires j <= |t|
    decreases |t| - j
    ensures LazyEnd(t, j).None? <==> NoTailReach(t, j)
    ensures LazyEnd(t, j).Some? ==>
            exists j': int :: Stretch(t, j, j') && TailEnd(t, j') == LazyEnd(t, j) && NoTailIn(t, j, j')
  {
    if TailEnd(t, j).Some? {
      assert Stretch(t, j, j) && NoTailIn(t, j, j);
    } else if j < |t| && t[j] != '\n' {
      LazyEndLeast(t, j + 1);
      assert LazyEnd(t, j) == LazyEnd(t, j + 1);
      if NoTailReach(t, j + 1) {
        forall j': int | Stretch(t, j, j') ensures TailEnd(t, j').None? {
          if j < j' {
            assert Stretch(t, j + 1, j');
          }
        }
      }
      if NoTailReach(t, j) {
        forall j': int | Stretch(t, j + 1, j') ensures TailEnd(t, j').None? {
          assert Stretch(t, j, j');
        }
      }
      if LazyEnd(t, j).Some? {
        var j': int :| Stretch(t, j + 1, j') && TailEnd(t, j') == LazyEnd(t, j + 1) && NoTailIn(t, j + 1, j');
        assert Stretch(t, j, j') && NoTailIn(t, j, j');
      }
    } else {
      forall j': int | Stretch(t, j, j') ensures TailEnd(t, j').None? {
        assert j' == j;
      }
    }
  }

  /** Where `UrlFrom` does not stop at `p`, the regex has no match at `p`. */
  lemma UrlMissedAt(t: string, p: nat)
    requires !(OccursAt(t, Host, p) && LazyEnd(t, p + |Host|).Some?)
    ensures forall j: int :: !UrlMatchAt(t, p, j)
  {
    if OccursAt(t, Host, p) {
      LazyEndLeast(t, p + |Host|);
    }
  }

  /** The regex has no match starting at or after `p`. */
  ghost predicate NoUrlMatchFrom(t: string, p: int) {
    forall q: int, j: int :: p <= q ==> !UrlMatchAt(t, q, j)
  }

  /** Nothing is found from `p` on exactly when the regex matches nowhere from `p` on. */
  lemma {:induction false} UrlFromNone(t: string, p: nat)
    decreases |t| + 1 - p
    ensures UrlFrom(t, p).None? <==> NoUrlMatchFrom(t, p)
  {
    if p + |Host| > |t| {
      forall q: int, j: int | p <= q ensures !UrlMatchAt(t, q, j) {
        assert !OccursAt(t, Host, q);
      }
    } else if OccursAt(t, Host, p) && LazyEnd(t, p + |Host|).Some? {
      LazyEndLeast(t, p + |Host|);
      var j': int :| Stretch(t, p + |Host|, j') && TailEnd(t, j') == LazyEnd(t, p + |Host|);
      assert UrlMatchAt(t, p, j');
    } else {
      UrlMissedAt(t, p);
      UrlFromNone(t, p + 1);
      assert UrlFrom(t, p) == UrlFrom(t, p + 1);
      if NoUrlMatchFrom(t, p + 1) {
        forall q: int, j: int | p <= q ensures !UrlMatchAt(t, q, j) {
          if p < q {
            assert p + 1 <= q;
          }
        }
      }
    }
  }

  /** The regex has no match starting in `[a, b)`. */
  ghost predicate NoUrlMatchIn(t: string, a: int, b: int) {
    forall q: int, j: int :: a <= q < b ==> !UrlMatchAt(t, q, j)
  }

  /** No match at `q` has a shorter stretch than the one ending at `j`. */
  ghost predicate ShortestAt(t: string, q: int, j: int) {
    forall j': int :: j' < j ==> !UrlMatchAt(t, q, j')
  }

  /** A found link is the leftmost match: it starts at the first position where the regex
      matches, and its lazy stretch is the shortest one after which the parameters match. */
  lemma {:induction false} UrlFromFound(t: string, p: nat)
    requires UrlFrom(t, p).Some?
    decreases |t| + 1 - p
    ensures exists q: int, j: int ::
              p <= q && UrlMatchAt(t, q, j) && UrlFrom(t, p).value == t[q..TailEnd(t, j).value]
              && ShortestAt(t, q, j) && NoUrlMatchIn(t, p, q)
  {
    if OccursAt(t, Host, p) && LazyEnd(t, p + |Host|).Some? {
      LazyEndLeast(t, p + |Host|);
      var j: int :| Stretch(t, p + |Host|, j) && TailEnd(t, j) == LazyEnd(t, p + |Host|)
                    && NoTailIn(t, p + |Host|, j);
      assert UrlMatchAt(t, p, j);
      assert ShortestAt(t, p, j);
      assert NoUrlMatchIn(t, p, p);
    } else {
      UrlMissedAt(t, p);
      UrlFromFound(t, p + 1);
      var q: int, j: int :| p + 1 <= q && UrlMatchAt(t, q, j) && UrlFrom(t, p + 1).value == t[q..TailEnd(t, j).value]
                            && ShortestAt(t, q, j) && NoUrlMatchIn(t, p + 1, q);
      assert NoUrlMatchIn(t, p, q);
    }
  }

  /** `re.search` on a page: no link exactly when the regex matches nowhere in the text, and a
      found link runs from the leftmost match position to the end of the parameters after the
      shortest line-break-free stretch. */
  lemma UrlInSpec(t: string)
    ensures UrlIn(t).None? <==> NoUrlMatchFrom(t, 0)
    ensures UrlIn(t).Some? ==>
            exists q: int, j: int ::
              0 <= q && UrlMatchAt(t, q, j) && UrlIn(t).value == t[q..TailEnd(t, j).value]
              && ShortestAt(t, q, j) && NoUrlMatchIn(t, 0, q)
  {
    UrlFromNone(t, 0);
    if UrlIn(t).Some? {
      UrlFromFound(t, 0);
    }
  }

  /** The index of the first page, at or after `from`, whose text holds a link. */
  function FirstLinkPage(paginas: seq<string>, from: nat): (r: Option<nat>)
    decreases |paginas| - from
    ensures r.Some? ==> from <= r.value < |paginas| && UrlIn(paginas[r.value]).Some?
                        && forall j :: from <= j < r.value ==> UrlIn(paginas[j]).None?
    ensures r.None? ==> forall j :: from <= j < |paginas| ==> UrlIn(paginas[j]).None?
  {
    if from >= |paginas| then None
    else if UrlIn(paginas[from]).Some? then Some(from)
    else FirstLinkPage(paginas, from + 1)
  }

  /** The link `procesar_pdf` returns for a document with the page texts `paginas`. */
  function LinkOf(paginas: seq<string>): Option<string> {
    match FirstLinkPage(paginas, 0)
    case Some(i) => UrlIn(paginas[i])
    case None => None
  }

  /** `procesar_pdf`: the page loop with its early return. */
  method ProcesarPdf(paginas: seq<string>) returns (link: Option<string>)
    ensures link == LinkOf(paginas)
  {
    for i := 0 to |paginas|
      invariant FirstLinkPage(paginas, 0) == FirstLinkPage(paginas, i)
    {
      var m := UrlIn(paginas[i]);
      if m.Some? {
        return m;
      }
    }
    return None;
  }

  /** The link of a document is the whole match on the first page, in page order, that has one;
      there is none exactly when no page has one. Matches are never combined across pages, and
      every link has the shape of a verification link. */
  lemma LinkOfSpec(paginas: seq<string>)
    ensures LinkOf(paginas).None? <==> forall i :: 0 <= i < |paginas| ==> UrlIn(paginas[i]).None?
    ensures LinkOf(paginas).Some? ==>
            (exists i :: 0 <= i < |paginas| && LinkOf(paginas) == UrlIn(paginas[i])
                         && forall j :: 0 <= j < i ==> UrlIn(paginas[j]).None?)
            && IsVerificationUrl(LinkOf(paginas).value)
  {
    match FirstLinkPage(paginas, 0)
    case None =>
    case Some(i) =>
      UrlFromShape(paginas[i], 0);
  }

  /** Every link passes the `qr_data.startswith("http")` test of the batch loop. */
  lemma LinkStartsWithHttp(u: string)
    requires IsVerificationUrl(u)
    ensures |u| >= 4 && u[..4] == "http"
  {
    assert u[..4] == u[..|Host|][..4];
    assert Host[..4] == "http";
  }

  // ---------------------------------------------------------------------------------------
  // extraer_datos_desde_pagina: the verification page
  // ---------------------------------------------------------------------------------------

  /** A table row: the text of each of its `td` cells. */
  type Row = seq<string>

  /** What the element lookups on the rendered page return. `li` is the inner text of the list
      item holding the RFC, or `None` when waiting for it or looking it up fails; `datos` are the
      rows of the `ui-datatable-data` table, or `None` when waiting for it fails; `grids` are the
      rows of each `table[@role='grid']`, in document order. */
  datatype Page = Page(li: Option<string>, datos: Option<seq<Row>>, grids: seq<seq<Row>>)

  const NameKey := "Nombre o Razón Social"
  const RfcKey := "RFC"

  /** The nine further fields, in the order of `campos`. */
  const Campos: seq<string> := [
    "Entidad Federativa", "Municipio", "Colonia", "Nombre de la vialidad",
    "Número exterior", "Número interior", "CP", "Régimen Fiscal", "Fecha de alta"
  ]

  /** The keys of the result, in order. */
  const RemoteKeys: seq<string> := [NameKey, RfcKey] + Campos

  /** A result with the given legal name, RFC and field values, in key order. */
  function Build(nombre: string, rfc: string, vals: seq<string>): (d: Entries)
    requires |vals| == |Campos|
    ensures |d| == |RemoteKeys|
  {
    [(NameKey, nombre), (RfcKey, rfc)] + seq(|Campos|, k requires 0 <= k < |Campos| => (Campos[k], vals[k]))
  }

  /** Nine "No detectado". */
  const Pendientes: seq<string> := [
    NoDetectado, NoDetectado, NoDetectado, NoDetectado, NoDetectado,
    NoDetectado, NoDetectado, NoDetectado, NoDetectado
  ]

  /** `resultado` once every key is set to "No detectado". */
  function Inicial(): Entries {
    Build(NoDetectado, NoDetectado, Pendientes)
  }

  lemma RemoteKeysDistinct()
    ensures Distinct(RemoteKeys)
  {
  }

  lemma BuildKeys(nombre: string, rfc: string, vals: seq<string>)
    requires |vals| == |Campos|
    ensures Keys(Build(nombre, rfc, vals)) == RemoteKeys
  {
    var d := Build(nombre, rfc, vals);
    forall i | 0 <= i < |d| ensures Keys(d)[i] == RemoteKeys[i] {
      if i >= 2 {
        assert d[i] == (Campos[i - 2], vals[i - 2]);
      }
    }
  }

  /** `resultado[campo] = v`, `resultado["RFC"] = v` and `resultado["Nombre o Razón Social"] = v`
      on a full result replace that one value and keep the key order. */
  lemma SetCampo(nombre: string, rfc: string, vals: seq<string>, k: nat, v: string)
    requires |vals| == |Campos| && k < |Campos|
    ensures Set(Build(nombre, rfc, vals), Campos[k], v) == Build(nombre, rfc, vals[k := v])
  {
    var d := Build(nombre, rfc, vals);
    BuildKeys(nombre, rfc, vals);
    RemoteKeysDistinct();
    assert d[k + 2].0 == Campos[k];
    SetAt(d, k + 2, v);
  }

  lemma SetRfc(nombre: string, rfc: string, vals: seq<string>, v: string)
    requires |vals| == |Campos|
    ensures Set(Build(nombre, rfc, vals), RfcKey, v) == Build(nombre, v, vals)
  {
    var d := Build(nombre, rfc, vals);
    BuildKeys(nombre, rfc, vals);
    RemoteKeysDistinct();
    SetAt(d, 1, v);
  }

  lemma SetNombre(nombre: string, rfc: string, vals: seq<string>, v: string)
    requires |vals| == |Campos|
    ensures Set(Build(nombre, rfc, vals), NameKey, v) == Build(v, rfc, vals)
  {
    var d := Build(nombre, rfc, vals);
    BuildKeys(nombre, rfc, vals);
    RemoteKeysDistinct();
    SetAt(d, 0, v);
  }

  // ---------------------------------------------------------------------------------------
  // The RFC on the verification page: `RFC[:\s]+([A-ZÑ&]{3,4}\d{6}[A-Z0-9]{3})`
  // ---------------------------------------------------------------------------------------

  /** The regex matches at `p` with its group starting at `s` and `n1` leading letters: `RFC`,
      a non-empty run of colons and whitespace up to `s`, then the group. */
  ghost predicate RemoteMatch(t: string, p: int, s: int, n1: nat) {
    (n1 == 3 || n1 == 4) && OccursAt(t, "RFC", p) && p + 3 < s <= |t|
    && SkipsUpTo(t, Field, p + 3, s) && RfcShapeAt(t, s, n1, 3)
  }

  /** The group matched at `p`: the separator run is greedy, and no shorter run can be followed
      by the group, whose first character is neither a colon nor whitespace; the letter count
      tries 4 before 3. */
  function RemoteGroupAt(t: string, p: nat): (r: Option<string>)
    ensures r.Some? ==> IsRfc(r.value, 4, 3) || IsRfc(r.value, 3, 3)
  {
    if !OccursAt(t, "RFC", p) then None
    else
      var s := SkipEnd(t, Field, p + 3);
      if s == p + 3 then None
      else if RfcShapeAt(t, s, 4, 3) then RfcShapeSlice(t, s, 4, 3); Some(t[s..s + 13])
      else if RfcShapeAt(t, s, 3, 3) then RfcShapeSlice(t, s, 3, 3); Some(t[s..s + 12])
      else None
  }

  /** The leftmost match at or after `p`. */
  function RemoteRfcFrom(t: string, p: nat): (r: Option<string>)
    decreases |t| + 1 - p
    ensures r.Some? ==> IsRfc(r.value, 4, 3) || IsRfc(r.value, 3, 3)
  {
    if p > |t| then None
    else match RemoteGroupAt(t, p)
      case Some(g) => Some(g)
      case None => RemoteRfcFrom(t, p + 1)
  }

  /** The group of `re.search` on the list item's text, stripped and upper-cased. */
  function RemoteRfc(li: string): Option<string> {
    RemoteRfcFrom(Upper(Strip(li)), 0)
  }

  /** Whatever the regex engine tries, the group of a match at `p` starts where the separator
      run ends. */
  lemma GroupStartsAfterSeparators(t: string, p: nat, s: int, n1: nat)
    requires RemoteMatch(t, p, s, n1)
    ensures s == SkipEnd(t, Field, p + 3)
  {
    assert IsRfcLetter(t[s]);
    assert !Skips(Field, t[s]);
  }

  /** A group found at `p` comes from a match there, the one with four letters when there is one. */
  lemma RemoteGroupFound(t: string, p: nat)
    requires RemoteGroupAt(t, p).Some?
    ensures exists s: int, n1: nat :: RemoteMatch(t, p, s, n1) && RemoteGroupAt(t, p).value == t[s..s + n1 + 9]
                                      && (n1 == 3 ==> !RemoteMatch(t, p, s, 4))
  {
    var s := SkipEnd(t, Field, p + 3);
    if RfcShapeAt(t, s, 4, 3) {
      assert RemoteMatch(t, p, s, 4);
    } else {
      assert RemoteMatch(t, p, s, 3);
    }
  }

  /** Where the regex matches, `RemoteGroupAt` finds a group. */
  lemma RemoteGroupMissed(t: string, p: nat, s: int, n1: nat)
    requires RemoteMatch(t, p, s, n1)
    ensures RemoteGroupAt(t, p).Some?
  {
    GroupStartsAfterSeparators(t, p, s, n1);
  }

  /** Nothing is found from `p` on exactly when the regex matches nowhere from `p` on. */
  lemma {:induction false} RemoteRfcFromNone(t: string, p: nat)
    decreases |t| + 1 - p
    ensures RemoteRfcFrom(t, p).None? <==> forall q: int, s: int, n1: nat :: p <= q ==> !RemoteMatch(t, q, s, n1)
  {
    if p <= |t| {
      if RemoteGroupAt(t, p).Some? {
        RemoteGroupFound(t, p);
      } else {
        forall s: int, n1: nat ensures !RemoteMatch(t, p, s, n1) {
          if RemoteMatch(t, p, s, n1) {
            RemoteGroupMissed(t, p, s, n1);
          }
        }
        RemoteRfcFromNone(t, p + 1);
      }
    }
  }

  /** The RFC read from the page is the group of the leftmost match, with four letters when that
      match allows it, and as a string it has the shape of a tax identifier. */
  lemma {:induction false} RemoteRfcFromFound(t: string, p: nat)
    requires RemoteRfcFrom(t, p).Some?
    decreases |t| + 1 - p
    ensures exists q: int, s: int, n1: nat ::
              p <= q && RemoteMatch(t, q, s, n1) && RemoteRfcFrom(t, p).value == t[s..s + n1 + 9]
              && (n1 == 3 ==> !RemoteMatch(t, q, s, 4)) && IsRfc(RemoteRfcFrom(t, p).value, n1, 3)
              && forall q': int, s': int, n1': nat :: p <= q' < q ==> !RemoteMatch(t, q', s', n1')
  {
    if RemoteGroupAt(t, p).Some? {
      RemoteGroupFound(t, p);
      var s: int, n1: nat :| RemoteMatch(t, p, s, n1) && RemoteGroupAt(t, p).value == t[s..s + n1 + 9]
                            && (n1 == 3 ==> !RemoteMatch(t, p, s, 4));
      RfcShapeSlice(t, s, n1, 3);
    } else {
      forall s: int, n1: nat ensures !RemoteMatch(t, p, s, n1) {
        if RemoteMatch(t, p, s, n1) {
          RemoteGroupMissed(t, p, s, n1);
        }
      }
      RemoteRfcFromFound(t, p + 1);
      var q: int, s: int, n1: nat :| p + 1 <= q && RemoteMatch(t, q, s, n1) && RemoteRfcFrom(t, p + 1).value == t[s..s + n1 + 9]
                                    && (n1 == 3 ==> !RemoteMatch(t, q, s, 4)) && IsRfc(RemoteRfcFrom(t, p + 1).value, n1, 3)
                                    && forall q': int, s': int, n1': nat :: p + 1 <= q' < q ==> !RemoteMatch(t, q', s', n1');
      assert forall q': int, s': int, n1': nat :: p <= q' < q ==> !RemoteMatch(t, q', s', n1');
    }
  }

  /** A found RFC is never the "No detectado" placeholder, so the placeholder in the RFC field
      means that nothing matched. */
  lemma RemoteRfcNotPlaceholder(r: string, n1: nat)
    requires IsRfc(r, n1, 3)
    ensures r != NoDetectado
  {
    if |r| == |NoDetectado| {
      assert IsRfcLetter(r[1]);
      assert NoDetectado[1] == 'o';
    }
  }

  // ---------------------------------------------------------------------------------------
  // The legal name on the verification page: the rows of the `ui-datatable-data` table
  // ---------------------------------------------------------------------------------------

  /** `cell.text.strip().upper()` */
  function Celda(c: string): string {
    Upper(Strip(c))
  }

  /** A row whose label names the legal name of a company. */
  predicate EsDenominacion(fila: Row) {
    |fila| >= 2 && (Contains(Celda(fila[0]), "DENOMINACIÓN") || Contains(Celda(fila[0]), "RAZÓN SOCIAL"))
  }

  /** The legal-name entry and the parts of a person's name read so far. */
  datatype Nombres = Nombres(razon: string, nombre: string, paterno: string, materno: string)

  /** One row of the name loop. Rows with fewer than two cells are skipped; the first label test
      that holds wins; a given name is only taken while no first surname has been read. */
  function LeerFila(n: Nombres, fila: Row): Nombres {
    if |fila| < 2 then n
    else
      var etiqueta := Celda(fila[0]);
      var valor := Celda(fila[1]);
      if EsDenominacion(fila) then n.(razon := valor)
      else if Contains(etiqueta, "NOMBRE") && n.paterno == "" then n.(nombre := valor)
      else if Contains(etiqueta, "PATERNO") then n.(paterno := valor)
      else if Contains(etiqueta, "MATERNO") then n.(materno := valor)
      else n
  }

  /** The name loop over `filas`, from the state `n`. */
  function LeerFilas(n: Nombres, filas: seq<Row>): Nombres
    decreases |filas|
  {
    if filas == [] then n else LeerFila(LeerFilas(n, filas[..|filas| - 1]), filas[|filas| - 1])
  }

  /** The legal name the page gives: the person's full name when both a given name and a first
      surname were read, otherwise the last company-name row, or "No detectado". */
  function Titular(filas: seq<Row>): string {
    var n := LeerFilas(Nombres(NoDetectado, "", "", ""), filas);
    if n.nombre != "" && n.paterno != "" then n.nombre + " " + n.paterno + " " + n.materno else n.razon
  }

  /** The position of the last `true` in `bs`. */
  function Ultima(bs: seq<bool>): (r: Option<nat>)
    decreases |bs|
    ensures r.Some? ==> r.value < |bs| && bs[r.value] && forall j :: r.value < j < |bs| ==> !bs[j]
    ensures r.None? ==> forall j :: 0 <= j < |bs| ==> !bs[j]
  {
    if bs == [] then None
    else if bs[|bs| - 1] then Some(|bs| - 1)
    else Ultima(bs[..|bs| - 1])
  }

  /** Which rows of `filas` are company-name rows. */
  function Denominaciones(filas: seq<Row>): (bs: seq<bool>)
    ensures |bs| == |filas|
  {
    seq(|filas|, j requires 0 <= j < |filas| => EsDenominacion(filas[j]))
  }

  /** The company name entry holds the value of the last company-name row, and keeps its
      starting value when there is none; the parts of a person's name never touch it. */
  lemma {:induction false} RazonEsUltima(n: Nombres, filas: seq<Row>)
    decreases |filas|
    ensures LeerFilas(n, filas).razon ==
            (match Ultima(Denominaciones(filas))
             case Some(i) => Celda(filas[i][1])
             case None => n.razon)
  {
    if filas != [] {
      var init := filas[..|filas| - 1];
      var bs := Denominaciones(filas);
      RazonEsUltima(n, init);
      assert bs[..|filas| - 1] == Denominaciones(init);
      RazonPaso(LeerFilas(n, init), filas[|filas| - 1]);
      if !bs[|filas| - 1] {
        assert Ultima(bs) == Ultima(Denominaciones(init));
        match Ultima(Denominaciones(init))
        case Some(i) => assert filas[i] == init[i];
        case None =>
      }
    }
  }

  /** One row sets the company name entry exactly when it is a company-name row. */
  lemma RazonPaso(n: Nombres, fila: Row)
    ensures LeerFila(n, fila).razon == if EsDenominacion(fila) then Celda(fila[1]) else n.razon
  {
  }

  /** The given name changes only on a row whose label says NOMBRE and is not a company-name
      label, while the first surname read so far is empty; a non-empty first surname blocks
      given-name rows until a later PATERNO row sets it back to empty. */
  lemma NombreSoloSinPaterno(n: Nombres, fila: Row)
    ensures LeerFila(n, fila).nombre != n.nombre ==>
            |fila| >= 2 && !EsDenominacion(fila) && Contains(Celda(fila[0]), "NOMBRE") && n.paterno == ""
    ensures n.paterno != "" ==> LeerFila(n, fila).nombre == n.nombre
  {
  }

  /** Without a company-name row and without both a given name and a first surname the legal
      name stays "No detectado". */
  lemma TitularNoDetectado(filas: seq<Row>)
    requires forall j :: 0 <= j < |filas| ==> !EsDenominacion(filas[j])
    requires var n := LeerFilas(Nombres(NoDetectado, "", "", ""), filas); n.nombre == "" || n.paterno == ""
    ensures Titular(filas) == NoDetectado
  {
    RazonEsUltima(Nombres(NoDetectado, "", "", ""), filas);
  }

  // ---------------------------------------------------------------------------------------
  // The fields on the verification page: the rows of every `table[@role='grid']`
  // ---------------------------------------------------------------------------------------

  /** `campo.upper() in label` on a row with at least two cells. */
  predicate Coincide(fila: Row, campo: string) {
    |fila| >= 2 && Contains(Celda(fila[0]), Upper(campo))
  }

  /** Which rows of `filas` name `campo`. */
  function Coincidencias(filas: seq<Row>, campo: string): (bs: seq<bool>)
    ensures |bs| == |filas|
  {
    seq(|filas|, j requires 0 <= j < |filas| => Coincide(filas[j], campo))
  }

  /** The value the page gives for `campo`: the stripped second cell of the last row that names
      it, or "No detectado". */
  function ValorCampo(filas: seq<Row>, campo: string): string {
    match Ultima(Coincidencias(filas, campo))
    case Some(i) => Strip(filas[i][1])
    case None => NoDetectado
  }

  /** The values of the nine fields, in the order of `Campos`. */
  function Valores(filas: seq<Row>): (vals: seq<string>)
    ensures |vals| == |Campos|
  {
    seq(|Campos|, k requires 0 <= k < |Campos| => ValorCampo(filas, Campos[k]))
  }

  /** The rows of all the grid tables, in document order. */
  function Aplanar(tablas: seq<seq<Row>>): seq<Row>
    decreases |tablas|
  {
    if tablas == [] then [] else Aplanar(tablas[..|tablas| - 1]) + tablas[|tablas| - 1]
  }

  /** The field loop of one row, over the first `k` fields: each one whose upper-cased name the
      label holds takes the row's value. */
  function AnotarHasta(vals: seq<string>, fila: Row, k: nat): (r: seq<string>)
    requires |vals| == |Campos|
    ensures |r| == |Campos|
  {
    seq(|Campos|, j requires 0 <= j < |Campos| => if j < k && Coincide(fila, Campos[j]) then Strip(fila[1]) else vals[j])
  }

  /** The whole field loop of one row. */
  function Anotar(vals: seq<string>, fila: Row): (r: seq<string>)
    requires |vals| == |Campos|
    ensures |r| == |Campos|
  {
    AnotarHasta(vals, fila, |Campos|)
  }

  lemma AnotarHastaPaso(vals: seq<string>, fila: Row, k: nat)
    requires |vals| == |Campos| && k < |Campos|
    ensures AnotarHasta(vals, fila, k + 1) ==
            if Coincide(fila, Campos[k]) then AnotarHasta(vals, fila, k)[k := Strip(fila[1])] else AnotarHasta(vals, fila, k)
  {
  }

  /** A further row overrides exactly the fields whose name its label holds. */
  lemma ValorCampoPaso(filas: seq<Row>, fila: Row, campo: string)
    ensures ValorCampo(filas + [fila], campo) ==
            if Coincide(fila, campo) then Strip(fila[1]) else ValorCampo(filas, campo)
  {
    var bs := Coincidencias(filas + [fila], campo);
    assert bs[..|filas|] == Coincidencias(filas, campo);
    if !Coincide(fila, campo) {
      match Ultima(Coincidencias(filas, campo))
      case Some(i) => assert (filas + [fila])[i] == filas[i];
      case None =>
    }
  }

  lemma ValoresPaso(filas: seq<Row>, fila: Row)
    ensures Valores(filas + [fila]) == Anotar(Valores(filas), fila)
  {
    forall k | 0 <= k < |Campos| ensures Valores(filas + [fila])[k] == Anotar(Valores(filas), fila)[k] {
      ValorCampoPaso(filas, fila, Campos[k]);
    }
  }

  /** Without rows every field is "No detectado". */
  lemma ValoresVacios()
    ensures Valores([]) == Pendientes
  {
  }

  /** A field holds the value of the last row, over all grid tables, whose label names it, and
      "No detectado" when no row names it. */
  lemma {:induction false} ValorCampoSpec(filas: seq<Row>, campo: string)
    ensures (forall j :: 0 <= j < |filas| ==> !Coincide(filas[j], campo)) ==> ValorCampo(filas, campo) == NoDetectado
    ensures forall i :: 0 <= i < |filas| && Coincide(filas[i], campo)
                        && (forall j :: i < j < |filas| ==> !Coincide(filas[j], campo))
                        ==> ValorCampo(filas, campo) == Strip(filas[i][1])
  {
    var bs := Coincidencias(filas, campo);
    match Ultima(bs)
    case None =>
      assert forall j :: 0 <= j < |filas| ==> !Coincide(filas[j], campo) by {
        forall j | 0 <= j < |filas| ensures !Coincide(filas[j], campo) {
          assert !bs[j];
        }
      }
    case Some(u) =>
      assert Coincide(filas[u], campo) by { assert bs[u]; }
      forall i | 0 <= i < |filas| && Coincide(filas[i], campo) && (forall j :: i < j < |filas| ==> !Coincide(filas[j], campo))
        ensures i == u
      {
        assert bs[i];
      }
  }

  /** A row with fewer than two cells leaves the name state as it was. */
  lemma FilaCortaSinNombres(n: Nombres, fila: Row)
    requires |fila| < 2
    ensures LeerFila(n, fila) == n
  {
  }

  /** A row with fewer than two cells leaves every field value as it was. */
  lemma FilaCortaSinCampos(vals: seq<string>, fila: Row)
    requires |vals| == |Campos| && |fila| < 2
    ensures Anotar(vals, fila) == vals
  {
  }

  // ---------------------------------------------------------------------------------------
  // extraer_datos_desde_pagina
  // ---------------------------------------------------------------------------------------

  /** The result of `extraer_datos_desde_pagina` on a rendered page. A failed lookup ends the
      `try` block, so whatever was set before it stays and the rest keeps "No detectado". */
  function Resultado(pagina: Page): Entries {
    match pagina.li
    case None => Inicial()
    case Some(li) =>
      var rfc := RemoteRfc(li).GetOr(NoDetectado);
      match pagina.datos
      case None => Build(NoDetectado, rfc, Pendientes)
      case Some(filas) => Build(Titular(filas), rfc, Valores(Aplanar(pagina.grids)))
  }

  /** The keys of the initial result are distinct. */
  lemma InicialDistinct()
    ensures Distinct(Keys(Inicial()))
  {
    BuildKeys(NoDetectado, NoDetectado, Pendientes);
    RemoteKeysDistinct();
  }

  /** The assignments `resultado[campo] = "No detectado"` append the fields in order. */
  method ResultadoInicial() returns (resultado: Entries)
    ensures resultado == Inicial()
  {
    resultado := [(NameKey, NoDetectado), (RfcKey, NoDetectado)];
    InicialDistinct();
    for k := 0 to |Campos|
      invariant resultado == Inicial()[..k + 2]
    {
      assert Inicial()[k + 2] == (Campos[k], NoDetectado);
      SetPrefix(Inicial(), k + 2);
      resultado := Set(resultado, Campos[k], NoDetectado);
    }
  }

  /** The field loop of one row with at least two cells. */
  method AnotarFila(resultado: Entries, ghost nombre: string, ghost rfc: string, ghost vals: seq<string>, fila: Row)
    returns (r: Entries)
    requires |vals| == |Campos| && resultado == Build(nombre, rfc, vals) && |fila| >= 2
    ensures r == Build(nombre, rfc, Anotar(vals, fila))
  {
    var etiqueta := Celda(fila[0]);
    var valor := Strip(fila[1]);
    r := resultado;
    for k := 0 to |Campos|
      invariant r == Build(nombre, rfc, AnotarHasta(vals, fila, k))
    {
      AnotarHastaPaso(vals, fila, k);
      if Contains(etiqueta, Upper(Campos[k])) {
        SetCampo(nombre, rfc, AnotarHasta(vals, fila, k), k, valor);
        r := Set(r, Campos[k], valor);
      }
    }
  }

  /** The name loop over the rows of the data table, with the result's RFC already read. */
  method RecorrerNombres(resultado: Entries, ghost rfc: string, filas: seq<Row>)
    returns (r: Entries, nombre: string, paterno: string, materno: string)
    requires resultado == Build(NoDetectado, rfc, Pendientes)
    ensures var n := LeerFilas(Nombres(NoDetectado, "", "", ""), filas);
            r == Build(n.razon, rfc, Pendientes) && Nombres(n.razon, nombre, paterno, materno) == n
  {
    ghost var n0 := Nombres(NoDetectado, "", "", "");
    r := resultado;
    nombre, paterno, materno := "", "", "";
    for i := 0 to |filas|
      invariant r == Build(LeerFilas(n0, filas[..i]).razon, rfc, Pendientes)
      invariant Nombres(LeerFilas(n0, filas[..i]).razon, nombre, paterno, materno) == LeerFilas(n0, filas[..i])
    {
      ghost var n := LeerFilas(n0, filas[..i]);
      assert filas[..i + 1][..i] == filas[..i];
      var fila := filas[i];
      assert LeerFilas(n0, filas[..i + 1]) == LeerFila(n, fila);
      if |fila| >= 2 {
        var etiqueta := Celda(fila[0]);
        var valor := Celda(fila[1]);
        if Contains(etiqueta, "DENOMINACIÓN") || Contains(etiqueta, "RAZÓN SOCIAL") {
          SetNombre(n.razon, rfc, Pendientes, valor);
          r := Set(r, NameKey, valor);
        } else if Contains(etiqueta, "NOMBRE") && paterno == "" {
          nombre := valor;
        } else if Contains(etiqueta, "PATERNO") {
          paterno := valor;
        } else if Contains(etiqueta, "MATERNO") {
          materno := valor;
        }
      }
    }
    assert filas[..|filas|] == filas;
  }

  /** The field loop over the rows of one grid table, after the rows `previas` of the tables
      before it. */
  method RecorrerFilas(resultado: Entries, ghost titular: string, ghost rfc: string, ghost previas: seq<Row>,
                       filas: seq<Row>)
    returns (r: Entries)
    requires resultado == Build(titular, rfc, Valores(previas))
    ensures r == Build(titular, rfc, Valores(previas + filas))
  {
    r := resultado;
    assert previas + filas[..0] == previas;
    for f := 0 to |filas|
      invariant r == Build(titular, rfc, Valores(previas + filas[..f]))
    {
      ghost var vals := Valores(previas + filas[..f]);
      ValoresSiguiente(previas, filas, f);
      if |filas[f]| >= 2 {
        r := AnotarFila(r, titular, rfc, vals, filas[f]);
      } else {
        FilaCortaSinCampos(vals, filas[f]);
      }
    }
    assert filas[..|filas|] == filas;
  }

  /** One more row of a grid table updates the field values as one pass of the field loop. */
  lemma ValoresSiguiente(previas: seq<Row>, filas: seq<Row>, f: nat)
    requires f < |filas|
    ensures Valores(previas + filas[..f + 1]) == Anotar(Valores(previas + filas[..f]), filas[f])
  {
    assert previas + filas[..f + 1] == (previas + filas[..f]) + [filas[f]];
    ValoresPaso(previas + filas[..f], filas[f]);
  }

  /** The field loops over the rows of every grid table. */
  method RecorrerTablas(resultado: Entries, ghost titular: string, ghost rfc: string, tablas: seq<seq<Row>>)
    returns (r: Entries)
    requires resultado == Build(titular, rfc, Pendientes)
    ensures r == Build(titular, rfc, Valores(Aplanar(tablas)))
  {
    ValoresVacios();
    r := resultado;
    for g := 0 to |tablas|
      invariant r == Build(titular, rfc, Valores(Aplanar(tablas[..g])))
    {
      assert tablas[..g + 1][..g] == tablas[..g];
      r := RecorrerFilas(r, titular, rfc, Aplanar(tablas[..g]), tablas[g]);
    }
    assert tablas[..|tablas|] == tablas;
  }

  /** `extraer_datos_desde_pagina`, on the page the browser rendered. */
  method ExtraerDatosDesdePagina(pagina: Page) returns (resultado: Entries)
    ensures resultado == Resultado(pagina)
  {
    resultado := ResultadoInicial();
    if pagina.li.None? {
      return;
    }
    var texto := Upper(Strip(pagina.li.value));
    var rfc := NoDetectado;
    match RemoteRfcFrom(texto, 0) {
      case Some(g) =>
        SetRfc(NoDetectado, NoDetectado, Pendientes, g);
        resultado := Set(resultado, RfcKey, g);
        rfc := g;
      case None =>
    }
    if pagina.datos.None? {
      return;
    }
    var nombre, paterno, materno;
    resultado, nombre, paterno, materno := RecorrerNombres(resultado, rfc, pagina.datos.value);
    if nombre != "" && paterno != "" {
      SetNombre(LeerFilas(Nombres(NoDetectado, "", "", ""), pagina.datos.value).razon, rfc, Pendientes,
                nombre + " " + paterno + " " + materno);
      resultado := Set(resultado, NameKey, nombre + " " + paterno + " " + materno);
    }
    resultado := RecorrerTablas(resultado, Titular(pagina.datos.value), rfc, pagina.grids);
  }

  /** Reading a key back from a full result. */
  lemma GetBuild(nombre: string, rfc: string, vals: seq<string>, k: nat)
    requires |vals| == |Campos| && k < |Campos|
    ensures Get(Build(nombre, rfc, vals), NameKey) == Some(nombre)
    ensures Get(Build(nombre, rfc, vals), RfcKey) == Some(rfc)
    ensures Get(Build(nombre, rfc, vals), Campos[k]) == Some(vals[k])
  {
    var d := Build(nombre, rfc, vals);
    BuildKeys(nombre, rfc, vals);
    RemoteKeysDistinct();
    FindIs(d, NameKey, 0);
    assert RemoteKeys[0] != RemoteKeys[1];
    FindIs(d, RfcKey, 1);
    forall j | 0 <= j < k + 2 ensures d[j].0 != Campos[k] {
      assert Keys(d)[j] != Keys(d)[k + 2];
    }
    FindIs(d, Campos[k], k + 2);
  }

  /** Nothing is read from a list item exactly when nothing in its stripped, upper-cased text
      matches the RFC regex; a value read is never "No detectado". */
  lemma RemoteRfcNone(li: string)
    ensures RemoteRfc(li).GetOr(NoDetectado) == NoDetectado <==>
            forall q: int, s: int, n1: nat :: 0 <= q ==> !RemoteMatch(Upper(Strip(li)), q, s, n1)
  {
    RemoteRfcFromNone(Upper(Strip(li)), 0);
    if RemoteRfc(li).Some? {
      var r := RemoteRfc(li).value;
      if IsRfc(r, 4, 3) {
        RemoteRfcNotPlaceholder(r, 4);
      } else {
        RemoteRfcNotPlaceholder(r, 3);
      }
    }
  }

  /** The RFC read from a list item is the group of the leftmost match of the RFC regex in the
      stripped, upper-cased text, a tax identifier with 3 or 4 letters. */
  lemma RemoteRfcFound(li: string)
    requires RemoteRfc(li).Some?
    ensures exists q: int, s: int, n1: nat :: 0 <= q && RemoteMatch(Upper(Strip(li)), q, s, n1)
                                             && RemoteRfc(li).value == Upper(Strip(li))[s..s + n1 + 9]
                                             && (n1 == 3 ==> !RemoteMatch(Upper(Strip(li)), q, s, 4))
                                             && IsRfc(RemoteRfc(li).value, n1, 3)
                                             && forall q': int, s': int, n1': nat ::
                                                  0 <= q' < q ==> !RemoteMatch(Upper(Strip(li)), q', s', n1')
  {
    RemoteRfcFromFound(Upper(Strip(li)), 0);
  }

  /** The RFC field holds the RFC read from the list item, which a later failed lookup does not
      undo, and "No detectado" when the list item was not read. */
  lemma RfcDePagina(pagina: Page)
    ensures Get(Resultado(pagina), RfcKey) ==
            Some(match pagina.li case None => NoDetectado case Some(li) => RemoteRfc(li).GetOr(NoDetectado))
  {
    match pagina.li
    case None => GetBuild(NoDetectado, NoDetectado, Pendientes, 0);
    case Some(li) =>
      var rfc := RemoteRfc(li).GetOr(NoDetectado);
      match pagina.datos
      case None => GetBuild(NoDetectado, rfc, Pendientes, 0);
      case Some(filas) => GetBuild(Titular(filas), rfc, Valores(Aplanar(pagina.grids)), 0);
  }

  /** A field keeps "No detectado" when a lookup before the grids failed, and otherwise holds
      what the grid rows give for it. */
  lemma CampoLeido(pagina: Page, k: nat)
    requires k < |Campos|
    ensures Get(Resultado(pagina), Campos[k]) ==
            Some(if pagina.li.None? || pagina.datos.None? then NoDetectado else ValorCampo(Aplanar(pagina.grids), Campos[k]))
  {
    match pagina.li
    case None => GetBuild(NoDetectado, NoDetectado, Pendientes, k);
    case Some(li) =>
      var rfc := RemoteRfc(li).GetOr(NoDetectado);
      match pagina.datos
      case None => GetBuild(NoDetectado, rfc, Pendientes, k);
      case Some(filas) => GetBuild(Titular(filas), rfc, Valores(Aplanar(pagina.grids)), k);
  }

  /** Each of the nine fields holds the stripped value of the last row, over all grid tables in
      document order, whose label holds the field's upper-cased name, and "No detectado" when
      there is none or when a lookup before the grids failed. */
  lemma CampoDePagina(pagina: Page, k: nat)
    requires k < |Campos|
    ensures pagina.li.None? || pagina.datos.None? ==> Get(Resultado(pagina), Campos[k]) == Some(NoDetectado)
    ensures pagina.li.Some? && pagina.datos.Some? ==>
            var filas := Aplanar(pagina.grids);
            ((forall j :: 0 <= j < |filas| ==> !Coincide(filas[j], Campos[k]))
               ==> Get(Resultado(pagina), Campos[k]) == Some(NoDetectado))
            && forall i :: 0 <= i < |filas| && Coincide(filas[i], Campos[k])
                           && (forall j :: i < j < |filas| ==> !Coincide(filas[j], Campos[k]))
                           ==> Get(Resultado(pagina), Campos[k]) == Some(Strip(filas[i][1]))
  {
    CampoLeido(pagina, k);
    ValorCampoSpec(Aplanar(pagina.grids), Campos[k]);
  }

  /** The legal name is the person's full name when the data table gave both a given name and a
      first surname, otherwise the last company-name row's value, and "No detectado" when there
      is neither or a lookup failed. */
  lemma NombreDePagina(pagina: Page)
    ensures pagina.li.None? || pagina.datos.None? ==> Get(Resultado(pagina), NameKey) == Some(NoDetectado)
    ensures pagina.li.Some? && pagina.datos.Some? ==>
            var filas := pagina.datos.value;
            var n := LeerFilas(Nombres(NoDetectado, "", "", ""), filas);
            Get(Resultado(pagina), NameKey) ==
              if n.nombre != "" && n.paterno != "" then Some(n.nombre + " " + n.paterno + " " + n.materno)
              else match Ultima(Denominaciones(filas))
                   case Some(i) => Some(Celda(filas[i][1]))
                   case None => Some(NoDetectado)
  {
    GetBuild(NoDetectado, NoDetectado, Pendientes, 0);
    if pagina.li.Some? {
      var rfc := RemoteRfc(pagina.li.value).GetOr(NoDetectado);
      GetBuild(NoDetectado, rfc, Pendientes, 0);
      if pagina.datos.Some? {
        var filas := pagina.datos.value;
        GetBuild(Titular(filas), rfc, Valores(Aplanar(pagina.grids)), 0);
        RazonEsUltima(Nombres(NoDetectado, "", "", ""), filas);
      }
    }
  }

  /** Whatever the page, the result has the eleven keys in the order the code creates them. */
  lemma ResultadoKeys(pagina: Page)
    ensures Keys(Resultado(pagina)) == RemoteKeys
  {
    match pagina.li
    case None => BuildKeys(NoDetectado, NoDetectado, Pendientes);
    case Some(li) =>
      var rfc := RemoteRfc(li).GetOr(NoDetectado);
      match pagina.datos
      case None => BuildKeys(NoDetectado, rfc, Pendientes);
      case Some(filas) => BuildKeys(Titular(filas), rfc, Valores(Aplanar(pagina.grids)));
  }

  // ---------------------------------------------------------------------------------------
  // The batch: one row per uploaded file
  // ---------------------------------------------------------------------------------------

  /** An uploaded file: its name and the text of each of its pages. */
  datatype Archivo = Archivo(nombre: string, paginas: seq<string>)

  const ArchivoKey := "Archivo"

  /** The row of a file without a usable link. */
  function SinEnlace(): Entries {
    Build(SinLink, NoDetectado, Pendientes)
  }

  /** The result of one file before its name is added; `portal` is the page the browser renders
      for a link. */
  function DatosArchivo(a: Archivo, portal: string -> Page): Entries {
    match LinkOf(a.paginas)
    case Some(u) => if |u| >= 4 && u[..4] == "http" then Resultado(portal(u)) else SinEnlace()
    case None => SinEnlace()
  }

  /** The row of one file. */
  function Fila(a: Archivo, portal: string -> Page): Entries {
    Set(DatosArchivo(a, portal), ArchivoKey, a.nombre)
  }

  /** The body of the upload loop for one file. */
  method ProcesarArchivo(a: Archivo, portal: string -> Page) returns (datos: Entries)
    ensures datos == Fila(a, portal)
  {
    var qr := ProcesarPdf(a.paginas);
    if qr.Some? && |qr.value| >= 4 && qr.value[..4] == "http" {
      datos := ExtraerDatosDesdePagina(portal(qr.value));
    } else {
      datos := SinEnlace();
    }
    datos := Set(datos, ArchivoKey, a.nombre);
  }

  /** The upload loop: every file gets its row, in upload order. */
  method ProcesarArchivos(archivos: seq<Archivo>, portal: string -> Page) returns (resultados: seq<Entries>)
    ensures |resultados| == |archivos|
    ensures forall i :: 0 <= i < |archivos| ==> resultados[i] == Fila(archivos[i], portal)
  {
    resultados := [];
    for i := 0 to |archivos|
      invariant |resultados| == i
      invariant forall j :: 0 <= j < i ==> resultados[j] == Fila(archivos[j], portal)
    {
      var datos := ProcesarArchivo(archivos[i], portal);
      resultados := resultados + [datos];
    }
  }

  lemma ArchivoKeyNew()
    ensures ArchivoKey !in RemoteKeys
  {
  }

  lemma DatosArchivoKeys(a: Archivo, portal: string -> Page)
    ensures Keys(DatosArchivo(a, portal)) == RemoteKeys
  {
    match LinkOf(a.paginas)
    case Some(u) =>
      if |u| >= 4 && u[..4] == "http" {
        ResultadoKeys(portal(u));
      } else {
        BuildKeys(SinLink, NoDetectado, Pendientes);
      }
    case None =>
      BuildKeys(SinLink, NoDetectado, Pendientes);
  }

  /** Every row has the eleven keys of a result followed by "Archivo", which holds the file's
      name. */
  lemma FilaKeys(a: Archivo, portal: string -> Page)
    ensures Fila(a, portal) == DatosArchivo(a, portal) + [(ArchivoKey, a.nombre)]
    ensures Keys(Fila(a, portal)) == RemoteKeys + [ArchivoKey]
    ensures Get(Fila(a, portal), ArchivoKey) == Some(a.nombre)
  {
    var datos := DatosArchivo(a, portal);
    DatosArchivoKeys(a, portal);
    ArchivoKeyNew();
    SetNew(datos, ArchivoKey, a.nombre);
    SetSpec(datos, ArchivoKey, a.nombre, ArchivoKey);
  }

  /** A file whose pages hold no link gets "No se encontró link en el PDF" as its legal name and
      "No detectado" everywhere else; otherwise the `startswith("http")` test always passes and
      the result is the one read from the page of the first link. */
  lemma DatosArchivoSpec(a: Archivo, portal: string -> Page)
    ensures LinkOf(a.paginas).None? <==> forall i :: 0 <= i < |a.paginas| ==> UrlIn(a.paginas[i]).None?
    ensures LinkOf(a.paginas).None? ==> DatosArchivo(a, portal) == SinEnlace()
    ensures LinkOf(a.paginas).Some? ==> DatosArchivo(a, portal) == Resultado(portal(LinkOf(a.paginas).value))
  {
    LinkOfSpec(a.paginas);
    if LinkOf(a.paginas).Some? {
      LinkStartsWithHttp(LinkOf(a.paginas).value);
    }
  }
}

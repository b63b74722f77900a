/**
 * The pieces of Python regular expressions (module `re`) that both extractors use, with the
 * leftmost-first search and the greedy-with-backtracking matching of `re.search`.
 *
 * A labelled pattern has the form `label SKIP* (KEEP+)`: the literal label (matched ignoring
 * case), a run of separator characters, and a captured run of value characters. There are two
 * such shapes in the source:
 *   Field  : `label[:\s]*([\w\sÁÉÍÓÚÑñ.,\-\/&]+)`  (IGNORECASE)
 *   Person : `label\s*([A-ZÑÁÉÍÓÚ ]+)`            (IGNORECASE)
 */
module Patterns {
  import opened Wrappers
  import opened Text

  /** The value class `[\w\sÁÉÍÓÚÑñ.,\-\/&]`; a colon is not in it. */
  predicate IsValueChar(c: char) {
    IsWordChar(c) || IsSpace(c) || (c == '.' || c == ',' || c == '-' || c == '/' || c == '&')
  }

  /** The class `[A-ZÑÁÉÍÓÚ ]` under IGNORECASE: those letters in either case and the space. */
  predicate IsNameChar(c: char) {
    c == ' ' || IsAsciiUpper(c) || IsAsciiLower(c) || (c == 'Ñ' || c == 'Á' || c == 'É' || c == 'Í' || c == 'Ó' || c == 'Ú' || c == 'ñ' || c == 'á' || c == 'é' || c == 'í' || c == 'ó' || c == 'ú')
  }

  datatype Shape = Field | Person

  /** The class of the separator run between the label and the group. */
  predicate Skips(sh: Shape, c: char) {
    match sh
    case Field => c == ':' || IsSpace(c)
    case Person => IsSpace(c)
  }

  /** The class of the captured group. */
  predicate Keeps(sh: Shape, c: char) {
    match sh
    case Field => IsValueChar(c)
    case Person => IsNameChar(c)
  }

  /** The literal label `lbl` matches `t` at `p`, ignoring case. */
  predicate LabelAt(t: string, lbl: string, p: int) {
    0 <= p && p + |lbl| <= |t| && Lower(t[p..p + |lbl|]) == Lower(lbl)
  }

  /** Every character of `t[q..j]` is a separator. */
  predicate SkipsUpTo(t: string, sh: Shape, q: int, j: int)
    requires 0 <= q <= j <= |t|
  {
    forall k :: q <= k < j ==> Skips(sh, t[k])
  }

  /** The end of the longest separator run starting at `i`. */
  function SkipEnd(t: string, sh: Shape, i: nat): (e: nat)
    requires i <= |t|
    decreases |t| - i
    ensures i <= e <= |t| && SkipsUpTo(t, sh, i, e)
    ensures e == |t| || !Skips(sh, t[e])
  {
    if i < |t| && Skips(sh, t[i]) then SkipEnd(t, sh, i + 1) else i
  }

  /** The end of the longest run of group characters starting at `i`. */
  function RunEnd(t: string, sh: Shape, i: nat): (e: nat)
    requires i <= |t|
    decreases |t| - i
    ensures i <= e <= |t|
    ensures forall k :: i <= k < e ==> Keeps(sh, t[k])
    ensures e == |t| || !Keeps(sh, t[e])
  {
    if i < |t| && Keeps(sh, t[i]) then RunEnd(t, sh, i + 1) else i
  }

  /** The last position in `[lo, hi)` holding a group character. */
  function LastKept(t: string, sh: Shape, lo: nat, hi: nat): (r: Option<nat>)
    requires lo <= hi <= |t|
    decreases hi - lo
    ensures r.Some? ==> lo <= r.value < hi && Keeps(sh, t[r.value])
                        && forall k :: r.value < k < hi ==> !Keeps(sh, t[k])
    ensures r.None? ==> forall k :: lo <= k < hi ==> !Keeps(sh, t[k])
  {
    if hi == lo then None
    else if Keeps(sh, t[hi - 1]) then Some(hi - 1)
    else LastKept(t, sh, lo, hi - 1)
  }

  /** Where the group starts when the part after the label begins at `q`: the greedy separator
      run ends at `e`; the group starts there if it can, and otherwise the engine gives back
      separator characters one at a time until the group can start on one of them. */
  function GroupStart(t: string, sh: Shape, q: nat): (r: Option<nat>)
    requires q <= |t|
    ensures r.Some? ==> q <= r.value < |t| && Keeps(sh, t[r.value])
  {
    var e := SkipEnd(t, sh, q);
    if e < |t| && Keeps(sh, t[e]) then Some(e) else LastKept(t, sh, q, e)
  }

  /** The captured group, taken greedily from where it starts. */
  function GroupAt(t: string, sh: Shape, q: nat): Option<string>
    requires q <= |t|
  {
    match GroupStart(t, sh, q)
    case Some(j) => Some(t[j..RunEnd(t, sh, j)])
    case None => None
  }

  /** The whole pattern matches with its label at `p`. */
  predicate MatchesAt(t: string, lbl: string, sh: Shape, p: int) {
    LabelAt(t, lbl, p) && GroupAt(t, sh, p + |lbl|).Some?
  }

  /** `re.search` from position `p`: the group of the leftmost match. */
  function CaptureFrom(t: string, lbl: string, sh: Shape, p: nat): (r: Option<string>)
    decreases |t| + 1 - p
    ensures r.Some? ==> exists m :: p <= m && MatchesAt(t, lbl, sh, m)
                                   && GroupAt(t, sh, m + |lbl|) == r
                                   && forall m' :: p <= m' < m ==> !MatchesAt(t, lbl, sh, m')
    ensures r.None? ==> forall m :: p <= m ==> !MatchesAt(t, lbl, sh, m)
  {
    if p + |lbl| > |t| then None
    else if MatchesAt(t, lbl, sh, p) then GroupAt(t, sh, p + |lbl|)
    else CaptureFrom(t, lbl, sh, p + 1)
  }

  /** `re.search(lbl + sub-pattern, t, re.IGNORECASE).group(1)`, if there is a match. */
  function Capture(t: string, lbl: string, sh: Shape): Option<string> {
    CaptureFrom(t, lbl, sh, 0)
  }

  /** The group can start after `q` exactly when a group character is reachable from `q`
      across separators only. */
  lemma GroupAtSomeIff(t: string, sh: Shape, q: nat)
    requires q <= |t|
    ensures GroupAt(t, sh, q).Some? <==>
            exists j :: q <= j < |t| && Keeps(sh, t[j]) && SkipsUpTo(t, sh, q, j)
  {
    var e := SkipEnd(t, sh, q);
    if GroupAt(t, sh, q).Some? {
      var j := GroupStart(t, sh, q).value;
      assert j <= e;
      assert SkipsUpTo(t, sh, q, j);
    } else {
      forall j | q <= j < |t| && Keeps(sh, t[j]) ensures !SkipsUpTo(t, sh, q, j) {
        if j > e {
          assert !Skips(sh, t[e]);
        }
      }
    }
  }

  /** `re.search` finds nothing exactly when no occurrence of the label (in any case) is followed,
      across separators only, by a group character. */
  lemma {:induction false} CaptureNoneIff(t: string, lbl: string, sh: Shape)
    ensures Capture(t, lbl, sh).None? <==>
            forall p, j :: LabelAt(t, lbl, p) && p + |lbl| <= j < |t| && Keeps(sh, t[j])
                           ==> !SkipsUpTo(t, sh, p + |lbl|, j)
  {
    if Capture(t, lbl, sh).None? {
      forall p, j | LabelAt(t, lbl, p) && p + |lbl| <= j < |t| && Keeps(sh, t[j])
        ensures !SkipsUpTo(t, sh, p + |lbl|, j)
      {
        assert !MatchesAt(t, lbl, sh, p);
        GroupAtSomeIff(t, sh, p + |lbl|);
      }
    } else {
      var m :| 0 <= m && MatchesAt(t, lbl, sh, m);
      GroupAtSomeIff(t, sh, m + |lbl|);
    }
  }

  /** A captured group is a non-empty run of group characters reached from `q` across separators
      only, and it ends at the end of the text or at a character outside the group class. */
  lemma GroupShape(t: string, sh: Shape, q: nat)
    requires q <= |t| && GroupAt(t, sh, q).Some?
    ensures var g := GroupAt(t, sh, q).value;
            g != [] && (forall k :: 0 <= k < |g| ==> Keeps(sh, g[k]))
            && exists j :: q <= j && j + |g| <= |t| && t[j..j + |g|] == g && SkipsUpTo(t, sh, q, j)
                           && (j + |g| == |t| || !Keeps(sh, t[j + |g|]))
  {
    var j := GroupStart(t, sh, q).value;
    var e := SkipEnd(t, sh, q);
    assert j <= e;
    assert SkipsUpTo(t, sh, q, j);
  }

  /** `\w` at position `j`, false outside the text. */
  predicate WordAt(t: string, j: int) {
    0 <= j < |t| && IsWordChar(t[j])
  }

  /** `\b` at position `i`: a word character on exactly one side. */
  predicate Boundary(t: string, i: int) {
    WordAt(t, i - 1) != WordAt(t, i)
  }

  /** `[A-ZÑ&]` */
  predicate IsRfcLetter(c: char) { IsAsciiUpper(c) || c == 'Ñ' || c == '&' }

  /** `[A-Z0-9]` */
  predicate IsRfcTail(c: char) { IsAsciiUpper(c) || IsDigit(c) }

  /** `[A-ZÑ&]{n1}\d{6}[A-Z0-9]{n3}` matches `t` at `p` (case-sensitive). */
  predicate RfcShapeAt(t: string, p: int, n1: nat, n3: nat) {
    0 <= p && p + n1 + 6 + n3 <= |t|
    && (forall k :: p <= k < p + n1 ==> IsRfcLetter(t[k]))
    && (forall k :: p + n1 <= k < p + n1 + 6 ==> IsDigit(t[k]))
    && (forall k :: p + n1 + 6 <= k < p + n1 + 6 + n3 ==> IsRfcTail(t[k]))
  }

  /** `r` is, as a whole, a tax identifier with `n1` leading letters and `n3` trailing characters. */
  predicate IsRfc(r: string, n1: nat, n3: nat) {
    |r| == n1 + 6 + n3 && RfcShapeAt(r, 0, n1, n3)
  }

  lemma RfcShapeSlice(t: string, p: int, n1: nat, n3: nat)
    requires RfcShapeAt(t, p, n1, n3)
    ensures IsRfc(t[p..p + n1 + 6 + n3], n1, n3)
  {
  }
}

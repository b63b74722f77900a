/**
 * The parts of Python's `str` type that the extractors use: whitespace, letter case,
 * `strip`, `in`, `split`, `splitlines` and `isupper`.
 *
 * The alphabet the model knows about is ASCII, the Latin-1 whitespace characters and the
 * Spanish letters á é í ó ú ñ ü with their capitals; every other character is treated as
 * uncased punctuation.
 */
module Text {
  import opened Wrappers

  /** `str.isspace()` and the regular-expression class `\s`, within Latin-1. */
  predicate IsSpace(c: char) {
    ('\t' <= c <= '\r') || ('\U{1C}' <= c <= ' ') || c == '\U{85}' || c == '\U{A0}'
  }

  predicate IsDigit(c: char) { '0' <= c <= '9' }

  predicate IsAsciiUpper(c: char) { 'A' <= c <= 'Z' }

  predicate IsAsciiLower(c: char) { 'a' <= c <= 'z' }

  predicate IsUpperLetter(c: char) { IsAsciiUpper(c) || (c == 'Á' || c == 'É' || c == 'Í' || c == 'Ó' || c == 'Ú' || c == 'Ñ' || c == 'Ü') }

  predicate IsLowerLetter(c: char) { IsAsciiLower(c) || (c == 'á' || c == 'é' || c == 'í' || c == 'ó' || c == 'ú' || c == 'ñ' || c == 'ü') }

  /** The regular-expression class `\w`: letters, digits and the underscore. */
  predicate IsWordChar(c: char) { IsUpperLetter(c) || IsLowerLetter(c) || IsDigit(c) || c == '_' }

  function ToLower(c: char): (d: char)
    ensures IsUpperLetter(c) ==> IsLowerLetter(d)
    ensures !IsUpperLetter(c) ==> d == c
  {
    if IsAsciiUpper(c) then (c as int + 32) as char
    else if c == 'Á' then 'á'
    else if c == 'É' then 'é'
    else if c == 'Í' then 'í'
    else if c == 'Ó' then 'ó'
    else if c == 'Ú' then 'ú'
    else if c == 'Ñ' then 'ñ'
    else if c == 'Ü' then 'ü'
    else c
  }

  function ToUpper(c: char): (d: char)
    ensures IsLowerLetter(c) ==> IsUpperLetter(d)
    ensures !IsLowerLetter(c) ==> d == c
  {
    if IsAsciiLower(c) then (c as int - 32) as char
    else if c == 'á' then 'Á'
    else if c == 'é' then 'É'
    else if c == 'í' then 'Í'
    else if c == 'ó' then 'Ó'
    else if c == 'ú' then 'Ú'
    else if c == 'ñ' then 'Ñ'
    else if c == 'ü' then 'Ü'
    else c
  }

  /** `s.lower()` */
  function Lower(s: string): string {
    seq(|s|, i requires 0 <= i < |s| => ToLower(s[i]))
  }

  /** `s.upper()` */
  function Upper(s: string): string {
    seq(|s|, i requires 0 <= i < |s| => ToUpper(s[i]))
  }

  /** Whitespace at neither end. */
  predicate Stripped(s: string) {
    s == [] || (!IsSpace(s[0]) && !IsSpace(s[|s| - 1]))
  }

  /** The end of the whitespace run starting at `i`. */
  function LeadEnd(s: string, i: nat): (e: nat)
    requires i <= |s|
    decreases |s| - i
    ensures i <= e <= |s|
    ensures forall k :: i <= k < e ==> IsSpace(s[k])
    ensures e == |s| || !IsSpace(s[e])
  {
    if i < |s| && IsSpace(s[i]) then LeadEnd(s, i + 1) else i
  }

  /** The start of the whitespace run ending at `j`. */
  function TrailStart(s: string, j: nat): (b: nat)
    requires j <= |s|
    decreases j
    ensures b <= j
    ensures forall k :: b <= k < j ==> IsSpace(s[k])
    ensures b == 0 || !IsSpace(s[b - 1])
  {
    if j > 0 && IsSpace(s[j - 1]) then TrailStart(s, j - 1) else j
  }

  /** `r` is the slice of `s` at `a`, and only whitespace of `s` lies outside it. */
  predicate TrimmedSliceAt(s: string, r: string, a: int) {
    0 <= a && a + |r| <= |s| && s[a..a + |r|] == r
    && (forall i :: 0 <= i < a ==> IsSpace(s[i]))
    && (forall i :: a + |r| <= i < |s| ==> IsSpace(s[i]))
  }

  /** `s.strip()`: the slice of `s` between its leading and its trailing whitespace. */
  function Strip(s: string): (r: string)
    ensures Stripped(r) && |r| <= |s|
    ensures Stripped(s) ==> r == s
  {
    var a := LeadEnd(s, 0);
    if a == |s| then [] else s[a..TrailStart(s, |s|)]
  }

  /** What `strip` keeps is a slice of its argument with only whitespace around it, and it keeps
      nothing exactly when the argument is all whitespace. */
  lemma StripSpec(s: string)
    ensures TrimmedSliceAt(s, Strip(s), LeadEnd(s, 0))
    ensures Strip(s) == [] <==> forall i :: 0 <= i < |s| ==> IsSpace(s[i])
  {
    var a := LeadEnd(s, 0);
    if a < |s| {
      var b := TrailStart(s, |s|);
      assert a < b;
      assert Strip(s) == s[a..b];
    }
  }

  /** `w` occurs in `s` starting at index `i`. */
  predicate OccursAt(s: string, w: string, i: int) {
    0 <= i && i + |w| <= |s| && s[i..i + |w|] == w
  }

  /** `s.find(w, from)`, as an option: the first index at or after `from` where `w` occurs. */
  function IndexFrom(s: string, w: string, from: nat): (r: Option<nat>)
    decreases |s| - from
    ensures r.Some? ==> from <= r.value && OccursAt(s, w, r.value)
                        && forall j :: from <= j < r.value ==> !OccursAt(s, w, j)
    ensures r.None? ==> forall j :: from <= j ==> !OccursAt(s, w, j)
  {
    if from + |w| > |s| then None
    else if s[from..from + |w|] == w then Some(from)
    else IndexFrom(s, w, from + 1)
  }

  function IndexOf(s: string, w: string): Option<nat> {
    IndexFrom(s, w, 0)
  }

  /** `w in s` */
  predicate Contains(s: string, w: string) {
    IndexOf(s, w).Some?
  }

  lemma ContainsAt(s: string, w: string, i: int)
    requires OccursAt(s, w, i)
    ensures Contains(s, w)
  {
  }

  /** `s.split(w, 1)[0]`: everything before the first occurrence of `w`, or all of `s`. */
  function SplitFirst(s: string, w: string): (r: string)
    requires w != []
    ensures |r| <= |s| && r == s[..|r|]
    ensures Contains(s, w) ==> OccursAt(s, w, |r|) && forall j :: 0 <= j < |r| ==> !OccursAt(s, w, j)
    ensures !Contains(s, w) ==> r == s
  {
    match IndexOf(s, w)
    case Some(i) => s[..i]
    case None => s
  }

  /** Where the part of `s[..j]` after its last `c` starts (0 when there is none). */
  function AfterStart(s: string, c: char, j: nat): (b: nat)
    requires j <= |s|
    decreases j
    ensures b <= j
    ensures forall k :: b <= k < j ==> s[k] != c
    ensures b == 0 || s[b - 1] == c
  {
    if j > 0 && s[j - 1] != c then AfterStart(s, c, j - 1) else j
  }

  /** `s.split(c)[-1]`: everything after the last `c`, or all of `s`. */
  function AfterLast(s: string, c: char): (r: string)
    ensures |r| <= |s| && r == s[|s| - |r|..]
    ensures c !in r
    ensures |r| < |s| ==> s[|s| - |r| - 1] == c
  {
    s[AfterStart(s, c, |s|)..]
  }

  /** When `s` contains `c`, `s.split(c)[-1]` is what follows the last occurrence of `c`. */
  lemma AfterLastSpec(s: string, c: char)
    requires Contains(s, [c])
    ensures exists k :: 0 <= k < |s| && s[k] == c && (forall m :: k < m < |s| ==> s[m] != c)
                        && AfterLast(s, c) == s[k + 1..]
  {
    var i := IndexOf(s, [c]).value;
    assert s[i..i + 1] == [c];
    var b := AfterStart(s, c, |s|);
    assert s[i] == c && i < b;
    assert s[b - 1] == c && AfterLast(s, c) == s[b..];
  }

  /** The characters at which `str.splitlines()` breaks a line ("\r\n" counts as one break). */
  predicate IsLineBreak(c: char) {
    ('\n' <= c <= '\r') || ('\U{1C}' <= c <= '\U{1E}') || c == '\U{85}' || c == '\U{2028}' || c == '\U{2029}'
  }

  /** The first line break at or after `from`, or `|s|`. */
  function LineEnd(s: string, from: nat): (e: nat)
    requires from <= |s|
    decreases |s| - from
    ensures from <= e <= |s|
    ensures forall k :: from <= k < e ==> !IsLineBreak(s[k])
    ensures e < |s| ==> IsLineBreak(s[e])
  {
    if from == |s| || IsLineBreak(s[from]) then from else LineEnd(s, from + 1)
  }

  /** `s.splitlines()`: no line keeps a break, and a break at the very end opens no extra line. */
  function SplitLines(s: string): (ls: seq<string>)
    decreases |s|
    ensures forall k, j :: 0 <= k < |ls| && 0 <= j < |ls[k]| ==> !IsLineBreak(ls[k][j])
    ensures s == [] <==> ls == []
  {
    if s == [] then []
    else
      var e := LineEnd(s, 0);
      if e == |s| then [s]
      else
        var next := if s[e] == '\r' && e + 1 < |s| && s[e + 1] == '\n' then e + 2 else e + 1;
        [s[..e]] + SplitLines(s[next..])
  }

  /** `s.isupper()`: at least one cased character, and no lower-case one. */
  predicate IsUpper(s: string) {
    (exists i :: 0 <= i < |s| && IsUpperLetter(s[i])) && forall i :: 0 <= i < |s| ==> !IsLowerLetter(s[i])
  }
}

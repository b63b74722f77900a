/**
 * Python's insertion-ordered `dict` from strings to strings, as the sequence of its
 * (key, value) pairs in insertion order. Assigning to a key that is already present
 * keeps its place; a new key goes last.
 */
module Dict {
  import opened Wrappers

  type Entries = seq<(string, string)>

  /** The keys in order, as `list(d)` gives them. */
  function Keys(d: Entries): seq<string> {
    seq(|d|, i requires 0 <= i < |d| => d[i].0)
  }

  predicate Distinct(ks: seq<string>) {
    forall i, j :: 0 <= i < j < |ks| ==> ks[i] != ks[j]
  }

  /** The position of the first entry at or after `from` whose key is `k`. */
  function FindFrom(d: Entries, k: string, from: nat): (r: Option<nat>)
    decreases |d| - from
    ensures r.Some? ==> from <= r.value < |d| && d[r.value].0 == k
                        && forall j :: from <= j < r.value ==> d[j].0 != k
    ensures r.None? ==> forall j :: from <= j < |d| ==> d[j].0 != k
  {
    if from >= |d| then None
    else if d[from].0 == k then Some(from)
    else FindFrom(d, k, from + 1)
  }

  function Find(d: Entries, k: string): Option<nat> {
    FindFrom(d, k, 0)
  }

  /** `d.get(k)` */
  function Get(d: Entries, k: string): Option<string> {
    match Find(d, k)
    case Some(i) => Some(d[i].1)
    case None => None
  }

  /** `d[k] = v` */
  function Set(d: Entries, k: string, v: string): Entries {
    match Find(d, k)
    case Some(i) => d[i := (k, v)]
    case None => d + [(k, v)]
  }

  lemma FindIs(d: Entries, k: string, i: nat)
    requires i < |d| && d[i].0 == k && forall j :: 0 <= j < i ==> d[j].0 != k
    ensures Find(d, k) == Some(i)
  {
  }

  lemma FindNone(d: Entries, k: string)
    requires k !in Keys(d)
    ensures Find(d, k) == None
  {
    forall j | 0 <= j < |d| ensures d[j].0 != k {
      assert Keys(d)[j] == d[j].0;
    }
  }

  /** Assigning to the key at position `i` of a dict with distinct keys replaces that entry only. */
  lemma SetAt(d: Entries, i: nat, v: string)
    requires i < |d| && Distinct(Keys(d))
    ensures Set(d, d[i].0, v) == d[i := (d[i].0, v)]
  {
    forall j | 0 <= j < i ensures d[j].0 != d[i].0 {
      assert Keys(d)[j] != Keys(d)[i];
    }
    FindIs(d, d[i].0, i);
  }

  /** Assigning to a key that is absent appends the entry. */
  lemma SetNew(d: Entries, k: string, v: string)
    requires k !in Keys(d)
    ensures Set(d, k, v) == d + [(k, v)]
  {
    FindNone(d, k);
  }

  /** Building a dict with distinct keys one assignment at a time, in key order, appends each
      entry in turn. */
  lemma SetPrefix(d: Entries, m: nat)
    requires m < |d| && Distinct(Keys(d))
    ensures Set(d[..m], d[m].0, d[m].1) == d[..m + 1]
  {
    forall j | 0 <= j < m ensures Keys(d[..m])[j] != d[m].0 {
      assert Keys(d)[j] != Keys(d)[m];
    }
    SetNew(d[..m], d[m].0, d[m].1);
  }

  /** After `d[k] = v`, the key set is unchanged if `k` was present (it only grows by `k` otherwise),
      `d.get(k)` is `v`, and every other key reads as before. */
  lemma {:induction false} SetSpec(d: Entries, k: string, v: string, k': string)
    ensures k in Keys(d) ==> Keys(Set(d, k, v)) == Keys(d)
    ensures k !in Keys(d) ==> Keys(Set(d, k, v)) == Keys(d) + [k]
    ensures Get(Set(d, k, v), k) == Some(v)
    ensures k' != k ==> Get(Set(d, k, v), k') == Get(d, k')
  {
    var r := Set(d, k, v);
    match Find(d, k)
    case Some(i) =>
      assert r == d[i := (k, v)];
      assert Keys(d)[i] == k;
      FindIs(r, k, i);
      if k' != k {
        match Find(d, k')
        case Some(j) => FindIs(r, k', j);
        case None =>
          assert forall m :: 0 <= m < |r| ==> r[m].0 != k';
          assert Find(r, k') == None;
      }
    case None =>
      assert k !in Keys(d);
      assert r == d + [(k, v)];
      FindIs(r, k, |d|);
      if k' != k {
        match Find(d, k')
        case Some(j) => FindIs(r, k', j);
        case None =>
          assert forall m :: 0 <= m < |r| ==> r[m].0 != k';
          assert Find(r, k') == None;
      }
  }
}

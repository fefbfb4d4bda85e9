/**
 * Python dictionaries as the configuration tools use them: string keys in
 * insertion order. `d[k] = v` overwrites the value of an existing key where
 * it stands and appends a new key at the end. The nested dictionaries built
 * by the example parser and the parameter inference hold either text or
 * further dictionaries.
 */
module Dicts {

  datatype Option<T> = None | Some(value: T)

  /** A value of the nested dictionaries: a string or a dictionary. */
  datatype Value = Str(text: string) | Dict(entries: seq<(string, Value)>)

  /** The entries of a dictionary, in insertion order. */
  type Entries = seq<(string, Value)>

  function Keys<T>(d: seq<(string, T)>): (r: seq<string>)
    ensures |r| == |d| && forall i :: 0 <= i < |d| ==> r[i] == d[i].0
  {
    seq(|d|, i requires 0 <= i < |d| => d[i].0)
  }

  /** What every Python dictionary satisfies: no key occurs twice. */
  predicate DistinctKeys<T>(d: seq<(string, T)>) {
    forall i, j :: 0 <= i < j < |d| ==> d[i].0 != d[j].0
  }

  /** The position of the first entry with key `k`, or `|d|` if there is none. */
  function IndexOf<T>(d: seq<(string, T)>, k: string): (i: nat)
    ensures i <= |d|
    ensures i < |d| ==> d[i].0 == k
    ensures forall j :: 0 <= j < i ==> d[j].0 != k
  {
    if d == [] then 0
    else if d[0].0 == k then 0
    else 1 + IndexOf(d[1..], k)
  }

  /** `d[k]` when present. */
  function Get<T>(d: seq<(string, T)>, k: string): Option<T> {
    var i := IndexOf(d, k);
    if i < |d| then Some(d[i].1) else None
  }

  /** `d[k] = v`. */
  function Put<T>(d: seq<(string, T)>, k: string, v: T): seq<(string, T)> {
    var i := IndexOf(d, k);
    if i < |d| then d[i := (k, v)] else d + [(k, v)]
  }

  lemma {:induction false} KeyPresent<T>(d: seq<(string, T)>, k: string)
    ensures k in Keys(d) <==> IndexOf(d, k) < |d|
  {
    if k in Keys(d) {
      var j :| 0 <= j < |d| && Keys(d)[j] == k;
      assert d[j].0 == k;
    }
  }

  /** After `d[k] = v`, looking `k` up gives `v`. */
  lemma PutGet<T>(d: seq<(string, T)>, k: string, v: T)
    ensures Get(Put(d, k, v), k) == Some(v)
  {
    var i := IndexOf(d, k);
    var r := Put(d, k, v);
    assert r[IndexOf(d, k)] == (k, v);
    assert forall j :: 0 <= j < i ==> r[j].0 != k;
  }

  /** `d[k] = v` leaves every other key's value as it was. */
  lemma PutGetOther<T>(d: seq<(string, T)>, k: string, v: T, k': string)
    requires k' != k
    ensures Get(Put(d, k, v), k') == Get(d, k')
  {
    var i, i' := IndexOf(d, k), IndexOf(d, k');
    var r := Put(d, k, v);
    if i' < |d| {
      assert r[i'] == d[i'];
      assert forall j :: 0 <= j < i' ==> r[j].0 != k';
    } else {
      assert forall j :: 0 <= j < |r| ==> r[j].0 != k';
    }
  }

  /** An existing key keeps its position; a new key goes to the end. */
  lemma PutKeys<T>(d: seq<(string, T)>, k: string, v: T)
    ensures Keys(Put(d, k, v)) == if k in Keys(d) then Keys(d) else Keys(d) + [k]
  {
    KeyPresent(d, k);
  }

  /** `d[k] = v` keeps the keys distinct. */
  lemma PutDistinct<T>(d: seq<(string, T)>, k: string, v: T)
    requires DistinctKeys(d)
    ensures DistinctKeys(Put(d, k, v))
  {
    var i := IndexOf(d, k);
    var r := Put(d, k, v);
    if i == |d| {
      assert forall j :: 0 <= j < |d| ==> r[j].0 == d[j].0 && d[j].0 != k;
    }
  }

  /** Every entry after `d[k] = v` is `(k, v)` or an entry of `d`. */
  lemma PutEntries<T>(d: seq<(string, T)>, k: string, v: T)
    ensures forall j :: 0 <= j < |Put(d, k, v)| ==> Put(d, k, v)[j] == (k, v) || Put(d, k, v)[j] in d
  {
  }

  /** A key not yet present is appended. */
  lemma PutNew<T>(d: seq<(string, T)>, k: string, v: T)
    requires k !in Keys(d)
    ensures Put(d, k, v) == d + [(k, v)]
  {
    KeyPresent(d, k);
  }

  /** Searching a concatenation searches the first part first. */
  lemma {:induction false} IndexOfAppend<T>(a: seq<(string, T)>, b: seq<(string, T)>, k: string)
    ensures IndexOf(a + b, k) == if IndexOf(a, k) < |a| then IndexOf(a, k) else |a| + IndexOf(b, k)
    decreases |a|
  {
    if a == [] {
      assert a + b == b;
    } else {
      assert (a + b)[0] == a[0];
      assert (a + b)[1..] == a[1..] + b;
      IndexOfAppend(a[1..], b, k);
    }
  }

  /** A key of the first part is found there; any other key in the second. */
  lemma GetAppend<T>(a: seq<(string, T)>, b: seq<(string, T)>, k: string)
    ensures Get(a + b, k) == if k in Keys(a) then Get(a, k) else Get(b, k)
  {
    IndexOfAppend(a, b, k);
    KeyPresent(a, k);
    var i := IndexOf(a, k);
    if i < |a| {
      assert (a + b)[i] == a[i];
    } else if IndexOf(b, k) < |b| {
      assert (a + b)[|a| + IndexOf(b, k)] == b[IndexOf(b, k)];
    }
  }

  /** Overwriting the key of the last entry changes that entry only. */
  lemma PutLast<T>(a: seq<(string, T)>, k: string, v: T, w: T)
    requires k !in Keys(a)
    ensures Get(a + [(k, v)], k) == Some(v)
    ensures Put(a + [(k, v)], k, w) == a + [(k, w)]
  {
    IndexOfAppend(a, [(k, v)], k);
    KeyPresent(a, k);
  }
}

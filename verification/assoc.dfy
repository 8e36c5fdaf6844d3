/** Insertion-ordered string-keyed records: a JavaScript object used as a
    dictionary, or a Python `dict`. Iteration order is the order in which keys were
    first inserted; assigning to an existing key keeps its position. */
module Assoc {
  import opened Wrappers

  type Record<V> = seq<(string, V)>

  predicate HasKey<V>(r: Record<V>, k: string) {
    exists i :: 0 <= i < |r| && r[i].0 == k
  }

  function Keys<V>(r: Record<V>): set<string> {
    set i | 0 <= i < |r| :: r[i].0
  }

  /** No key is stored twice. */
  predicate UniqueKeys<V>(r: Record<V>) {
    forall i, j :: 0 <= i < j < |r| ==> r[i].0 != r[j].0
  }

  /** Position of the first entry with key `k`. */
  function IndexOf<V>(r: Record<V>, k: string): (res: Option<nat>)
    ensures res.Some? ==> res.value < |r| && r[res.value].0 == k
    ensures res.Some? ==> forall i :: 0 <= i < res.value ==> r[i].0 != k
    ensures res.None? <==> !HasKey(r, k)
  {
    if |r| == 0 then None
    else if r[0].0 == k then Some(0)
    else match IndexOf(r[1..], k)
      case None => None
      case Some(i) => Some(i + 1)
  }

  /** `obj[k]` / `d.get(k)`. */
  function Get<V>(r: Record<V>, k: string): (res: Option<V>)
    ensures res.Some? <==> HasKey(r, k)
  {
    match IndexOf(r, k)
    case None => None
    case Some(i) => Some(r[i].1)
  }

  /** `obj[k] = v`: overwrite in place when the key exists, otherwise append. */
  function Put<V>(r: Record<V>, k: string, v: V): (res: Record<V>)
    ensures Get(res, k) == Some(v)
    ensures forall j :: j != k ==> Get(res, j) == Get(r, j)
    ensures HasKey(r, k) ==> |res| == |r|
    ensures !HasKey(r, k) ==> res == r + [(k, v)]
    ensures UniqueKeys(r) ==> UniqueKeys(res)
    ensures forall e :: e in res ==> e in r || e == (k, v)
    ensures HasKey(r, k) ==> res == r[IndexOf(r, k).value := (k, v)]
  {
    match IndexOf(r, k)
    case None =>
      var res := r + [(k, v)];
      assert forall j :: j != k ==> IndexOf(res, j) == IndexOf(r, j) by {
        forall j | j != k ensures IndexOf(res, j) == IndexOf(r, j) {
          IndexOfAppend(r, j, k, v);
        }
      }
      IndexOfAppendNew(r, k, v);
      res
    case Some(i) =>
      var res := r[i := (k, v)];
      IndexOfUpdateSame(r, i, k, v);
      forall j | j != k ensures IndexOf(res, j) == IndexOf(r, j) {
        IndexOfUpdate(r, i, j, k, v);
      }
      res
  }

  lemma IndexOfAppend<V>(r: Record<V>, j: string, k: string, v: V)
    requires j != k
    ensures IndexOf(r + [(k, v)], j) == IndexOf(r, j)
  {
    if |r| > 0 {
      assert (r + [(k, v)])[1..] == r[1..] + [(k, v)];
      IndexOfAppend(r[1..], j, k, v);
    }
  }

  lemma IndexOfAppendNew<V>(r: Record<V>, k: string, v: V)
    requires !HasKey(r, k)
    ensures IndexOf(r + [(k, v)], k) == Some(|r|)
  {
    if |r| > 0 {
      assert (r + [(k, v)])[1..] == r[1..] + [(k, v)];
      IndexOfAppendNew(r[1..], k, v);
    }
  }

  lemma IndexOfUpdateSame<V>(r: Record<V>, i: nat, k: string, v: V)
    requires IndexOf(r, k) == Some(i)
    ensures IndexOf(r[i := (k, v)], k) == Some(i)
  {
    if i > 0 {
      assert r[i := (k, v)][1..] == r[1..][i - 1 := (k, v)];
      IndexOfUpdateSame(r[1..], i - 1, k, v);
    }
  }

  lemma IndexOfUpdate<V>(r: Record<V>, i: nat, j: string, k: string, v: V)
    requires i < |r| && r[i].0 == k && j != k
    ensures IndexOf(r[i := (k, v)], j) == IndexOf(r, j)
  {
    if i > 0 {
      assert r[i := (k, v)][1..] == r[1..][i - 1 := (k, v)];
      IndexOfUpdate(r[1..], i - 1, j, k, v);
    }
  }

  /** A record holding its keys once has as many entries as keys. */
  lemma UniqueKeysCard<V>(r: Record<V>)
    requires UniqueKeys(r)
    ensures |Keys(r)| == |r|
  {
    if |r| > 0 {
      var t := r[..|r| - 1];
      UniqueKeysCard(t);
      assert Keys(r) == Keys(t) + {r[|r| - 1].0};
    }
  }

  /** Looking a key up in a record whose first entry holds it. */
  lemma GetHead<V>(k: string, v: V, r: Record<V>)
    ensures Get([(k, v)] + r, k) == Some(v)
  {
  }

  /** Looking a key up past a first entry holding another key. */
  lemma GetSkip<V>(e: (string, V), r: Record<V>, k: string)
    requires e.0 != k
    ensures Get([e] + r, k) == Get(r, k)
  {
    assert ([e] + r)[1..] == r;
  }
}

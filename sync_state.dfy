/**
 * Value-level specification of a grouping's sync-destination state: the
 * `Map<String, Boolean>` from destination name to its synced flag, and the
 * list of destinations it must agree with, seen as (name, synced) pairs.
 */
module SyncState {

  /** One listed sync destination, as its (name, synced) pair. */
  type Entry = (string, bool)

  /** The index of the last entry named `k`, or -1 when no entry has that name. */
  function LastNamed(es: seq<Entry>, k: string): (r: int)
    ensures -1 <= r < |es|
    ensures r == -1 <==> forall i :: 0 <= i < |es| ==> es[i].0 != k
    ensures 0 <= r ==> es[r].0 == k && forall i :: r < i < |es| ==> es[i].0 != k
    decreases |es|
  {
    if es == [] then -1
    else if es[|es| - 1].0 == k then |es| - 1
    else LastNamed(es[..|es| - 1], k)
  }

  /** The map after `put(name, synced)` of every entry of `es`, in list order. */
  function PutAll(m: map<string, bool>, es: seq<Entry>): map<string, bool>
    decreases |es|
  {
    if es == [] then m
    else
      var last := es[|es| - 1];
      PutAll(m, es[..|es| - 1])[last.0 := last.1]
  }

  /**
   * What `PutAll` leaves under each key: a name listed in `es` maps to the flag
   * of its last entry; any other key keeps its old value, or stays absent.
   */
  lemma {:induction false} PutAllLookup(m: map<string, bool>, es: seq<Entry>, k: string)
    ensures k in PutAll(m, es) <==> k in m || LastNamed(es, k) != -1
    ensures LastNamed(es, k) != -1 ==> PutAll(m, es)[k] == es[LastNamed(es, k)].1
    ensures LastNamed(es, k) == -1 && k in m ==> PutAll(m, es)[k] == m[k]
    decreases |es|
  {
    if es != [] {
      PutAllLookup(m, es[..|es| - 1], k);
    }
  }

  /** Java's `Map.replace(k, b)`: overwrite the value of `k` only when `k` is already a key. */
  function Replace(m: map<string, bool>, k: string, b: bool): (r: map<string, bool>)
    ensures r.Keys == m.Keys
    ensures k in m ==> r[k] == b
    ensures forall j :: j in m && j != k ==> r[j] == m[j]
  {
    if k in m then m[k := b] else m
  }

  /** The entries after every destination named `k` has had its synced flag set to `b`. */
  function SetNamed(es: seq<Entry>, k: string, b: bool): seq<Entry>
  {
    seq(|es|, i requires 0 <= i < |es| => if es[i].0 == k then (k, b) else es[i])
  }

  /**
   * The agreement between the state map and the list: every listed name is a
   * key, and its value is the synced flag of the last destination with that name.
   */
  ghost predicate Agrees(m: map<string, bool>, es: seq<Entry>)
  {
    forall i :: 0 <= i < |es| ==> es[i].0 in m && m[es[i].0] == es[LastNamed(es, es[i].0)].1
  }

  /** Whatever the map held before, putting every entry of the list makes it agree with the list. */
  lemma PutAllAgrees(m: map<string, bool>, es: seq<Entry>)
    ensures Agrees(PutAll(m, es), es)
  {
    forall i | 0 <= i < |es|
      ensures es[i].0 in PutAll(m, es) && PutAll(m, es)[es[i].0] == es[LastNamed(es, es[i].0)].1
    {
      PutAllLookup(m, es, es[i].0);
    }
  }

  /** Setting flags leaves every name where it was, so the last entry of each name does not move. */
  lemma {:induction false} SetNamedKeepsLastNamed(es: seq<Entry>, k: string, b: bool, n: string)
    ensures LastNamed(SetNamed(es, k, b), n) == LastNamed(es, n)
    decreases |es|
  {
    if es != [] {
      assert SetNamed(es, k, b)[..|es| - 1] == SetNamed(es[..|es| - 1], k, b);
      SetNamedKeepsLastNamed(es[..|es| - 1], k, b, n);
    }
  }

  /** Replacing the map value of `k` and setting the flags of the destinations named `k` together keep the agreement. */
  lemma ReplaceKeepsAgreement(m: map<string, bool>, es: seq<Entry>, k: string, b: bool)
    requires Agrees(m, es)
    ensures Agrees(Replace(m, k, b), SetNamed(es, k, b))
  {
    var es' := SetNamed(es, k, b);
    forall i | 0 <= i < |es'|
      ensures es'[i].0 in Replace(m, k, b) && Replace(m, k, b)[es'[i].0] == es'[LastNamed(es', es'[i].0)].1
    {
      SetNamedKeepsLastNamed(es, k, b, es[i].0);
    }
  }

  /** When no two destinations share a name, agreement means each destination's flag is exactly its map value. */
  lemma AgreesDistinct(m: map<string, bool>, es: seq<Entry>)
    requires Agrees(m, es)
    requires forall i, j :: 0 <= i < j < |es| ==> es[i].0 != es[j].0
    ensures forall i :: 0 <= i < |es| ==> es[i].0 in m && m[es[i].0] == es[i].1
  {
    forall i | 0 <= i < |es|
      ensures m[es[i].0] == es[i].1
    {
      var l := LastNamed(es, es[i].0);
      assert l == i;
    }
  }
}
